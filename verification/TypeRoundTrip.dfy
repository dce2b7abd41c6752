/** Printing a column type and parsing the name again. */
module TypeRoundTrip {
  import opened Bytes
  import opened ColumnTypes
  import opened TypeText
  import opened TypeNames
  import opened TypeReturned

  /** The four parameterised types that print as a bare word. */
  predicate IsBare(t: ColumnType)
  {
    t == Enum8 || t == Enum16 || t == AggregateFunction || t == SimpleAggregateFunction
  }

  lemma NumberWords(t: ColumnType)
    requires IsNumber(t)
    ensures NumberWord(Word(t)) == Some(t)
  {
  }

  lemma NotNumberWords(t: ColumnType)
    requires IsWord(t) && !t.Other? && !IsNumber(t)
    ensures NumberWord(Word(t)) == None
  {
  }

  lemma OtherWords(t: ColumnType)
    requires IsWord(t) && !t.Other? && !IsNumber(t) && !IsBare(t)
    ensures OtherWord(Word(t)) == Some(t)
  {
    hide Word, OtherWord;
    if t.Bool? || t.String? || t.JSON? || t.Dynamic? {
      TextWords(t);
    } else if t.Point? || t.Ring? || t.Polygon? || t.MultiPolygon? {
      ShapeWords(t);
    } else if t.Date? || t.Date32? || t.Nothing? || t.Time? {
      TimeWords(t);
    } else {
      AddressWords(t);
    }
  }

  lemma TextWords(t: ColumnType)
    requires t.Bool? || t.String? || t.JSON? || t.Dynamic?
    ensures OtherWord(Word(t)) == Some(t)
  {
  }

  lemma ShapeWords(t: ColumnType)
    requires t.Point? || t.Ring? || t.Polygon? || t.MultiPolygon?
    ensures OtherWord(Word(t)) == Some(t)
  {
  }

  lemma TimeWords(t: ColumnType)
    requires t.Date? || t.Date32? || t.Nothing? || t.Time?
    ensures OtherWord(Word(t)) == Some(t)
  {
  }

  lemma AddressWords(t: ColumnType)
    requires t.DateTime? || t.UUID? || t.IPv4? || t.IPv6?
    ensures OtherWord(Word(t)) == Some(t)
  {
  }

  /** None of the words of `OtherWord` starts as the bare words do. */
  lemma OtherWordInitials(s: string)
    requires s != "" && (s[0] in {'E', 'A'} || (|s| > 12 && s[0] == 'S'))
    ensures OtherWord(s) == None && !StartsWithTime64(s)
  {
    assert |s| >= 6 ==> s[..6][0] == s[0];
  }

  lemma BareWords(t: ColumnType)
    requires IsBare(t)
    ensures ParseWord(Word(t)) == Ok(Other(Word(t)))
  {
    NotNumberWords(t);
    OtherWordInitials(Word(t));
  }

  lemma WordsParse(t: ColumnType)
    requires IsWord(t) && !t.Other? && !IsBare(t)
    ensures ParseWord(Word(t)) == Ok(t)
  {
    if IsNumber(t) {
      NumberWords(t);
    } else {
      NotNumberWords(t);
      OtherWords(t);
    }
  }

  // --------------------------------------------------------------------------
  // What printing does to the bare names
  // --------------------------------------------------------------------------

  /** The type a printed name is read back as: the four bare names carry no
      parameters any more and come back as unknown types. */
  function Normal(t: ColumnType): (n: ColumnType)
  {
    match t
    case Enum8 => Other("Enum8")
    case Enum16 => Other("Enum16")
    case AggregateFunction => Other("AggregateFunction")
    case SimpleAggregateFunction => Other("SimpleAggregateFunction")
    case Nullable(inner) => Nullable(Normal(inner))
    case Array(inner) => Array(Normal(inner))
    case LowCardinality(inner) => LowCardinality(Normal(inner))
    case Map(k, v) => Map(Normal(k), Normal(v))
    case Tuple(ts) => Tuple(Normals(ts))
    case Variant(ts) => Variant(Normals(ts))
    case _ => t
  }

  function Normals(ts: seq<ColumnType>): (ns: seq<ColumnType>)
    ensures |ns| == |ts|
  {
    if ts == [] then [] else [Normal(ts[0])] + Normals(ts[1..])
  }

  /** No `Enum8`, `Enum16`, `AggregateFunction` or `SimpleAggregateFunction`. */
  predicate NoBareNames(t: ColumnType)
  {
    match t
    case Nullable(inner) => NoBareNames(inner)
    case Array(inner) => NoBareNames(inner)
    case LowCardinality(inner) => NoBareNames(inner)
    case Map(k, v) => NoBareNames(k) && NoBareNames(v)
    case Tuple(ts) => AllNoBareNames(ts)
    case Variant(ts) => AllNoBareNames(ts)
    case _ => !IsBare(t)
  }

  predicate AllNoBareNames(ts: seq<ColumnType>)
  {
    ts != [] ==> NoBareNames(ts[0]) && AllNoBareNames(ts[1..])
  }

  lemma {:induction false} NormalIsIdentity(t: ColumnType)
    ensures Normal(t) == t <==> NoBareNames(t)
  {
    hide Normal, NoBareNames, Normals, AllNoBareNames;
    if t.Nullable? || t.Array? || t.LowCardinality? {
      NormalWrapped(t);
      NormalIsIdentity(t.inner);
    } else if t.Map? {
      NormalGroup(t);
      NormalIsIdentity(t.key);
      NormalIsIdentity(t.value);
    } else if t.Tuple? {
      NormalGroup(t);
      NormalsAreIdentity(t.elems);
    } else if t.Variant? {
      NormalGroup(t);
      NormalsAreIdentity(t.types);
    } else {
      NormalLeaf(t);
    }
  }

  lemma {:induction false} NormalWrapped(t: ColumnType)
    requires t.Nullable? || t.Array? || t.LowCardinality?
    ensures (Normal(t) == t <==> Normal(t.inner) == t.inner) && NoBareNames(t) == NoBareNames(t.inner)
  {
  }

  lemma {:induction false} NormalGroup(t: ColumnType)
    requires t.Map? || t.Tuple? || t.Variant?
    ensures t.Map? ==> (Normal(t) == t <==> Normal(t.key) == t.key && Normal(t.value) == t.value)
    ensures t.Map? ==> NoBareNames(t) == (NoBareNames(t.key) && NoBareNames(t.value))
    ensures t.Tuple? ==> (Normal(t) == t <==> Normals(t.elems) == t.elems) && NoBareNames(t) == AllNoBareNames(t.elems)
    ensures t.Variant? ==> (Normal(t) == t <==> Normals(t.types) == t.types) && NoBareNames(t) == AllNoBareNames(t.types)
  {
  }

  lemma {:induction false} NormalLeaf(t: ColumnType)
    requires !(t.Nullable? || t.Array? || t.LowCardinality? || t.Map? || t.Tuple? || t.Variant?)
    ensures Normal(t) == t <==> NoBareNames(t)
  {
  }

  lemma {:induction false} NormalsAreIdentity(ts: seq<ColumnType>)
    ensures Normals(ts) == ts <==> AllNoBareNames(ts)
  {
    if ts != [] {
      NormalIsIdentity(ts[0]);
      NormalsAreIdentity(ts[1..]);
      var ns := Normals(ts);
      assert ns[0] == Normal(ts[0]) && ns[1..] == Normals(ts[1..]);
      assert ts == [ts[0]] + ts[1..];
    }
  }

  // --------------------------------------------------------------------------
  // Reading printed names back
  // --------------------------------------------------------------------------

  lemma ParseOfApplied(base: string, args: string, d: nat)
    requires d <= MAX_TYPE_NESTING
    requires Tidy(base) && Unpunctuated(base) && (args == "" || Tidy(args))
    ensures ParseRec(Applied(base, args), d) == ParseApplied(FormerOf(base), args, Applied(base, args), d)
  {
    hide ParseApplied, FormerOf, ParseWord, IsSpace, TrimStart, TrimEnd;
    var s := Applied(base, args);
    AppliedTidy(base, args);
    TrimTidy(s);
    assert s == base + ['('] + (args + ")");
    IndexAfter(base, '(', args + ")");
    assert s[..|base|] == base;
    assert s[|base| + 1..|s| - 1] == args;
    if args != "" {
      TrimTidy(args);
    }
  }

  lemma ParseOfWord(s: string, d: nat)
    requires d <= MAX_TYPE_NESTING && Tidy(s) && Unpunctuated(s)
    ensures ParseRec(s, d) == ParseWord(s)
  {
    TrimTidy(s);
    IndexMissing(s, '(');
  }

  lemma ParseIgnoresSpace(s: string, d: nat)
    requires Tidy(s)
    ensures ParseRec(" " + s, d) == ParseRec(s, d)
  {
    TrimTidy(s);
  }

  /** What the parser makes of the printed name of `t` at depth `d`. */
  function Expected(t: ColumnType, d: nat): (r: Result<ColumnType>)
  {
    if d + Nesting(t) > MAX_TYPE_NESTING then Err(BadTypeName) else Ok(Normal(t))
  }

  lemma {:induction false} WordReparse(t: ColumnType)
    requires IsWord(t) && !t.Other?
    ensures ParseWord(Word(t)) == Ok(Normal(t)) && Nesting(t) == 0
  {
    hide ParseWord;
    if IsBare(t) {
      BareWords(t);
    } else {
      WordsParse(t);
    }
  }

  lemma {:induction false} ReparseNumber(t: ColumnType, whole: string)
    requires t.FixedString? || t.DateTime64? || t.Time64?
    ensures ParseParameters(FormerFor(t), Args(t), whole) == Ok(t)
  {
    hide DigitsValue, ParseNumber, Trim;
    var n := if t.FixedString? then t.size else t.scale;
    var s := PrintNumber(n);
    NumberText(n);
    NumberParses(n, if t.FixedString? then U64_LIMIT else U32_LIMIT);
    IndexMissing(s, ',');
    assert s[..|s|] == s;
  }

  lemma {:induction false} ReparseDecimal(t: ColumnType, whole: string)
    requires t.Decimal?
    ensures ParseParameters(DecimalF, Args(t), whole) == Ok(t)
  {
    hide DigitsValue, ParseNumber, Trim;
    var p, n := PrintNumber(t.precision), PrintNumber(t.scale);
    NumberText(t.precision);
    NumberParses(t.precision, U32_LIMIT);
    NumberParses(t.scale, U32_LIMIT);
    var args := Args(t);
    assert args == p + [','] + (" " + n);
    IndexAfter(p, ',', " " + n);
    assert args[..|p|] == p && args[|p| + 1..] == " " + n;
  }

  lemma {:induction false} ReparseMap(k: ColumnType, v: ColumnType, d: nat)
    requires Legible(k) && Legible(v) && Closed(Print(k))
    ensures ParseMap(Pair(Print(k), Print(v)), d) == Expected(Map(k, v), d)
    decreases Map(k, v), 0, 0
  {
    hide ParseTrimmed, Trim, Print, ParseRec, Level, Legible, IsSpace, Nesting, Normal;
    MapExpected(k, v, d);
    var kt, vt := Print(k), Print(v);
    Reparse(k, d + 1);
    Reparse(v, d + 1);
    PrintTidy(v);
    var args := Pair(kt, vt);
    assert args == kt + "," + (" " + vt);
    CommaAfter(kt, " " + vt, 0);
    assert args[..|kt|] == kt && args[|kt| + 1..] == " " + vt;
    ParseIgnoresSpace(vt, d + 1);
  }

  lemma {:induction false} MapExpected(k: ColumnType, v: ColumnType, d: nat)
    ensures Expected(Map(k, v), d)
         == if Expected(k, d + 1).Err? || Expected(v, d + 1).Err? then Err(BadTypeName)
            else Ok(Map(Expected(k, d + 1).value, Expected(v, d + 1).value))
  {
  }

  lemma {:induction false} ReparseMany(ts: seq<ColumnType>, d: nat)
    requires AllLegible(ts) && Listed(ts)
    ensures ParseList(PrintList(ts), d + 1)
         == if d + ListNesting(ts) > MAX_TYPE_NESTING && ts != [] then Err(BadTypeName) else Ok(Normals(ts))
    decreases ts, 1
  {
    if ts != [] {
      assert "" + PrintList(ts) == PrintList(ts);
      ReparseList(ts, "", d + 1);
    }
  }

  lemma {:induction false} ReparseArgs(t: ColumnType, whole: string, d: nat)
    requires !IsWord(t) && Legible(t) && d <= MAX_TYPE_NESTING
    ensures ParseApplied(FormerFor(t), Args(t), whole, d) == Expected(t, d)
    decreases t, 1
  {
    hide ParseApplied, FormerFor, Args, Expected, Legible;
    if t.FixedString? || t.DateTime64? || t.Time64? || t.Decimal? {
      ReparseParameters(t, whole, d);
    } else if t.Nullable? || t.Array? || t.LowCardinality? {
      ReparseWrapped(t, whole, d);
    } else {
      ReparseGroup(t, whole, d);
    }
  }

  lemma ReparseParameters(t: ColumnType, whole: string, d: nat)
    requires (t.FixedString? || t.DateTime64? || t.Time64? || t.Decimal?) && d <= MAX_TYPE_NESTING
    ensures ParseApplied(FormerFor(t), Args(t), whole, d) == Expected(t, d)
  {
    hide ParseParameters, Args;
    if t.Decimal? {
      ReparseDecimal(t, whole);
    } else {
      ReparseNumber(t, whole);
    }
  }

  lemma {:induction false} ReparseWrapped(t: ColumnType, whole: string, d: nat)
    requires (t.Nullable? || t.Array? || t.LowCardinality?) && Legible(t) && d <= MAX_TYPE_NESTING
    ensures ParseApplied(FormerFor(t), Args(t), whole, d) == Expected(t, d)
    decreases t, 0
  {
    hide ParseRec, Print, PrintList, ParseParameters, ParseMap, ParseList;
    WrappedExpected(t, d);
    Reparse(t.inner, d + 1);
  }

  lemma {:induction false} WrappedExpected(t: ColumnType, d: nat)
    requires t.Nullable? || t.Array? || t.LowCardinality?
    ensures var inner := Expected(t.inner, d + 1);
            if inner.Err? then Expected(t, d) == Err(BadTypeName) && inner.error == BadTypeName
            else
              Expected(t, d) == Ok(if t.Nullable? then Nullable(inner.value) else if t.Array? then Array(inner.value)
                                   else LowCardinality(inner.value))
  {
  }

  lemma {:induction false} ReparseGroup(t: ColumnType, whole: string, d: nat)
    requires (t.Map? || t.Tuple? || t.Variant?) && Legible(t) && d <= MAX_TYPE_NESTING
    ensures ParseApplied(FormerFor(t), Args(t), whole, d) == Expected(t, d)
    decreases t, 0, 1
  {
    hide ParseRec, Print, PrintList, ParseParameters, ParseMap, ParseList;
    if t.Map? {
      ReparseMap(t.key, t.value, d);
    } else if t.Tuple? {
      ReparseMany(t.elems, d);
    } else {
      ReparseMany(t.types, d);
    }
  }

  lemma {:induction false} ArgsTidy(t: ColumnType)
    requires !IsWord(t) && Legible(t)
    ensures Args(t) == "" || Tidy(Args(t))
  {
    hide Print, PrintNumber, IsSpace;
    if t.FixedString? {
      NumberText(t.size);
    } else if t.DateTime64? || t.Time64? {
      NumberText(t.scale);
    } else if t.Decimal? {
      NumberText(t.precision);
      NumberText(t.scale);
    } else if t.Nullable? || t.Array? || t.LowCardinality? {
      PrintTidy(t.inner);
    } else if t.Map? {
      PrintTidy(t.key);
      PrintTidy(t.value);
    } else if t.Tuple? {
      if t.elems != [] { ListTidy(t.elems); }
    } else {
      if t.types != [] { ListTidy(t.types); }
    }
  }

  lemma LeadingSpace(lead: string, s: string, d: nat)
    requires (lead == "" || lead == " ") && Tidy(s)
    ensures ParseRec(lead + s, d) == ParseRec(s, d) && Level(lead + s, 0) == Level(s, 0)
  {
    if lead == "" {
      assert lead + s == s;
    } else {
      ParseIgnoresSpace(s, d);
      assert (lead + s)[1..] == s;
    }
  }

  lemma {:induction false} ReparseList(ts: seq<ColumnType>, lead: string, d: nat)
    requires AllLegible(ts) && Listed(ts) && ts != [] && (lead == "" || lead == " ")
    ensures ParseList(lead + PrintList(ts), d)
         == if d + ListNesting(ts) > MAX_TYPE_NESTING + 1 then Err(BadTypeName) else Ok(Normals(ts))
    decreases ts, 0
  {
    hide Trim, Print, PrintList, ParseList, ParseRec, Legible, Normal, Nesting, Normals, ListNesting, Level, CommaFrom;
    Reparse(ts[0], d);
    ListExpected(ts, d);
    ListText(ts, lead, d);
    ListStep(lead + PrintList(ts), d);
    if |ts| > 1 {
      ReparseList(ts[1..], " ", d);
    }
  }

  /** Where the first name of a printed list ends, and what it reads as. */
  lemma {:induction false} ListText(ts: seq<ColumnType>, lead: string, d: nat)
    requires AllLegible(ts) && Listed(ts) && ts != [] && (lead == "" || lead == " ")
    ensures var head, remaining := lead + Print(ts[0]), lead + PrintList(ts);
            && remaining != "" && ParseRec(head, d) == ParseRec(Print(ts[0]), d)
            && (if |ts| == 1 then CommaFrom(remaining, 0) == None && remaining == head
                else
                  && CommaFrom(remaining, 0) == Some(|head|) && |head| < |remaining| && remaining[..|head|] == head
                  && remaining[|head| + 1..] == " " + PrintList(ts[1..]))
  {
    hide Trim, Print, ParseRec, Legible, Level, CommaFrom;
    PrintTidy(ts[0]);
    LeadingSpace(lead, Print(ts[0]), d);
    var head := lead + Print(ts[0]);
    if |ts| == 1 {
      NoComma(head, 0);
    } else {
      var rest := " " + PrintList(ts[1..]);
      assert lead + PrintList(ts) == head + "," + rest;
      CommaAfter(head, rest, 0);
    }
  }

  lemma {:induction false} ListExpected(ts: seq<ColumnType>, d: nat)
    requires ts != []
    ensures var first := Expected(ts[0], d);
            && (d + ListNesting(ts) > MAX_TYPE_NESTING + 1 <==>
                  first.Err? || (|ts| > 1 && d + ListNesting(ts[1..]) > MAX_TYPE_NESTING + 1))
            && (first.Err? ==> first.error == BadTypeName)
            && (first.Ok? ==>
                  Normals(ts) == if |ts| > 1 then [first.value] + Normals(ts[1..]) else [first.value])
  {
    hide Normal, Nesting;
    if |ts| == 1 {
      assert ts[1..] == [];
    }
  }

  /** The parser reads the printed name of any tree back as its normal form,
      or rejects it for nesting too deep; nothing else happens. */
  lemma {:induction false} Reparse(t: ColumnType, d: nat)
    requires Legible(t)
    ensures ParseRec(Print(t), d) == Expected(t, d)
    decreases t, 3
  {
    hide Print, ParseRec, Expected, Legible;
    if d > MAX_TYPE_NESTING {
      TooDeep(t, d);
    } else if IsWord(t) {
      ReparseWord(t, d);
    } else {
      ReparseApplied(t, d);
    }
  }

  lemma TooDeep(t: ColumnType, d: nat)
    requires d > MAX_TYPE_NESTING
    ensures ParseRec(Print(t), d) == Expected(t, d)
  {
    hide Print, ParseTrimmed;
  }

  lemma ReparseWord(t: ColumnType, d: nat)
    requires Legible(t) && IsWord(t) && d <= MAX_TYPE_NESTING
    ensures ParseRec(Print(t), d) == Expected(t, d)
  {
    hide ParseWord, Normal, Word, ParseTrimmed, Unpunctuated, Tidy, Unknown;
    WordTidy(t);
    if t.Other? {
      UnknownReparse(t.name, d);
    } else {
      WordUnpunctuated(t);
      ParseOfWord(Word(t), d);
      WordReparse(t);
    }
  }

  lemma UnknownReparse(name: string, d: nat)
    requires Unknown(name) && d <= MAX_TYPE_NESTING
    ensures ParseRec(Print(Other(name)), d) == Expected(Other(name), d)
  {
    hide FormerOf, ParseWord, Trim;
    TrimTidy(name);
    UnknownAnywhere(name, d);
  }

  /** The depth does not matter to an unknown name. */
  lemma UnknownAnywhere(name: string, d: nat)
    requires Unknown(name)
    ensures ParseTrimmed(name, d) == Ok(Other(name))
  {
    hide FormerOf, ParseWord, Trim, ParseApplied;
    var paren := IndexOf(name, '(');
    if paren < |name| {
      var inner := Trim(name[paren + 1..|name| - 1]);
      AppliedStep(name, 0);
      AppliedStep(name, d);
      OnlyUnknown(FormerOf(name[..paren]), inner, name, 0);
      UnknownParse(inner, name, d);
    }
  }

  lemma OnlyUnknown(former: Former, inner: string, whole: string, d: nat)
    requires ParseApplied(former, inner, whole, d).Ok? && ParseApplied(former, inner, whole, d).value.Other?
    ensures former.UnknownF?
  {
    hide NumberArg, ParseRec, ParseList, ParseMap;
    if former.MapF? {
      MapIsMap(inner, d);
    }
  }

  lemma MapIsMap(inner: string, d: nat)
    ensures ParseMap(inner, d).Ok? ==> ParseMap(inner, d).value.Map?
  {
  }

  lemma {:induction false} ReparseApplied(t: ColumnType, d: nat)
    requires Legible(t) && !IsWord(t) && d <= MAX_TYPE_NESTING
    ensures ParseRec(Print(t), d) == Expected(t, d)
    decreases t, 2
  {
    hide ParseTrimmed, ParseParameters, Normal, Nesting, Args, Base;
    ReparseArgs(t, Print(t), d);
    BaseText(t);
    BaseFormer(t);
    ArgsTidy(t);
    ParseOfApplied(Base(t), Args(t), d);
  }

  /** A type survives printing and parsing exactly when its unknown names are not in
      the way, it nests at most 256 deep, and it contains none of the four types that
      print without parameters. */
  lemma PrintParseRoundTrip(t: ColumnType)
    ensures ParseType(Print(t)) == Ok(t) <==> Legible(t) && Nesting(t) <= MAX_TYPE_NESTING && NoBareNames(t)
  {
    hide ParseRec, Print, Legible, NoBareNames, Normal, Nesting;
    if ParseType(Print(t)) == Ok(t) {
      ReturnedIsLegible(Print(t));
    }
    if Legible(t) {
      Reparse(t, 0);
      NormalIsIdentity(t);
    }
  }

  /** Whatever text a type was parsed from, its printed name is read back as its normal
      form. */
  lemma ReturnedIsReread(text: string)
    requires ParseType(text).Ok?
    ensures ParseType(Print(ParseType(text).value)) == Ok(Normal(ParseType(text).value))
  {
    hide ParseRec, Print, Legible, Normal, Nesting;
    ReturnedIsLegible(text);
    Reparse(ParseType(text).value, 0);
  }

  // --------------------------------------------------------------------------
  // Named elements
  // --------------------------------------------------------------------------

  /** A labelled parameterised type, such as a named tuple element, is an unknown type
      to the parser. */
  lemma NamedElement(name: string, t: ColumnType)
    requires Tidy(name) && Unpunctuated(name) && Legible(t) && !IsWord(t)
    ensures Unknown(name + " " + Print(t))
  {
    hide FormerOf, Args, Base, Tidy, Unknown, Legible;
    var base := name + " " + Base(t);
    BaseText(t);
    assert name + " " + Print(t) == Applied(base, Args(t));
    Labelled(name, Base(t));
    ArgsTidy(t);
    assert base[|name|] == ' ';
    SpacedFormer(base);
    AppliedUnknown(base, Args(t));
  }

  lemma Labelled(name: string, base: string)
    requires Tidy(name) && Tidy(base) && Unpunctuated(name) && Unpunctuated(base)
    ensures Tidy(name + " " + base) && Unpunctuated(name + " " + base)
  {
    hide IsSpace;
    var s := name + " " + base;
    assert s[0] == name[0] && s[|s| - 1] == base[|base| - 1];
  }

  lemma AppliedUnknown(base: string, args: string)
    requires Tidy(base) && Unpunctuated(base) && (args == "" || Tidy(args)) && FormerOf(base).UnknownF?
    ensures Unknown(Applied(base, args))
  {
    hide FormerOf, ParseTrimmed, IsSpace, Trim, Applied;
    var s := Applied(base, args);
    assert Tidy(s) by { AppliedTidy(base, args); }
    ParseOfApplied(base, args, 0);
    TrimTidy(s);
    UnknownParse(args, s, 0);
  }

  lemma SpacedFormer(base: string)
    requires ' ' in base
    ensures FormerOf(base).UnknownF?
  {
    NotCompound(base);
    NotNumbered(base);
    NotOpaque(base);
  }

  lemma NotCompound(base: string)
    requires ' ' in base
    ensures base != "Nullable" && base != "Array" && base != "Map" && base != "Tuple" && base != "LowCardinality"
    ensures base != "Variant" && base != "Enum8" && base != "Enum16"
  {
  }

  lemma NotNumbered(base: string)
    requires ' ' in base
    ensures base != "FixedString" && base != "DateTime64" && base != "DateTime" && base != "Time64" && base != "Decimal"
    ensures base != "Decimal32" && base != "Decimal64" && base != "Decimal128" && base != "Decimal256"
  {
  }

  lemma NotOpaque(base: string)
    requires ' ' in base
    ensures base != "Object" && base != "object" && base != "AggregateFunction" && base != "SimpleAggregateFunction"
  {
  }

  // --------------------------------------------------------------------------
  // Normal forms
  // --------------------------------------------------------------------------

  /** The normal form prints the same. */
  lemma {:induction false} PrintNormal(t: ColumnType)
    ensures Print(Normal(t)) == Print(t)
    decreases t, 1
  {
    hide Print, Normal, PrintList, Normals;
    if t.Nullable? || t.Array? || t.LowCardinality? {
      PrintNormal(t.inner);
      WrappedPrint(t);
    } else if t.Map? {
      PrintNormal(t.key);
      PrintNormal(t.value);
      MapPrint(t);
    } else if t.Tuple? {
      PrintNormals(t.elems);
      GroupPrint(t);
    } else if t.Variant? {
      PrintNormals(t.types);
      GroupPrint(t);
    } else {
      LeafPrint(t);
    }
  }

  lemma {:induction false} WrappedPrint(t: ColumnType)
    requires (t.Nullable? || t.Array? || t.LowCardinality?) && Print(Normal(t.inner)) == Print(t.inner)
    ensures Print(Normal(t)) == Print(t)
  {
    hide Applied;
  }

  lemma {:induction false} MapPrint(t: ColumnType)
    requires t.Map? && Print(Normal(t.key)) == Print(t.key) && Print(Normal(t.value)) == Print(t.value)
    ensures Print(Normal(t)) == Print(t)
  {
    hide Applied, Pair;
  }

  lemma {:induction false} GroupPrint(t: ColumnType)
    requires t.Tuple? || t.Variant?
    requires if t.Tuple? then PrintList(Normals(t.elems)) == PrintList(t.elems) else PrintList(Normals(t.types)) == PrintList(t.types)
    ensures Print(Normal(t)) == Print(t)
  {
    hide Applied, PrintList;
  }

  lemma {:induction false} LeafPrint(t: ColumnType)
    requires IsLeaf(t)
    ensures Print(Normal(t)) == Print(t)
  {
    hide Print;
    if IsBare(t) {
      BarePrint(t);
    } else {
      assert Normal(t) == t;
    }
  }

  lemma {:induction false} BarePrint(t: ColumnType)
    requires IsBare(t)
    ensures Print(Normal(t)) == Print(t)
  {
  }

  lemma {:induction false} PrintNormals(ts: seq<ColumnType>)
    ensures PrintList(Normals(ts)) == PrintList(ts)
    decreases ts, 0
  {
    hide Print, Normal, Pair;
    if ts != [] {
      PrintNormal(ts[0]);
      PrintNormals(ts[1..]);
      assert Normals(ts)[0] == Normal(ts[0]) && Normals(ts)[1..] == Normals(ts[1..]);
    }
  }

  lemma {:induction false} BareLegible(t: ColumnType)
    requires IsBare(t)
    ensures Legible(Normal(t))
  {
    hide ParseWord, Word, IsBare, Normal, Unknown, Tidy;
    BareIsWord(t);
    BareWords(t);
    WordTidy(t);
    WordUnpunctuated(t);
    WordUnknown(Word(t));
  }

  lemma {:induction false} WordUnknown(s: string)
    requires Tidy(s) && Unpunctuated(s) && ParseWord(s) == Ok(Other(s))
    ensures Unknown(s)
  {
    hide ParseWord, FormerOf, IsSpace;
    IndexMissing(s, '(');
  }

  lemma {:induction false} BareIsWord(t: ColumnType)
    requires IsBare(t)
    ensures IsWord(t) && !t.Other? && Legible(t) && Normal(t) == Other(Word(t))
  {
  }

  lemma {:induction false} NormalLegible(t: ColumnType)
    requires Legible(t)
    ensures Legible(Normal(t))
    decreases t, 1
  {
    hide Print, Closed, Unknown, Listed, Word;
    if t.Nullable? || t.Array? || t.LowCardinality? {
      NormalLegible(t.inner);
    } else if t.Map? {
      NormalLegible(t.key);
      NormalLegible(t.value);
      PrintNormal(t.key);
    } else if t.Tuple? {
      NormalsLegible(t.elems);
    } else if t.Variant? {
      NormalsLegible(t.types);
    } else if IsBare(t) {
      BareLegible(t);
    }
  }

  lemma {:induction false} NormalsLegible(ts: seq<ColumnType>)
    requires AllLegible(ts)
    ensures AllLegible(Normals(ts)) && (Listed(ts) ==> Listed(Normals(ts)))
    decreases ts, 0
  {
    hide Print, Closed, Uncut, Normal, Legible;
    if ts != [] {
      NormalLegible(ts[0]);
      PrintNormal(ts[0]);
      NormalsLegible(ts[1..]);
      assert Normals(ts)[0] == Normal(ts[0]) && Normals(ts)[1..] == Normals(ts[1..]);
    }
  }

  /** `inner` stands directly below the constructor of `t`. */
  predicate PartOf(t: ColumnType, inner: ColumnType)
  {
    if t.Nullable? || t.Array? || t.LowCardinality? then t.inner == inner
    else if t.Map? then t.key == inner || t.value == inner
    else t.Tuple? && exists i :: 0 <= i < |t.elems| && t.elems[i] == inner
  }

  /** The readers recurse by printing an inner type and parsing the name: the
      type they dispatch on below a compound type is the one that stands there. */
  lemma InnerDispatch(t: ColumnType, inner: ColumnType)
    requires ParseType(Print(t)) == Ok(t) && PartOf(t, inner)
    ensures ParseType(Print(inner)) == Ok(inner)
  {
    hide ParseType, Print, Legible, NoBareNames, Nesting, PartOf;
    PrintParseRoundTrip(t);
    PartSurvives(t, inner);
    PrintParseRoundTrip(inner);
  }

  lemma PartSurvives(t: ColumnType, inner: ColumnType)
    requires Legible(t) && NoBareNames(t) && PartOf(t, inner)
    ensures Legible(inner) && NoBareNames(inner) && Nesting(inner) <= Nesting(t)
  {
    hide Legible, NoBareNames, Nesting;
    if t.Tuple? {
      TuplePartSurvives(t, inner);
    } else if t.Map? {
      MapPartSurvives(t, inner);
    } else {
      WrappedPartSurvives(t, inner);
    }
  }

  lemma {:induction false} TuplePartSurvives(t: ColumnType, inner: ColumnType)
    requires t.Tuple? && Legible(t) && NoBareNames(t) && PartOf(t, inner)
    ensures Legible(inner) && NoBareNames(inner) && Nesting(inner) <= Nesting(t)
  {
    var i :| 0 <= i < |t.elems| && t.elems[i] == inner;
    MemberSurvives(t.elems, i);
  }

  lemma {:induction false} MapPartSurvives(t: ColumnType, inner: ColumnType)
    requires t.Map? && Legible(t) && NoBareNames(t) && PartOf(t, inner)
    ensures Legible(inner) && NoBareNames(inner) && Nesting(inner) <= Nesting(t)
  {
  }

  lemma {:induction false} WrappedPartSurvives(t: ColumnType, inner: ColumnType)
    requires (t.Nullable? || t.Array? || t.LowCardinality?) && Legible(t) && NoBareNames(t) && PartOf(t, inner)
    ensures Legible(inner) && NoBareNames(inner) && Nesting(inner) <= Nesting(t)
  {
  }

  lemma {:induction false} MemberSurvives(ts: seq<ColumnType>, i: nat)
    requires i < |ts| && AllLegible(ts) && AllNoBareNames(ts)
    ensures Legible(ts[i]) && NoBareNames(ts[i]) && Nesting(ts[i]) < ListNesting(ts)
  {
    hide Legible, NoBareNames, Nesting;
    if i > 0 {
      MemberSurvives(ts[1..], i - 1);
    }
  }
}
