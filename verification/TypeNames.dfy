/** The text of type names: trimming, commas and parentheses, and which trees print as
    a name whose parts the parser finds again. */
module TypeNames {
  import opened Bytes
  import opened ColumnTypes
  import opened TypeText

  predicate IsNumber(t: ColumnType)
  {
    t in {UInt8, UInt16, UInt32, UInt64, UInt128, UInt256,
          Int8, Int16, Int32, Int64, Int128, Int256, Float32, Float64}
  }

  /** Levels of parentheses the parser goes through below the root. */
  function Nesting(t: ColumnType): (n: nat)
  {
    match t
    case Nullable(inner) => 1 + Nesting(inner)
    case Array(inner) => 1 + Nesting(inner)
    case LowCardinality(inner) => 1 + Nesting(inner)
    case Map(k, v) => 1 + Max(Nesting(k), Nesting(v))
    case Tuple(ts) => ListNesting(ts)
    case Variant(ts) => ListNesting(ts)
    case _ => 0
  }

  function ListNesting(ts: seq<ColumnType>): (n: nat)
  {
    if ts == [] then 0 else Max(1 + Nesting(ts[0]), ListNesting(ts[1..]))
  }

  function Max(a: nat, b: nat): (m: nat)
  {
    if a < b then b else a
  }

  /** No character the type grammar reserves. */
  predicate Unpunctuated(s: string)
  {
    '(' !in s && ')' !in s && ',' !in s
  }

  predicate Tidy(s: string)
  {
    s != "" && !IsSpace(s[0]) && !IsSpace(s[|s| - 1])
  }

  // --------------------------------------------------------------------------
  // Trimming, searching and counting parentheses in printed text
  // --------------------------------------------------------------------------

  lemma TrimTidy(s: string)
    requires Tidy(s)
    ensures Trim(s) == s && Trim(" " + s) == s
  {
    assert (" " + s)[1..] == s;
  }

  lemma {:induction false} IndexAfter(base: string, c: char, rest: string)
    requires c !in base
    ensures IndexOf(base + [c] + rest, c) == |base|
  {
    var s := base + [c] + rest;
    if base != "" {
      assert s[1..] == base[1..] + [c] + rest;
      IndexAfter(base[1..], c, rest);
      assert s[0] == base[0] && base[0] in base;
    }
  }

  lemma {:induction false} IndexMissing(s: string, c: char)
    requires c !in s
    ensures IndexOf(s, c) == |s|
  {
    if s != "" {
      IndexMissing(s[1..], c);
    }
  }

  function Depth(c: char, d: int): (e: int)
  {
    if c == '(' then d + 1 else if c == ')' then d - 1 else d
  }

  /** The parenthesis depth after `s`, unless a comma at depth zero is met. */
  function Level(s: string, d: int): (r: Option<int>)
  {
    if s == "" then Some(d)
    else if s[0] == ',' && d == 0 then None
    else Level(s[1..], Depth(s[0], d))
  }

  lemma {:induction false} LevelConcat(a: string, b: string, d: int)
    ensures Level(a + b, d) == if Level(a, d).Some? then Level(b, Level(a, d).value) else None
  {
    if a == "" {
      assert a + b == b;
    } else {
      assert (a + b)[1..] == a[1..] + b;
      LevelConcat(a[1..], b, Depth(a[0], d));
    }
  }

  lemma {:induction false} LevelPlain(s: string, d: int)
    requires Unpunctuated(s)
    ensures Level(s, d) == Some(d)
  {
    if s != "" {
      LevelPlain(s[1..], d);
    }
  }

  lemma {:induction false} CommaAfter(a: string, rest: string, d: int)
    requires Level(a, d) == Some(0)
    ensures CommaFrom(a + "," + rest, d) == Some(|a|)
  {
    var s := a + "," + rest;
    if a != "" {
      assert s[1..] == a[1..] + "," + rest && s[0] == a[0];
      CommaAfter(a[1..], rest, Depth(a[0], d));
    }
  }

  lemma {:induction false} NoComma(a: string, d: int)
    requires Level(a, d).Some?
    ensures CommaFrom(a, d) == None
  {
    if a != "" {
      NoComma(a[1..], Depth(a[0], d));
    }
  }

  lemma LevelApplied(base: string, args: string, d: nat)
    requires Unpunctuated(base) && Level(args, d + 1) == Some(d + 1)
    ensures Level(Applied(base, args), d) == Some(d)
  {
    LevelPlain(base, d);
    LevelConcat(base + "(" + args, ")", d);
    LevelConcat(base + "(", args, d);
    LevelConcat(base, "(", d);
    assert Level("(", d) == Some(d + 1) && Level(")", d + 1) == Some(d);
  }

  lemma LevelPair(a: string, b: string, d: int)
    requires d > 0 && Level(a, d) == Some(d) && Level(b, d) == Some(d)
    ensures Level(Pair(a, b), d) == Some(d)
  {
    LevelConcat(a + ", ", b, d);
    LevelConcat(a, ", ", d);
    assert ", "[1..] == " " && " "[1..] == "";
    assert Level(" ", d) == Some(d);
    assert Level(", ", d) == Some(d);
  }

  lemma {:induction false} NumberText(n: nat)
    ensures Unpunctuated(PrintNumber(n)) && Tidy(PrintNumber(n))
    ensures forall i :: 0 <= i < |PrintNumber(n)| ==> IsDigit(PrintNumber(n)[i])
    ensures DigitsValue(PrintNumber(n)) == n
  {
    var s := PrintNumber(n);
    if n >= 10 {
      NumberText(n / 10);
      assert s[..|s| - 1] == PrintNumber(n / 10);
    } else {
      assert s[..|s| - 1] == "";
    }
    assert forall c :: c in s ==> IsDigit(c);
  }

  lemma NumberParses(n: nat, limit: nat)
    requires n < limit
    ensures NumberArg(PrintNumber(n), limit) == Ok(n) && NumberArg(" " + PrintNumber(n), limit) == Ok(n)
  {
    NumberText(n);
    TrimTidy(PrintNumber(n));
  }

  // --------------------------------------------------------------------------
  // Legible trees
  // --------------------------------------------------------------------------

  /** The parser takes the name for an unknown type. */
  predicate Unknown(name: string)
  {
    Tidy(name) && ParseTrimmed(name, 0) == Ok(Other(name))
  }

  /** A name with a parenthesis goes by its base name. */
  lemma AppliedStep(s: string, d: nat)
    requires 0 < IndexOf(s, '(') < |s| && s[|s| - 1] == ')'
    ensures var paren := IndexOf(s, '(');
            ParseTrimmed(s, d) == ParseApplied(FormerOf(s[..paren]), Trim(s[paren + 1..|s| - 1]), s, d)
  {
    hide ParseApplied, FormerOf, Trim, IndexOf;
  }

  lemma UnknownParse(inner: string, s: string, d: nat)
    ensures ParseApplied(UnknownF, inner, s, d) == Ok(Other(s))
  {
  }

  /** A comma behind `s` is the first one outside parentheses. */
  predicate Closed(s: string)
  {
    Level(s, 0) == Some(0)
  }

  /** `s` has no comma outside parentheses. */
  predicate Uncut(s: string)
  {
    Level(s, 0).Some?
  }

  /** The parts of the printed name stand where the parser looks for them. Only unknown
      names can be in the way: they may hold any text. */
  predicate Legible(t: ColumnType)
    decreases t, 1
  {
    match t
    case Other(name) => Unknown(name)
    case Nullable(inner) => Legible(inner)
    case Array(inner) => Legible(inner)
    case LowCardinality(inner) => Legible(inner)
    case Map(k, v) => Legible(k) && Legible(v) && Closed(Print(k))
    case Tuple(ts) => AllLegible(ts) && Listed(ts)
    case Variant(ts) => AllLegible(ts) && Listed(ts)
    case _ => true
  }

  predicate AllLegible(ts: seq<ColumnType>)
    decreases ts, 0
  {
    ts != [] ==> Legible(ts[0]) && AllLegible(ts[1..])
  }

  predicate Listed(ts: seq<ColumnType>)
  {
    if ts == [] then true
    else if |ts| == 1 then Uncut(Print(ts[0]))
    else Closed(Print(ts[0])) && Listed(ts[1..])
  }

  // --------------------------------------------------------------------------
  // Printed names
  // --------------------------------------------------------------------------

  lemma WordTidy(t: ColumnType)
    requires IsWord(t) && Legible(t)
    ensures Tidy(Word(t))
  {
    hide ParseTrimmed;
    if IsNumber(t) {
      NumberWordTidy(t);
    } else if !t.Other? {
      PlainWordTidy(t);
    }
  }

  lemma NumberWordTidy(t: ColumnType)
    requires IsNumber(t)
    ensures Tidy(Word(t))
  {
  }

  lemma PlainWordTidy(t: ColumnType)
    requires IsWord(t) && !t.Other? && !IsNumber(t)
    ensures Tidy(Word(t))
  {
  }

  lemma NumberWordUnpunctuated(t: ColumnType)
    requires IsNumber(t)
    ensures Unpunctuated(Word(t))
  {
  }

  lemma OpenParenNotInWord(t: ColumnType)
    requires IsWord(t) && !t.Other? && !IsNumber(t)
    ensures '(' !in Word(t)
  {
  }

  lemma CloseParenNotInWord(t: ColumnType)
    requires IsWord(t) && !t.Other? && !IsNumber(t)
    ensures ')' !in Word(t)
  {
  }

  lemma CommaNotInWord(t: ColumnType)
    requires IsWord(t) && !t.Other? && !IsNumber(t)
    ensures ',' !in Word(t)
  {
  }

  lemma WordUnpunctuated(t: ColumnType)
    requires IsWord(t) && !t.Other?
    ensures Unpunctuated(Word(t))
  {
    hide Word;
    if IsNumber(t) {
      NumberWordUnpunctuated(t);
    } else {
      OpenParenNotInWord(t);
      CloseParenNotInWord(t);
      CommaNotInWord(t);
    }
  }

  lemma AppliedTidy(base: string, args: string)
    requires base != "" && !IsSpace(base[0])
    ensures Tidy(Applied(base, args))
  {
  }

  /** The parser's constructor for each parameterised type. */
  function FormerFor(t: ColumnType): (f: Former)
    requires !IsWord(t)
  {
    match t
    case FixedString(_) => FixedStringF
    case DateTime64(_) => DateTime64F
    case Time64(_) => Time64F
    case Decimal(_, _) => DecimalF
    case Nullable(_) => NullableF
    case Array(_) => ArrayF
    case LowCardinality(_) => LowCardinalityF
    case Map(_, _) => MapF
    case Tuple(_) => TupleF
    case Variant(_) => VariantF
  }

  lemma BaseTidy(t: ColumnType)
    requires !IsWord(t)
    ensures Tidy(Base(t))
  {
  }

  lemma BaseUnpunctuated(t: ColumnType)
    requires !IsWord(t)
    ensures Unpunctuated(Base(t))
  {
    hide Base;
    OpenParenNotInBase(t);
    CloseParenNotInBase(t);
    CommaNotInBase(t);
  }

  lemma OpenParenNotInBase(t: ColumnType)
    requires !IsWord(t)
    ensures '(' !in Base(t)
  {
  }

  lemma CloseParenNotInBase(t: ColumnType)
    requires !IsWord(t)
    ensures ')' !in Base(t)
  {
  }

  lemma CommaNotInBase(t: ColumnType)
    requires !IsWord(t)
    ensures ',' !in Base(t)
  {
  }

  lemma BaseText(t: ColumnType)
    requires !IsWord(t)
    ensures Tidy(Base(t)) && Unpunctuated(Base(t))
  {
    BaseTidy(t);
    BaseUnpunctuated(t);
  }

  lemma BaseFormer(t: ColumnType)
    requires !IsWord(t)
    ensures FormerOf(Base(t)) == FormerFor(t)
  {
  }

  lemma PrintTidy(t: ColumnType)
    requires Legible(t)
    ensures Tidy(Print(t))
  {
    if IsWord(t) {
      WordTidy(t);
    } else {
      BaseText(t);
      AppliedTidy(Base(t), Args(t));
    }
  }

  lemma {:induction false} ListTidy(ts: seq<ColumnType>)
    requires AllLegible(ts) && ts != []
    ensures Tidy(PrintList(ts))
  {
    PrintTidy(ts[0]);
    if |ts| > 1 {
      ListTidy(ts[1..]);
    }
  }

  // --------------------------------------------------------------------------
  // Balanced names
  // --------------------------------------------------------------------------

  predicate IsLeaf(t: ColumnType)
  {
    !(t.Nullable? || t.Array? || t.LowCardinality? || t.Map? || t.Tuple? || t.Variant?)
  }

  lemma NumberLevel(n: nat, d: int)
    ensures Level(PrintNumber(n), d) == Some(d)
  {
    NumberText(n);
    LevelPlain(PrintNumber(n), d);
  }

  /** The printed name of a known type without parts is balanced. */
  lemma LeafLevel(t: ColumnType, d: nat)
    requires IsLeaf(t) && !t.Other?
    ensures Level(Print(t), d) == Some(d)
  {
    hide Word, Level, PrintNumber, Base, Unpunctuated;
    if IsWord(t) {
      WordUnpunctuated(t);
      LevelPlain(Word(t), d);
    } else {
      ParameterLevel(t, d + 1);
      BaseText(t);
      LevelApplied(Base(t), Args(t), d);
    }
  }

  lemma ParameterLevel(t: ColumnType, d: nat)
    requires IsLeaf(t) && !IsWord(t) && d > 0
    ensures Level(Args(t), d) == Some(d)
  {
    hide Level, PrintNumber;
    if t.Decimal? {
      NumberLevel(t.precision, d);
      NumberLevel(t.scale, d);
      LevelPair(PrintNumber(t.precision), PrintNumber(t.scale), d);
    } else if t.FixedString? {
      NumberLevel(t.size, d);
    } else {
      NumberLevel(t.scale, d);
    }
  }

  /** Unknown names in the tree close what they open and hold no comma outside. */
  ghost predicate Balanced(t: ColumnType)
  {
    match t
    case Other(name) => Unknown(name) && forall d: nat :: Level(name, d) == Some(d)
    case Nullable(inner) => Balanced(inner)
    case Array(inner) => Balanced(inner)
    case LowCardinality(inner) => Balanced(inner)
    case Map(k, v) => Balanced(k) && Balanced(v)
    case Tuple(ts) => AllBalanced(ts)
    case Variant(ts) => AllBalanced(ts)
    case _ => true
  }

  ghost predicate AllBalanced(ts: seq<ColumnType>)
  {
    ts != [] ==> Balanced(ts[0]) && AllBalanced(ts[1..])
  }

  lemma {:induction false} PrintLevel(t: ColumnType, d: nat)
    requires Balanced(t)
    ensures Level(Print(t), d) == Some(d)
    decreases t, 1
  {
    hide Level, Args, Base, Unpunctuated, Unknown;
    if t.Other? {
      assert Print(t) == t.name;
    } else if IsLeaf(t) {
      LeafLevel(t, d);
    } else {
      ArgsLevel(t, d + 1);
      BaseText(t);
      LevelApplied(Base(t), Args(t), d);
    }
  }

  lemma {:induction false} ArgsLevel(t: ColumnType, d: nat)
    requires !IsLeaf(t) && Balanced(t) && d > 0
    ensures Level(Args(t), d) == Some(d)
    decreases t, 0
  {
    hide Level, Print, PrintList;
    if t.Map? {
      PrintLevel(t.key, d);
      PrintLevel(t.value, d);
      LevelPair(Print(t.key), Print(t.value), d);
    } else if t.Tuple? {
      ListLevel(t.elems, d);
    } else if t.Variant? {
      ListLevel(t.types, d);
    } else {
      PrintLevel(t.inner, d);
    }
  }

  lemma {:induction false} ListLevel(ts: seq<ColumnType>, d: nat)
    requires AllBalanced(ts) && d > 0
    ensures Level(PrintList(ts), d) == Some(d)
    decreases ts, 0
  {
    hide Level, Print, Balanced;
    if ts == [] {
      LevelPlain("", d);
    } else {
      PrintLevel(ts[0], d);
      if |ts| > 1 {
        ListLevel(ts[1..], d);
        LevelPair(Print(ts[0]), PrintList(ts[1..]), d);
      }
    }
  }

  /** Balanced names are in nobody's way. */
  lemma {:induction false} BalancedIsLegible(t: ColumnType)
    requires Balanced(t)
    ensures Legible(t)
    decreases t, 1
  {
    hide Level, Print;
    if t.Nullable? || t.Array? || t.LowCardinality? {
      BalancedIsLegible(t.inner);
    } else if t.Map? {
      BalancedIsLegible(t.key);
      BalancedIsLegible(t.value);
      PrintLevel(t.key, 0);
    } else if t.Tuple? {
      AllBalancedLegible(t.elems);
    } else if t.Variant? {
      AllBalancedLegible(t.types);
    }
  }

  lemma {:induction false} AllBalancedLegible(ts: seq<ColumnType>)
    requires AllBalanced(ts)
    ensures AllLegible(ts) && Listed(ts)
    decreases ts, 0
  {
    hide Level, Print, Balanced, Legible;
    if ts != [] {
      BalancedIsLegible(ts[0]);
      PrintLevel(ts[0], 0);
      AllBalancedLegible(ts[1..]);
    }
  }
}
