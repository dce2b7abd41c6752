/** Every type the parser returns is legible, whatever text it was given: quotes,
    unbalanced parentheses and commas in unknown names included. */
module TypeReturned {
  import opened Bytes
  import opened ColumnTypes
  import opened TypeText
  import opened TypeNames

  // --------------------------------------------------------------------------
  // Levels of cut and trimmed text
  // --------------------------------------------------------------------------

  /** Parentheses opened less parentheses closed. */
  function Net(s: string): (n: int)
  {
    if s == "" then 0 else Depth(s[0], 0) + Net(s[1..])
  }

  lemma {:induction false} LevelNet(s: string, d: int)
    requires Level(s, d).Some?
    ensures Level(s, d) == Some(d + Net(s))
  {
    if s != "" {
      LevelNet(s[1..], Depth(s[0], d));
    }
  }

  lemma {:induction false} CommaCuts(s: string, d: int)
    requires CommaFrom(s, d).Some?
    ensures Level(s[..CommaFrom(s, d).value], d) == Some(0)
  {
    var i := CommaFrom(s, d).value;
    if i > 0 {
      CommaCuts(s[1..], Depth(s[0], d));
      assert s[..i][0] == s[0] && s[..i][1..] == s[1..][..i - 1];
    }
  }

  lemma {:induction false} NeverCut(s: string, d: int)
    requires CommaFrom(s, d).None?
    ensures Level(s, d).Some?
  {
    if s != "" {
      NeverCut(s[1..], Depth(s[0], d));
    }
  }

  lemma {:induction false} TrimStartLevel(s: string, d: int)
    ensures Level(TrimStart(s), d) == Level(s, d)
  {
    if s != "" && IsSpace(s[0]) {
      TrimStartLevel(s[1..], d);
    }
  }

  lemma {:induction false} TrimEndLevel(s: string, d: int)
    ensures Level(TrimEnd(s), d) == Level(s, d)
  {
    if s != "" && IsSpace(s[|s| - 1]) {
      var front, last := s[..|s| - 1], s[|s| - 1];
      TrimEndLevel(front, d);
      assert s == front + [last];
      LevelConcat(front, [last], d);
      if Level(front, d).Some? {
        SpaceLevel(last, Level(front, d).value);
      }
    }
  }

  lemma SpaceLevel(c: char, d: int)
    requires IsSpace(c)
    ensures Level([c], d) == Some(d)
  {
    assert [c][1..] == "";
  }

  lemma TrimLevel(s: string, d: int)
    ensures Level(Trim(s), d) == Level(s, d)
  {
    TrimStartLevel(s, d);
    TrimEndLevel(TrimStart(s), d);
  }

  lemma TrimmedTidy(s: string)
    requires Trim(s) != ""
    ensures Tidy(Trim(s))
  {
    var front := TrimStart(s);
    assert Trim(s)[0] == front[0];
  }

  // --------------------------------------------------------------------------
  // What the printed name keeps of the text
  // --------------------------------------------------------------------------

  /** Where the text has no comma at depth zero the printed name has none, and where
      the text closes what it opens so does the printed name. */
  predicate Keeps(text: string, printed: string, d: int)
  {
    && (Level(text, d).Some? ==> Level(printed, d).Some?)
    && (Level(text, d) == Some(d) ==> Level(printed, d) == Some(d))
  }

  lemma AppliedLevels(base: string, args: string, d: int)
    requires Unpunctuated(base)
    ensures var e := Level(args, d + 1);
            Level(Applied(base, args), d) == if e.Some? then Some(e.value - 1) else None
  {
    LevelPlain(base, d);
    LevelConcat(base + "(" + args, ")", d);
    LevelConcat(base + "(", args, d);
    LevelConcat(base, "(", d);
    assert Level("(", d) == Some(d + 1);
    assert forall e :: Level(")", e) == Some(e - 1);
  }

  lemma KeepsApplied(base: string, text: string, printed: string, d: int)
    requires Unpunctuated(base) && Keeps(text, printed, d + 1)
    ensures Keeps(Applied(base, text), Applied(base, printed), d)
  {
    hide Level, Applied;
    AppliedLevels(base, text, d);
    AppliedLevels(base, printed, d);
  }

  lemma KeepsTrimmed(text: string, printed: string, d: int)
    requires Keeps(Trim(text), printed, d)
    ensures Keeps(text, printed, d)
  {
    hide Level, Trim;
    TrimLevel(text, d);
  }

  /** Two parts with a comma between them. */
  lemma KeepsPair(a: string, b: string, pa: string, pb: string, d: int)
    requires d > 0 && Level(a, 0) == Some(0) && Keeps(a, pa, d) && Keeps(b, pb, d)
    ensures Keeps(a + "," + b, Pair(pa, pb), d)
  {
    hide Level, Pair, Net;
    LevelNet(a, 0);
    FirstPart(a, ",", b, d);
    if Level(a + "," + b, d).Some? {
      LevelNet(a, d);
      FirstPart(pa, ", ", pb, d);
      assert pa + ", " + pb == Pair(pa, pb) by { PairText(pa, pb); }
    }
  }

  lemma PairText(a: string, b: string)
    ensures Pair(a, b) == a + ", " + b
  {
  }

  lemma FirstPart(a: string, comma: string, b: string, d: int)
    requires d > 0 && (comma == "," || comma == ", ")
    ensures Level(a + comma + b, d).Some? ==> Level(a, d).Some?
    ensures Level(a, d) == Some(d) ==> Level(a + comma + b, d) == Level(b, d)
  {
    hide Level;
    LevelConcat(a + comma, b, d);
    LevelConcat(a, comma, d);
    CommaLevel(d);
  }

  lemma CommaLevel(d: int)
    requires d > 0
    ensures Level(",", d) == Some(d) && Level(", ", d) == Some(d)
  {
    assert ","[1..] == "" && ", "[1..] == " " && " "[1..] == "";
    assert Level("", d) == Some(d);
    assert Level(" ", d) == Some(d);
  }

  // --------------------------------------------------------------------------
  // Words and parameters
  // --------------------------------------------------------------------------

  /** What is said of a returned type. */
  predicate Good(t: ColumnType, text: string, depth: nat, d: int)
  {
    Legible(t) && depth + Nesting(t) <= MAX_TYPE_NESTING && Keeps(text, Print(t), d)
  }

  lemma {:induction false} LeafGood(t: ColumnType, text: string, depth: nat, d: nat)
    requires IsLeaf(t) && !t.Other? && depth <= MAX_TYPE_NESTING
    ensures Good(t, text, depth, d)
  {
    hide Level, Print;
    LeafLevel(t, d);
  }

  lemma UnknownGood(s: string, depth: nat, d: nat)
    requires Unknown(s) && depth <= MAX_TYPE_NESTING
    ensures Good(Other(s), s, depth, d)
  {
    hide Level, Unknown;
  }

  /** Without parts the depth does not matter. */
  lemma WordGood(s: string, depth: nat, d: nat)
    requires Tidy(s) && IndexOf(s, '(') == |s| && ParseWord(s).Ok? && depth <= MAX_TYPE_NESTING
    ensures Good(ParseWord(s).value, s, depth, d)
  {
    hide Good, ParseWord;
    if ParseWord(s) == Ok(Other(s)) {
      assert ParseTrimmed(s, 0) == ParseWord(s);
      UnknownGood(s, depth, d);
    } else {
      KnownWord(s);
      LeafGood(ParseWord(s).value, s, depth, d);
    }
  }

  lemma KnownWord(s: string)
    requires ParseWord(s).Ok? && ParseWord(s) != Ok(Other(s))
    ensures IsLeaf(ParseWord(s).value) && !ParseWord(s).value.Other?
  {
    hide NumberWord, OtherWord;
    NumberLeaf(s);
    OtherLeaf(s);
  }

  lemma NumberLeaf(s: string)
    ensures NumberWord(s).Some? ==> IsLeaf(NumberWord(s).value) && !NumberWord(s).value.Other?
  {
  }

  lemma OtherLeaf(s: string)
    ensures OtherWord(s).Some? ==> IsLeaf(OtherWord(s).value) && !OtherWord(s).value.Other?
  {
  }

  /** The base name of a compound former is the one printed. */
  function Compound(former: Former): (base: string)
  {
    match former
    case NullableF => "Nullable"
    case ArrayF => "Array"
    case LowCardinalityF => "LowCardinality"
    case MapF => "Map"
    case TupleF => "Tuple"
    case VariantF => "Variant"
    case _ => ""
  }

  lemma CompoundBase(base: string)
    ensures Compound(FormerOf(base)) != "" ==> base == Compound(FormerOf(base))
  {
    hide FormerOf;
    WrapperBase(base);
    GroupBase(base);
  }

  lemma WrapperBase(base: string)
    ensures FormerOf(base).NullableF? ==> base == "Nullable"
    ensures FormerOf(base).ArrayF? ==> base == "Array"
    ensures FormerOf(base).LowCardinalityF? ==> base == "LowCardinality"
  {
  }

  lemma GroupBase(base: string)
    ensures FormerOf(base).MapF? ==> base == "Map"
    ensures FormerOf(base).TupleF? ==> base == "Tuple"
    ensures FormerOf(base).VariantF? ==> base == "Variant"
  {
  }

  lemma CompoundText(former: Former)
    ensures Unpunctuated(Compound(former))
  {
  }

  lemma {:induction false} ParametersGood(former: Former, inner: string, s: string, depth: nat, d: nat)
    requires Compound(former) == "" && ParseApplied(former, inner, s, depth).Ok? && depth <= MAX_TYPE_NESTING
    requires former.UnknownF? ==> Unknown(s)
    ensures Good(ParseApplied(former, inner, s, depth).value, s, depth, d)
  {
    hide Good, Unknown, NumberArg;
    if former.UnknownF? {
      UnknownGood(s, depth, d);
    } else {
      ParameterLeaf(former, inner, s, depth);
      LeafGood(ParseApplied(former, inner, s, depth).value, s, depth, d);
    }
  }

  lemma {:induction false} ParameterLeaf(former: Former, inner: string, s: string, depth: nat)
    requires Compound(former) == "" && !former.UnknownF? && ParseApplied(former, inner, s, depth).Ok?
    ensures var t := ParseApplied(former, inner, s, depth).value; IsLeaf(t) && !t.Other?
  {
    hide NumberArg;
  }

  // --------------------------------------------------------------------------
  // Every returned type
  // --------------------------------------------------------------------------

  lemma {:induction false} Returned(text: string, depth: nat, d: nat)
    requires ParseRec(text, depth).Ok?
    ensures Good(ParseRec(text, depth).value, text, depth, d)
    decreases |text|, 3
  {
    hide Level, Legible, Nesting, ParseTrimmed, Trim, Keeps, Tidy;
    NothingRefused(depth);
    TrimmedTidy(text);
    ReturnedTrimmed(Trim(text), depth, d);
    var t := ParseRec(text, depth).value;
    KeepsTrimmed(text, Print(t), d);
  }

  lemma NothingRefused(depth: nat)
    ensures ParseTrimmed("", depth).Err?
  {
  }

  lemma {:induction false} ReturnedTrimmed(s: string, depth: nat, d: nat)
    requires ParseTrimmed(s, depth).Ok? && depth <= MAX_TYPE_NESTING && Tidy(s)
    ensures Good(ParseTrimmed(s, depth).value, s, depth, d)
    decreases |s|, 2
  {
    hide Good, ParseWord, ParseApplied, FormerOf, Trim, Compound, Tidy;
    var paren := IndexOf(s, '(');
    if paren == |s| {
      WordGood(s, depth, d);
    } else {
      var base, raw := s[..paren], s[paren + 1..|s| - 1];
      CompoundBase(base);
      if Compound(FormerOf(base)) == "" {
        UnknownApplied(s);
        ParametersGood(FormerOf(base), Trim(raw), s, depth, d);
      } else {
        assert s == Applied(base, raw);
        CompoundGood(FormerOf(base), raw, s, depth, d);
      }
    }
  }

  lemma UnknownApplied(s: string)
    requires Tidy(s) && 0 < IndexOf(s, '(') < |s| && s[|s| - 1] == ')'
    ensures FormerOf(s[..IndexOf(s, '(')]).UnknownF? ==> Unknown(s)
  {
    hide FormerOf, Trim, IndexOf, ParseTrimmed, ParseApplied, Tidy;
    var paren := IndexOf(s, '(');
    AppliedStep(s, 0);
    UnknownParse(Trim(s[paren + 1..|s| - 1]), s, 0);
  }

  lemma {:induction false} CompoundGood(former: Former, raw: string, s: string, depth: nat, d: nat)
    requires Compound(former) != "" && s == Applied(Compound(former), raw) && depth <= MAX_TYPE_NESTING
    requires ParseApplied(former, Trim(raw), s, depth).Ok?
    ensures Good(ParseApplied(former, Trim(raw), s, depth).value, s, depth, d)
    decreases |raw|, 6
  {
    hide Good, ParseApplied, Trim, Compound;
    if former.NullableF? || former.ArrayF? || former.LowCardinalityF? {
      WrappedGood(former, raw, s, depth, d);
    } else if former.MapF? {
      MapGood(raw, s, depth, d);
    } else {
      CompoundKinds(former);
      GroupGood(former, raw, s, depth, d);
    }
  }

  lemma CompoundKinds(former: Former)
    requires Compound(former) != ""
    ensures former.NullableF? || former.ArrayF? || former.LowCardinalityF? || former.MapF? || former.TupleF? || former.VariantF?
  {
  }

  function Wrapper(former: Former, inner: ColumnType): (t: ColumnType)
  {
    if former.NullableF? then Nullable(inner) else if former.ArrayF? then Array(inner) else LowCardinality(inner)
  }

  lemma {:induction false} WrapperFacts(former: Former, inner: ColumnType)
    requires former.NullableF? || former.ArrayF? || former.LowCardinalityF?
    ensures var t := Wrapper(former, inner);
            && Print(t) == Applied(Compound(former), Print(inner)) && Nesting(t) == 1 + Nesting(inner)
            && Legible(t) == Legible(inner)
  {
    hide Applied, Print;
    WrapperPrints(former, inner);
  }

  lemma {:induction false} WrapperPrints(former: Former, inner: ColumnType)
    requires former.NullableF? || former.ArrayF? || former.LowCardinalityF?
    ensures Print(Wrapper(former, inner)) == Applied(Compound(former), Print(inner))
  {
    hide Applied;
  }

  lemma WrappedParse(former: Former, inner: string, s: string, depth: nat)
    requires (former.NullableF? || former.ArrayF? || former.LowCardinalityF?) && ParseApplied(former, inner, s, depth).Ok?
    ensures ParseRec(inner, depth + 1).Ok?
    ensures ParseApplied(former, inner, s, depth) == Ok(Wrapper(former, ParseRec(inner, depth + 1).value))
  {
    hide ParseRec;
  }

  lemma {:induction false} WrappedGood(former: Former, raw: string, s: string, depth: nat, d: nat)
    requires former.NullableF? || former.ArrayF? || former.LowCardinalityF?
    requires s == Applied(Compound(former), raw) && depth <= MAX_TYPE_NESTING
    requires ParseApplied(former, Trim(raw), s, depth).Ok?
    ensures Good(ParseApplied(former, Trim(raw), s, depth).value, s, depth, d)
    decreases |raw|, 5
  {
    hide Level, Trim, Keeps, ParseApplied, ParseRec, Unpunctuated, Compound, Applied, Legible, Nesting, Print;
    WrappedParse(former, Trim(raw), s, depth);
    var inner := ParseRec(Trim(raw), depth + 1).value;
    WrapperFacts(former, inner);
    Returned(Trim(raw), depth + 1, d + 1);
    KeepsTrimmed(raw, Print(inner), d + 1);
    CompoundText(former);
    KeepsApplied(Compound(former), raw, Print(inner), d);
  }

  lemma {:induction false} MapFacts(k: ColumnType, v: ColumnType)
    ensures var t := Map(k, v);
            && Print(t) == Applied(Compound(MapF), Pair(Print(k), Print(v)))
            && Nesting(t) == 1 + Max(Nesting(k), Nesting(v))
            && Legible(t) == (Legible(k) && Legible(v) && Closed(Print(k)))
  {
    hide Applied, Pair, Closed, Print, Legible, Nesting;
    MapPrints(k, v);
    MapLegible(k, v);
    MapNesting(k, v);
  }

  lemma {:induction false} MapLegible(k: ColumnType, v: ColumnType)
    ensures Legible(Map(k, v)) == (Legible(k) && Legible(v) && Closed(Print(k)))
  {
    hide Closed, Print;
  }

  lemma {:induction false} MapNesting(k: ColumnType, v: ColumnType)
    ensures Nesting(Map(k, v)) == 1 + Max(Nesting(k), Nesting(v))
  {
  }

  lemma {:induction false} MapPrints(k: ColumnType, v: ColumnType)
    ensures Print(Map(k, v)) == Applied(Compound(MapF), Pair(Print(k), Print(v)))
  {
    hide Applied, Pair;
  }

  lemma MapParse(inner: string, s: string, depth: nat)
    requires ParseApplied(MapF, inner, s, depth).Ok?
    ensures CommaFrom(inner, 0).Some?
    ensures var comma := CommaFrom(inner, 0).value;
            var k, v := ParseRec(inner[..comma], depth + 1), ParseRec(inner[comma + 1..], depth + 1);
            k.Ok? && v.Ok? && ParseApplied(MapF, inner, s, depth) == Ok(Map(k.value, v.value))
  {
    hide ParseRec, CommaFrom;
  }

  lemma {:induction false} MapGood(raw: string, s: string, depth: nat, d: nat)
    requires s == Applied(Compound(MapF), raw) && depth <= MAX_TYPE_NESTING
    requires ParseApplied(MapF, Trim(raw), s, depth).Ok?
    ensures Good(ParseApplied(MapF, Trim(raw), s, depth).value, s, depth, d)
    decreases |raw|, 5
  {
    hide Level, Trim, Keeps, ParseApplied, ParseRec, Unpunctuated, CommaFrom, Compound, Applied, Pair, Legible, Nesting, Print;
    hide Closed;
    var args := Trim(raw);
    MapParse(args, s, depth);
    var comma := CommaFrom(args, 0).value;
    var a, b := args[..comma], args[comma + 1..];
    var k, v := ParseRec(a, depth + 1).value, ParseRec(b, depth + 1).value;
    MapFacts(k, v);
    CommaCuts(args, 0);
    Returned(a, depth + 1, 0);
    Returned(a, depth + 1, d + 1);
    Returned(b, depth + 1, d + 1);
    assert args == a + "," + b;
    KeepsPair(a, b, Print(k), Print(v), d + 1);
    KeepsTrimmed(raw, Pair(Print(k), Print(v)), d + 1);
    CompoundText(MapF);
    KeepsApplied(Compound(MapF), raw, Pair(Print(k), Print(v)), d);
    KeptClosed(a, Print(k));
  }

  lemma KeptClosed(text: string, printed: string)
    requires Keeps(text, printed, 0)
    ensures Level(text, 0) == Some(0) ==> Closed(printed)
    ensures Level(text, 0).Some? ==> Uncut(printed)
  {
  }

  function Group(former: Former, ts: seq<ColumnType>): (t: ColumnType)
  {
    if former.TupleF? then Tuple(ts) else Variant(ts)
  }

  lemma {:induction false} GroupFacts(former: Former, ts: seq<ColumnType>)
    requires former.TupleF? || former.VariantF?
    ensures var t := Group(former, ts);
            && Print(t) == Applied(Compound(former), PrintList(ts)) && Nesting(t) == ListNesting(ts)
            && Legible(t) == (AllLegible(ts) && Listed(ts)) && ListNesting([]) == 0
  {
    hide Applied, Print, PrintList, AllLegible, Listed;
    GroupPrints(former, ts);
  }

  lemma {:induction false} GroupPrints(former: Former, ts: seq<ColumnType>)
    requires former.TupleF? || former.VariantF?
    ensures Print(Group(former, ts)) == Applied(Compound(former), PrintList(ts))
  {
    hide Applied, PrintList;
  }

  lemma GroupParse(former: Former, inner: string, s: string, depth: nat)
    requires (former.TupleF? || former.VariantF?) && ParseApplied(former, inner, s, depth).Ok?
    ensures ParseList(inner, depth + 1).Ok?
    ensures ParseApplied(former, inner, s, depth) == Ok(Group(former, ParseList(inner, depth + 1).value))
  {
    hide ParseList;
  }

  lemma {:induction false} GroupGood(former: Former, raw: string, s: string, depth: nat, d: nat)
    requires former.TupleF? || former.VariantF?
    requires s == Applied(Compound(former), raw) && depth <= MAX_TYPE_NESTING
    requires ParseApplied(former, Trim(raw), s, depth).Ok?
    ensures Good(ParseApplied(former, Trim(raw), s, depth).value, s, depth, d)
    decreases |raw|, 5
  {
    hide Level, Trim, Keeps, ParseApplied, ParseList, Unpunctuated, Compound, Applied, Legible, AllLegible, Listed;
    hide Nesting, ListNesting, Print, PrintList;
    GroupParse(former, Trim(raw), s, depth);
    var ts := ParseList(Trim(raw), depth + 1).value;
    GroupFacts(former, ts);
    ListGood(Trim(raw), depth + 1, d + 1);
    KeepsTrimmed(raw, PrintList(ts), d + 1);
    CompoundText(former);
    KeepsApplied(Compound(former), raw, PrintList(ts), d);
  }

  lemma {:induction false} ListGood(remaining: string, depth: nat, d: nat)
    requires d > 0 && ParseList(remaining, depth).Ok?
    ensures var ts := ParseList(remaining, depth).value;
            && AllLegible(ts) && Listed(ts) && Keeps(remaining, PrintList(ts), d)
            && (ts != [] ==> depth + ListNesting(ts) <= MAX_TYPE_NESTING + 1)
            && (ts == [] <==> remaining == "")
    decreases |remaining|, 4
  {
    hide Level, Keeps, ParseRec, ParseList, CommaFrom, Legible, Nesting, Print;
    if remaining == "" {
      NoList(depth, d);
    } else {
      ListStep(remaining, depth);
      match CommaFrom(remaining, 0)
      case None =>
        NeverCut(remaining, 0);
        Returned(remaining, depth, 0);
        Returned(remaining, depth, d);
        var t := ParseRec(remaining, depth).value;
        KeptClosed(remaining, Print(t));
        OneListed(t);
      case Some(comma) =>
        var a, b := remaining[..comma], remaining[comma + 1..];
        CommaCuts(remaining, 0);
        Returned(a, depth, 0);
        Returned(a, depth, d);
        ListGood(b, depth, d);
        var t, ts := ParseRec(a, depth).value, ParseList(b, depth).value;
        KeptClosed(a, Print(t));
        MoreListed(t, ts);
        assert remaining == a + "," + b;
        if ts == [] {
          OneListed(t);
          LastPart(a, Print(t), d);
        } else {
          KeepsPair(a, b, Print(t), PrintList(ts), d);
        }
    }
  }

  lemma NoList(depth: nat, d: int)
    ensures ParseList("", depth) == Ok([]) && Keeps("", PrintList([]), d)
  {
  }

  lemma {:induction false} OneListed(t: ColumnType)
    ensures PrintList([t]) == Print(t) && ListNesting([t]) == 1 + Nesting(t)
    ensures Legible(t) ==> AllLegible([t])
    ensures Uncut(Print(t)) ==> Listed([t])
    ensures Closed(Print(t)) ==> Uncut(Print(t))
  {
    assert [t][1..] == [];
  }

  lemma {:induction false} MoreListed(t: ColumnType, ts: seq<ColumnType>)
    ensures Legible(t) && AllLegible(ts) ==> AllLegible([t] + ts)
    ensures ts != [] && Closed(Print(t)) && Listed(ts) ==> Listed([t] + ts)
    ensures ts != [] ==> PrintList([t] + ts) == Pair(Print(t), PrintList(ts))
    ensures ListNesting([t] + ts) == Max(1 + Nesting(t), ListNesting(ts))
    ensures ts == [] ==> [t] + ts == [t]
  {
    assert ([t] + ts)[1..] == ts;
  }

  /** A comma at the end of the list. */
  lemma LastPart(a: string, printed: string, d: int)
    requires d > 0 && Level(a, 0) == Some(0) && Keeps(a, printed, d)
    ensures Keeps(a + "," + "", printed, d)
  {
    hide Level, Net;
    LevelNet(a, 0);
    FirstPart(a, ",", "", d);
    if Level(a + "," + "", d).Some? {
      LevelNet(a, d);
    }
  }

  /** What the parser makes of any text is legible and nests at most 256 deep. */
  lemma ReturnedIsLegible(text: string)
    requires ParseType(text).Ok?
    ensures Legible(ParseType(text).value) && Nesting(ParseType(text).value) <= MAX_TYPE_NESTING
  {
    hide ParseRec, Legible, Nesting, Keeps;
    Returned(text, 0, 0);
  }
}
