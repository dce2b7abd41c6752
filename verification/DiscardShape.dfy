/** The skipper and the discarder in one shape: a head that says how many rows the
    parts of a type have, the parts one after the other, and a tail. */
module DiscardShape {
  import opened Bytes
  import opened Limits
  import opened ColumnTypes
  import opened TypeText
  import opened TypeNames
  import opened TypeReturned
  import opened TypeRoundTrip
  import opened SkipSpec
  import opened StringColumn
  import SkipColumn
  import opened DiscardColumn

  // --------------------------------------------------------------------------
  // The parts of a type
  // --------------------------------------------------------------------------

  predicate Kidless(t: ColumnType)
  {
    !(t.Nullable? || t.Array? || t.Map? || t.Tuple? || t.LowCardinality? || t.Point? || IsAlias(t))
  }

  function Kids(t: ColumnType): (ts: seq<ColumnType>)
    requires !Kidless(t)
  {
    if t.Map? then [t.key, t.value]
    else if t.Tuple? then t.elems
    else if t.Point? then [Float64, Float64]
    else if IsAlias(t) then [Alias(t)]
    else [t.inner]
  }

  /** Every type of the list is smaller than the bound. */
  predicate Below(ts: seq<ColumnType>, bound: nat)
  {
    forall i :: 0 <= i < |ts| ==> TypeSize(ts[i]) < bound
  }

  lemma KidsBelow(t: ColumnType)
    requires !Kidless(t)
    ensures Below(Kids(t), TypeSize(t))
    ensures Streamable(t) ==> AllStreamable(Kids(t))
  {
    hide Streamable, AllStreamable;
    if t.Tuple? {
      assert Streamable(t) == AllStreamable(t.elems) by { TupleStreamable(t); }
      forall i | 0 <= i < |t.elems|
        ensures TypeSize(t.elems[i]) < TypeSize(t)
      {
        MemberSize(t.elems, i);
      }
    } else if t.Map? {
      PairStreamable(t);
    } else if t.Point? {
      NumbersStreamable();
    } else {
      SingleStreamable(t);
    }
  }

  lemma TupleStreamable(t: ColumnType)
    requires t.Tuple?
    ensures Streamable(t) == AllStreamable(t.elems)
  {
  }

  lemma PairStreamable(t: ColumnType)
    requires t.Map?
    ensures Streamable(t) ==> AllStreamable([t.key, t.value])
  {
    assert [t.key, t.value][1..] == [t.value] && [t.value][1..] == [];
  }

  lemma NumbersStreamable()
    ensures AllStreamable([Float64, Float64])
  {
    assert [Float64, Float64][1..] == [Float64] && [Float64][1..] == [];
  }

  lemma SingleStreamable(t: ColumnType)
    requires t.Nullable? || t.Array? || t.LowCardinality? || IsAlias(t)
    ensures Streamable(t) ==> AllStreamable(Kids(t))
  {
    assert Kids(t)[1..] == [];
    if IsAlias(t) {
      AliasDomain(t);
    }
  }

  // --------------------------------------------------------------------------
  // Both parsers
  // --------------------------------------------------------------------------

  /** The row count of the parts and the position of the first of them. */
  function Head(buf: seq<byte>, pos: nat, t: ColumnType, rows: nat): (r: Result<(nat, nat)>)
    requires pos <= |buf| && !Kidless(t)
    ensures r.Ok? ==> pos <= r.value.1 <= |buf|
  {
    if t.Nullable? then
      var p :- Advance(buf, pos, rows);
      Ok((rows, p))
    else if t.Array? || t.Map? then SkipOffsets(buf, pos, rows)
    else if t.LowCardinality? then
      var (_, keys, p) :- DictionaryHeader(buf, pos);
      Ok((keys, p))
    else Ok((rows, pos))
  }

  /** Behind the entries of a dictionary come the indexes. */
  function Tail(buf: seq<byte>, pos: nat, end: nat, t: ColumnType, rows: nat): (r: Result<nat>)
    requires pos <= |buf| && end <= |buf|
    ensures r.Ok? ==> end <= r.value <= |buf|
  {
    if t.LowCardinality? then
      var (width, _, _) :- DictionaryHeader(buf, pos);
      DictionaryIndexes(buf, end, width, rows)
    else Ok(end)
  }

  /** The skipper; `dict` below a dictionary, where states are missing. */
  function Walk(dict: bool, buf: seq<byte>, pos: nat, t: ColumnType, rows: nat): (r: Result<nat>)
    requires pos <= |buf| && Streamable(t)
    ensures r.Ok? ==> pos <= r.value <= |buf|
    decreases TypeSize(t)
  {
    if rows == 0 then Ok(pos)
    else if Kidless(t) then WalkLeaf(dict, buf, pos, t, rows)
    else
      KidsBelow(t);
      var (n, p) :- Head(buf, pos, t, rows);
      var q :- WalkList(dict || t.LowCardinality?, buf, p, Kids(t), n, TypeSize(t));
      Tail(buf, pos, q, t, rows)
  }

  function WalkLeaf(dict: bool, buf: seq<byte>, pos: nat, t: ColumnType, rows: nat): (r: Result<nat>)
    requires pos <= |buf| && Streamable(t) && Kidless(t)
    ensures r.Ok? ==> pos <= r.value <= |buf|
  {
    if t.JSON? then (if dict then Err(MissingState) else SkipJson(buf, pos, rows))
    else SkipLayout(buf, pos, LayoutOf(t), rows)
  }

  function WalkList(dict: bool, buf: seq<byte>, pos: nat, ts: seq<ColumnType>, rows: nat, ghost bound: nat): (r: Result<nat>)
    requires pos <= |buf| && AllStreamable(ts) && Below(ts, bound)
    ensures r.Ok? ==> pos <= r.value <= |buf|
    decreases bound, |ts|
  {
    if ts == [] then Ok(pos)
    else
      var p :- Walk(dict, buf, pos, ts[0], rows);
      WalkList(dict, buf, p, ts[1..], rows, bound)
  }

  /** The discarder; `named` below a constructor, where types go by their names. */
  function Toss(named: bool, buf: seq<byte>, pos: nat, t: ColumnType, rows: nat): (r: Result<nat>)
    requires pos <= |buf| && Streamable(t)
    ensures r.Ok? ==> pos <= r.value <= |buf|
    decreases TypeSize(t)
  {
    if rows == 0 then Ok(pos)
    else if Kidless(t) then TossLeaf(named, buf, pos, t, rows)
    else
      KidsBelow(t);
      var (n, p) :- Head(buf, pos, t, rows);
      var q :- TossList(buf, p, Kids(t), n, TypeSize(t));
      Tail(buf, pos, q, t, rows)
  }

  function TossLeaf(named: bool, buf: seq<byte>, pos: nat, t: ColumnType, rows: nat): (r: Result<nat>)
    requires pos <= |buf| && Streamable(t) && Kidless(t)
    ensures r.Ok? ==> pos <= r.value <= |buf|
  {
    if t.JSON? then SkipJson(buf, pos, rows)
    else if t.Other? || (named && IsBare(t)) then CappedStrings(buf, pos, rows, 0)
    else DiscardCells(buf, pos, LayoutOf(t), rows)
  }

  function TossList(buf: seq<byte>, pos: nat, ts: seq<ColumnType>, rows: nat, ghost bound: nat): (r: Result<nat>)
    requires pos <= |buf| && AllStreamable(ts) && Below(ts, bound)
    ensures r.Ok? ==> pos <= r.value <= |buf|
    decreases bound, |ts|
  {
    if ts == [] then Ok(pos)
    else
      var p :- Toss(true, buf, pos, ts[0], rows);
      TossList(buf, p, ts[1..], rows, bound)
  }

  // --------------------------------------------------------------------------
  // That is the skipper
  // --------------------------------------------------------------------------

  lemma WalkOne(dict: bool, buf: seq<byte>, pos: nat, t: ColumnType, rows: nat, bound: nat)
    requires pos <= |buf| && Streamable(t) && TypeSize(t) < bound
    ensures AllStreamable([t]) && WalkList(dict, buf, pos, [t], rows, bound) == Walk(dict, buf, pos, t, rows)
  {
    hide Walk, Streamable;
    assert [t][1..] == [];
  }

  lemma WalkTwo(dict: bool, buf: seq<byte>, pos: nat, t: ColumnType, u: ColumnType, rows: nat, bound: nat)
    requires pos <= |buf| && Streamable(t) && Streamable(u) && TypeSize(t) < bound && TypeSize(u) < bound
    ensures AllStreamable([t, u])
    ensures WalkList(dict, buf, pos, [t, u], rows, bound) ==
            var p := Walk(dict, buf, pos, t, rows);
            if p.Err? then p else Walk(dict, buf, p.value, u, rows)
  {
    hide Walk, Streamable;
    assert [t, u][1..] == [u];
    var p := Walk(dict, buf, pos, t, rows);
    WalkOne(dict, buf, if p.Ok? then p.value else pos, u, rows, bound);
  }

  /** What the skipper does with the type outside and inside a dictionary. */
  function Skip(dict: bool, buf: seq<byte>, pos: nat, t: ColumnType, rows: nat): (r: Result<nat>)
    requires pos <= |buf|
  {
    if dict then SkipBody(buf, pos, t, NoState, rows) else SkipData(buf, pos, t, rows)
  }

  lemma {:induction false} WalkIsSkip(dict: bool, buf: seq<byte>, pos: nat, t: ColumnType, rows: nat)
    requires pos <= |buf| && Streamable(t)
    ensures Walk(dict, buf, pos, t, rows) == Skip(dict, buf, pos, t, rows)
    decreases TypeSize(t), 2, 0
  {
    hide Walk, Skip;
    if rows == 0 || Kidless(t) {
      LeafIsSkipped(dict, buf, pos, t, rows);
    } else if t.Tuple? {
      TupleIsSkipped(dict, buf, pos, t, rows);
    } else if t.Map? {
      MapIsSkipped(dict, buf, pos, t, rows);
    } else if t.Point? {
      PointIsSkipped(dict, buf, pos, rows);
    } else if t.LowCardinality? {
      DictIsSkipped(dict, buf, pos, t, rows);
    } else if IsAlias(t) {
      AliasIsSkipped(dict, buf, pos, t, rows);
    } else {
      WrappedIsSkipped(dict, buf, pos, t, rows);
    }
  }

  lemma LeafIsSkipped(dict: bool, buf: seq<byte>, pos: nat, t: ColumnType, rows: nat)
    requires pos <= |buf| && Streamable(t) && (rows == 0 || Kidless(t))
    ensures Walk(dict, buf, pos, t, rows) == Skip(dict, buf, pos, t, rows)
  {
    hide SkipData, SkipBody, SkipLayout, LayoutOf, SkipJson;
    DataCases(buf, pos, t, rows);
    SkipColumn.BodyCases(buf, pos, t, NoState, rows);
  }

  lemma {:induction false} WrappedIsSkipped(dict: bool, buf: seq<byte>, pos: nat, t: ColumnType, rows: nat)
    requires pos <= |buf| && Streamable(t) && rows != 0 && (t.Nullable? || t.Array?)
    ensures Walk(dict, buf, pos, t, rows) == Skip(dict, buf, pos, t, rows)
    decreases TypeSize(t), 1, 0
  {
    hide SkipData, SkipBody, SkipOffsets, WalkList;
    DataCases(buf, pos, t, rows);
    SkipColumn.BodyCases(buf, pos, t, NoState, rows);
    KidsBelow(t);
    var h := Head(buf, pos, t, rows);
    if h.Ok? {
      WalkOne(dict, buf, h.value.1, t.inner, h.value.0, TypeSize(t));
      WalkIsSkip(dict, buf, h.value.1, t.inner, h.value.0);
    }
  }

  lemma {:induction false} DictIsSkipped(dict: bool, buf: seq<byte>, pos: nat, t: ColumnType, rows: nat)
    requires pos <= |buf| && Streamable(t) && rows != 0 && t.LowCardinality?
    ensures Walk(dict, buf, pos, t, rows) == Skip(dict, buf, pos, t, rows)
    decreases TypeSize(t), 1, 0
  {
    hide SkipData, SkipBody, DictionaryHeader, DictionaryIndexes, WalkList;
    DataCases(buf, pos, t, rows);
    SkipColumn.BodyCases(buf, pos, t, NoState, rows);
    KidsBelow(t);
    var h := Head(buf, pos, t, rows);
    if h.Ok? {
      WalkOne(true, buf, h.value.1, t.inner, h.value.0, TypeSize(t));
      WalkIsSkip(true, buf, h.value.1, t.inner, h.value.0);
    }
  }

  lemma {:induction false} AliasIsSkipped(dict: bool, buf: seq<byte>, pos: nat, t: ColumnType, rows: nat)
    requires pos <= |buf| && Streamable(t) && rows != 0 && IsAlias(t)
    ensures Walk(dict, buf, pos, t, rows) == Skip(dict, buf, pos, t, rows)
    decreases TypeSize(t), 1, 0
  {
    hide SkipData, SkipBody, Alias, Walk;
    DataCases(buf, pos, t, rows);
    SkipColumn.BodyCases(buf, pos, t, NoState, rows);
    AliasDomain(t);
    AliasWalked(dict, buf, pos, t, rows);
    WalkIsSkip(dict, buf, pos, Alias(t), rows);
  }

  lemma {:induction false} AliasWalked(dict: bool, buf: seq<byte>, pos: nat, t: ColumnType, rows: nat)
    requires pos <= |buf| && Streamable(t) && rows != 0 && IsAlias(t) && Streamable(Alias(t))
    ensures Walk(dict, buf, pos, t, rows) == Walk(dict, buf, pos, Alias(t), rows)
  {
    hide Alias, WalkList;
    KidsBelow(t);
    WalkOne(dict, buf, pos, Alias(t), rows, TypeSize(t));
  }

  lemma {:induction false} TupleIsSkipped(dict: bool, buf: seq<byte>, pos: nat, t: ColumnType, rows: nat)
    requires pos <= |buf| && Streamable(t) && rows != 0 && t.Tuple?
    ensures Walk(dict, buf, pos, t, rows) == Skip(dict, buf, pos, t, rows)
    decreases TypeSize(t), 1, 0
  {
    hide SkipData, SkipBody, WalkList, SkipElems, SkipDataElems;
    DataCases(buf, pos, t, rows);
    SkipColumn.BodyCases(buf, pos, t, NoState, rows);
    KidsBelow(t);
    ElemsAreSkipped(dict, buf, pos, t.elems, rows, TypeSize(t));
  }

  lemma {:induction false} ElemsAreSkipped(dict: bool, buf: seq<byte>, pos: nat, ts: seq<ColumnType>, rows: nat, bound: nat)
    requires pos <= |buf| && AllStreamable(ts) && Below(ts, bound)
    ensures WalkList(dict, buf, pos, ts, rows, bound)
         == if dict then SkipElems(buf, pos, ts, [], rows) else SkipDataElems(buf, pos, ts, rows)
    decreases bound, 0, |ts|
  {
    hide Walk, SkipData, SkipBody;
    if ts != [] {
      WalkIsSkip(dict, buf, pos, ts[0], rows);
      var p := Walk(dict, buf, pos, ts[0], rows);
      if p.Ok? { ElemsAreSkipped(dict, buf, p.value, ts[1..], rows, bound); }
    }
  }

  lemma {:induction false} MapIsSkipped(dict: bool, buf: seq<byte>, pos: nat, t: ColumnType, rows: nat)
    requires pos <= |buf| && t.Map? && Streamable(t) && rows != 0
    ensures Walk(dict, buf, pos, t, rows) == Skip(dict, buf, pos, t, rows)
    decreases TypeSize(t), 1, 0
  {
    hide WalkList, SkipData, SkipBody, SkipOffsets, AllStreamable;
    DataCases(buf, pos, t, rows);
    SkipColumn.BodyCases(buf, pos, t, NoState, rows);
    KidsBelow(t);
    var h := SkipOffsets(buf, pos, rows);
    if h.Ok? {
      var (n, p) := h.value;
      WalkTwo(dict, buf, p, t.key, t.value, n, TypeSize(t));
      WalkIsSkip(dict, buf, p, t.key, n);
      var q := Walk(dict, buf, p, t.key, n);
      if q.Ok? { WalkIsSkip(dict, buf, q.value, t.value, n); }
    }
  }

  lemma PointIsSkipped(dict: bool, buf: seq<byte>, pos: nat, rows: nat)
    requires pos <= |buf| && rows != 0
    ensures Walk(dict, buf, pos, Point, rows) == Skip(dict, buf, pos, Point, rows)
  {
    hide WalkList, SkipLayout, SkipData, SkipBody;
    DataCases(buf, pos, Point, rows);
    SkipColumn.BodyCases(buf, pos, Point, NoState, rows);
    KidsBelow(Point);
    WalkTwo(dict, buf, pos, Float64, Float64, rows, TypeSize(Point));
  }

  // --------------------------------------------------------------------------
  // That is the discarder
  // --------------------------------------------------------------------------

  /** Legible, without Variant and Dynamic, and no deeper than the parser goes. */
  predicate Parsed(t: ColumnType)
  {
    Domain(t) && Nesting(t) <= MAX_TYPE_NESTING
  }

  /** Every type the parser can have returned, if it has no Variant or Dynamic part. */
  lemma ReturnedIsParsed(text: string)
    requires ParseType(text).Ok? && Streamable(ParseType(text).value)
    ensures Parsed(ParseType(text).value)
  {
    hide ParseRec, Legible, Nesting, Streamable;
    ReturnedIsLegible(text);
  }

  lemma {:induction false} NormalTwice(t: ColumnType)
    ensures Normal(Normal(t)) == Normal(t) && Nesting(Normal(t)) == Nesting(t)
    decreases t, 1
  {
    hide Normal, Nesting;
    NormalCases(t);
    NormalCases(Normal(t));
    if t.Nullable? || t.Array? || t.LowCardinality? {
      NormalTwice(t.inner);
    } else if t.Map? {
      NormalTwice(t.key);
      NormalTwice(t.value);
    } else if t.Tuple? {
      NormalsTwice(t.elems);
    } else if t.Variant? {
      NormalsTwice(t.types);
    }
  }

  /** One level of both. */
  lemma NormalCases(t: ColumnType)
    ensures t.Nullable? ==> Normal(t) == Nullable(Normal(t.inner)) && Nesting(t) == 1 + Nesting(t.inner)
    ensures t.Array? ==> Normal(t) == Array(Normal(t.inner)) && Nesting(t) == 1 + Nesting(t.inner)
    ensures t.LowCardinality? ==> Normal(t) == LowCardinality(Normal(t.inner)) && Nesting(t) == 1 + Nesting(t.inner)
    ensures t.Map? ==> Normal(t) == Map(Normal(t.key), Normal(t.value))
    ensures t.Map? ==> Nesting(t) == 1 + Max(Nesting(t.key), Nesting(t.value))
    ensures t.Tuple? ==> Normal(t) == Tuple(Normals(t.elems)) && Nesting(t) == ListNesting(t.elems)
    ensures t.Variant? ==> Normal(t) == Variant(Normals(t.types)) && Nesting(t) == ListNesting(t.types)
    ensures IsBare(t) ==> Normal(t).Other? && Nesting(t) == 0
    ensures !(t.Nullable? || t.Array? || t.LowCardinality? || t.Map? || t.Tuple? || t.Variant?) && !IsBare(t) ==>
              Normal(t) == t && Nesting(t) == 0
  {
    hide Normal, Nesting;
    if t.Nullable? || t.Array? || t.LowCardinality? {
      WrappedCases(t);
    } else if t.Map? || t.Tuple? || t.Variant? {
      GroupCases(t);
    } else {
      LeafCases(t);
    }
  }

  lemma {:induction false} WrappedCases(t: ColumnType)
    requires t.Nullable? || t.Array? || t.LowCardinality?
    ensures Nesting(t) == 1 + Nesting(t.inner)
    ensures t.Nullable? ==> Normal(t) == Nullable(Normal(t.inner))
    ensures t.Array? ==> Normal(t) == Array(Normal(t.inner))
    ensures t.LowCardinality? ==> Normal(t) == LowCardinality(Normal(t.inner))
  {
  }

  lemma {:induction false} GroupCases(t: ColumnType)
    requires t.Map? || t.Tuple? || t.Variant?
    ensures t.Map? ==> Normal(t) == Map(Normal(t.key), Normal(t.value))
    ensures t.Map? ==> Nesting(t) == 1 + Max(Nesting(t.key), Nesting(t.value))
    ensures t.Tuple? ==> Normal(t) == Tuple(Normals(t.elems)) && Nesting(t) == ListNesting(t.elems)
    ensures t.Variant? ==> Normal(t) == Variant(Normals(t.types)) && Nesting(t) == ListNesting(t.types)
  {
  }

  lemma {:induction false} LeafCases(t: ColumnType)
    requires !(t.Nullable? || t.Array? || t.LowCardinality? || t.Map? || t.Tuple? || t.Variant?)
    ensures Nesting(t) == 0 && (if IsBare(t) then Normal(t).Other? else Normal(t) == t)
  {
  }

  lemma {:induction false} NormalsTwice(ts: seq<ColumnType>)
    ensures Normals(Normals(ts)) == Normals(ts) && ListNesting(Normals(ts)) == ListNesting(ts)
    decreases ts, 0
  {
    if ts != [] {
      NormalTwice(ts[0]);
      NormalsTwice(ts[1..]);
      assert Normals(ts)[1..] == Normals(ts[1..]);
    }
  }

  /** The discarder cannot tell a type from what its name is read back as. */
  lemma {:induction false} TossNormal(buf: seq<byte>, pos: nat, t: ColumnType, rows: nat)
    requires pos <= |buf| && Domain(t)
    ensures Domain(Normal(t)) && Toss(true, buf, pos, Normal(t), rows) == Toss(true, buf, pos, t, rows)
    decreases TypeSize(t), 2, 0
  {
    hide Toss, Domain;
    NormalDomain(t);
    if rows == 0 || Kidless(t) || t.Point? || IsAlias(t) {
      TossNormalLeaf(buf, pos, t, rows);
    } else {
      TossNormalNode(buf, pos, t, rows);
    }
  }

  lemma TossNormalLeaf(buf: seq<byte>, pos: nat, t: ColumnType, rows: nat)
    requires pos <= |buf| && Domain(t) && Domain(Normal(t)) && (rows == 0 || Kidless(t) || t.Point? || IsAlias(t))
    ensures Toss(true, buf, pos, Normal(t), rows) == Toss(true, buf, pos, t, rows)
  {
    hide Toss, Normal, AllStreamable;
    if rows == 0 {
      NothingTossed(buf, pos, t);
      NothingTossed(buf, pos, Normal(t));
    } else if IsBare(t) {
      BareIsOther(t);
      BareTossed(buf, pos, t, rows);
      BareTossed(buf, pos, Normal(t), rows);
    } else {
      LeafIsNormal(t);
    }
  }

  lemma BareTossed(buf: seq<byte>, pos: nat, t: ColumnType, rows: nat)
    requires pos <= |buf| && (IsBare(t) || t.Other?) && rows != 0
    ensures Streamable(t) && Toss(true, buf, pos, t, rows) == CappedStrings(buf, pos, rows, 0)
  {
    hide CappedStrings, TossLeaf, TossList, Head, Tail, Kids;
    BareLeaf(t);
    BareLeafTossed(buf, pos, t, rows);
  }

  lemma BareLeaf(t: ColumnType)
    requires IsBare(t) || t.Other?
    ensures Streamable(t) && Kidless(t)
  {
  }

  lemma BareLeafTossed(buf: seq<byte>, pos: nat, t: ColumnType, rows: nat)
    requires pos <= |buf| && (IsBare(t) || t.Other?) && Streamable(t) && Kidless(t)
    ensures TossLeaf(true, buf, pos, t, rows) == CappedStrings(buf, pos, rows, 0)
  {
    hide CappedStrings, DiscardCells, LayoutOf, SkipJson;
  }

  lemma {:induction false} TossNormalNode(buf: seq<byte>, pos: nat, t: ColumnType, rows: nat)
    requires pos <= |buf| && Domain(t) && Domain(Normal(t)) && rows != 0
    requires t.Nullable? || t.Array? || t.Map? || t.Tuple? || t.LowCardinality?
    ensures Toss(true, buf, pos, Normal(t), rows) == Toss(true, buf, pos, t, rows)
    decreases TypeSize(t), 1, 0
  {
    hide TossList, SkipOffsets, DictionaryHeader, DictionaryIndexes, Normal, Kids, AllDomain, Domain;
    NormalDomain(t);
    NormalKids(t);
    KidsBelow(t);
    KidsBelow(Normal(t));
    KidsDomain(t);
    KidsDomain(Normal(t));
    var h := Head(buf, pos, t, rows);
    assert Head(buf, pos, Normal(t), rows) == h;
    if h.Ok? { TossNormals(buf, h.value.1, Kids(t), h.value.0, TypeSize(t)); }
  }

  lemma {:induction false} NormalKids(t: ColumnType)
    requires t.Nullable? || t.Array? || t.Map? || t.Tuple? || t.LowCardinality?
    ensures !Kidless(Normal(t)) && Kids(Normal(t)) == Normals(Kids(t))
    ensures Normal(t).LowCardinality? == t.LowCardinality? && Normal(t).Nullable? == t.Nullable?
    ensures Normal(t).Array? == t.Array? && Normal(t).Map? == t.Map? && Normal(t).Tuple? == t.Tuple?
  {
    if t.Map? {
      PairNormals(t.key, t.value);
    } else if !t.Tuple? {
      assert [t.inner][1..] == [];
    }
  }

  lemma PairNormals(k: ColumnType, v: ColumnType)
    ensures Normals([k, v]) == [Normal(k), Normal(v)]
  {
    hide Normal;
    assert [k, v][1..] == [v] && [v][1..] == [];
    assert Normals([v]) == [Normal(v)] + Normals([]);
  }

  lemma PairDomain(k: ColumnType, v: ColumnType)
    requires Domain(k) && Domain(v)
    ensures AllDomain([k, v])
  {
    hide Streamable, Legible;
    assert [k, v][1..] == [v] && [v][1..] == [];
    assert AllStreamable([v]) && AllLegible([v]);
  }

  lemma KidsDomain(t: ColumnType)
    requires Domain(t) && !Kidless(t)
    ensures AllDomain(Kids(t))
  {
    hide Domain, AllDomain;
    if t.Map? {
      MapDomain(t);
      PairDomain(t.key, t.value);
    } else if t.Point? {
      FloatDomain();
      PairDomain(Float64, Float64);
    } else if IsAlias(t) {
      AliasDomain(t);
      OneDomain(Alias(t));
    } else if t.Tuple? {
      TupleDomain(t);
    } else {
      WrappedDomain(t);
      OneDomain(t.inner);
    }
  }

  lemma {:induction false} MapDomain(t: ColumnType)
    requires t.Map? && Domain(t)
    ensures Domain(t.key) && Domain(t.value)
  {
  }

  lemma {:induction false} TupleDomain(t: ColumnType)
    requires t.Tuple? && Domain(t)
    ensures AllDomain(t.elems)
  {
  }

  lemma {:induction false} WrappedDomain(t: ColumnType)
    requires (t.Nullable? || t.Array? || t.LowCardinality?) && Domain(t)
    ensures Domain(t.inner)
  {
  }

  lemma FloatDomain()
    ensures Domain(Float64)
  {
  }

  lemma OneDomain(t: ColumnType)
    requires Domain(t)
    ensures AllDomain([t])
  {
    hide Streamable, Legible;
    assert [t][0] == t && [t][1..] == [];
    assert AllStreamable([]) && AllLegible([]);
    assert AllStreamable([t]) && AllLegible([t]);
  }

  lemma {:induction false} TossNormals(buf: seq<byte>, pos: nat, ts: seq<ColumnType>, rows: nat, bound: nat)
    requires pos <= |buf| && AllDomain(ts) && Below(ts, bound) && AllDomain(Normals(ts)) && Below(Normals(ts), bound)
    ensures TossList(buf, pos, Normals(ts), rows, bound) == TossList(buf, pos, ts, rows, bound)
    decreases bound, 0, |ts|
  {
    hide Toss, Streamable, Legible, Normal;
    if ts != [] {
      TossNormal(buf, pos, ts[0], rows);
      assert Normals(ts)[1..] == Normals(ts[1..]) && Normals(ts)[0] == Normal(ts[0]);
      var p := Toss(true, buf, pos, ts[0], rows);
      if p.Ok? { TossNormals(buf, p.value, ts[1..], rows, bound); }
    }
  }

  lemma KidsParsed(t: ColumnType)
    requires Parsed(t) && !Kidless(t)
    ensures AllDomain(Kids(t)) && forall i :: 0 <= i < |Kids(t)| ==> Parsed(Kids(t)[i])
  {
    hide Domain, AllDomain, Nesting, Kids;
    KidsDomain(t);
    forall i | 0 <= i < |Kids(t)|
      ensures Parsed(Kids(t)[i])
    {
      MemberDomain(Kids(t), i);
      KidNesting(t, i);
    }
  }

  /** No part nests deeper than the whole, or than a geo alias may. */
  lemma {:induction false} KidNesting(t: ColumnType, i: nat)
    requires !Kidless(t) && i < |Kids(t)|
    ensures Nesting(Kids(t)[i]) <= Max(Nesting(t), 1)
  {
    hide Nesting, ListNesting, Max;
    MaxBounds(Nesting(t), 1);
    if t.Tuple? {
      MemberNesting(t.elems, i);
      GroupCases(t);
    } else if t.Map? {
      MaxBounds(Nesting(t.key), Nesting(t.value));
      GroupCases(t);
    } else if t.Point? {
      LeafCases(Float64);
    } else if IsAlias(t) {
      AliasStateless(t);
    } else {
      WrappedCases(t);
    }
  }

  lemma MaxBounds(a: nat, b: nat)
    ensures a <= Max(a, b) && b <= Max(a, b)
  {
  }

  lemma {:induction false} MemberDomain(ts: seq<ColumnType>, i: nat)
    requires AllDomain(ts) && i < |ts|
    ensures Domain(ts[i])
  {
    if i > 0 {
      MemberDomain(ts[1..], i - 1);
    }
  }

  lemma {:induction false} MemberNesting(ts: seq<ColumnType>, i: nat)
    requires i < |ts|
    ensures Nesting(ts[i]) < ListNesting(ts)
  {
    if i > 0 {
      MemberNesting(ts[1..], i - 1);
    }
  }

  /** Below a constructor. */
  lemma {:induction false} NamedIsToss(buf: seq<byte>, pos: nat, t: ColumnType, rows: nat)
    requires pos <= |buf| && Parsed(t)
    ensures DiscardNamed(buf, pos, t, rows) == Toss(true, buf, pos, t, rows)
    decreases TypeSize(t), 2, 0
  {
    hide Discard, Toss, Domain;
    if rows == 0 {
      NothingTossed(buf, pos, t);
    } else {
      NormalDomain(t);
      NormalTwice(t);
      assert Reread(t) == Ok(Normal(t));
      if Kidless(t) {
        NamedLeaf(buf, pos, t, rows);
      } else {
        NormalKidless(t);
        NodeIsToss(true, buf, pos, Normal(t), rows);
        TossNormal(buf, pos, t, rows);
      }
    }
  }

  lemma NormalKidless(t: ColumnType)
    requires !Kidless(t)
    ensures !Kidless(Normal(t))
  {
  }

  lemma NothingTossed(buf: seq<byte>, pos: nat, t: ColumnType)
    requires pos <= |buf| && Domain(t)
    ensures Toss(true, buf, pos, t, 0) == Ok(pos)
  {
  }

  lemma NamedLeaf(buf: seq<byte>, pos: nat, t: ColumnType, rows: nat)
    requires pos <= |buf| && Domain(t) && Domain(Normal(t)) && Kidless(t) && rows != 0
    ensures Discard(buf, pos, Normal(t), rows) == Toss(true, buf, pos, t, rows)
  {
    hide CappedStrings, DiscardCells, LayoutOf, SkipJson;
    if IsBare(t) {
      BareIsOther(t);
    } else {
      LeafIsNormal(t);
    }
  }

  /** The parts of a type go by name. */
  lemma {:induction false} NodeIsToss(named: bool, buf: seq<byte>, pos: nat, t: ColumnType, rows: nat)
    requires pos <= |buf| && Parsed(t) && !Kidless(t) && rows != 0
    ensures Discard(buf, pos, t, rows) == Toss(named, buf, pos, t, rows)
    decreases TypeSize(t), 1, 0
  {
    hide TossList, Head, Tail, Discard, DiscardElems, Parsed, Domain, AllDomain, Kidless, Kids, Streamable, AllStreamable, TossLeaf;
    KidsBelow(t);
    KidsParsed(t);
    NodeParts(buf, pos, t, rows);
    var h := Head(buf, pos, t, rows);
    if h.Ok? { PartsTossed(buf, h.value.1, Kids(t), h.value.0, TypeSize(t)); }
  }

  /** The discarder in the same shape. */
  ghost predicate Shaped(buf: seq<byte>, pos: nat, t: ColumnType, rows: nat)
    requires pos <= |buf| && Domain(t) && !Kidless(t) && AllDomain(Kids(t))
  {
    Discard(buf, pos, t, rows) ==
    var h := Head(buf, pos, t, rows);
    if h.Err? then Err(h.error)
    else
      var q := DiscardElems(buf, h.value.1, Kids(t), h.value.0);
      if q.Err? then q else Tail(buf, pos, q.value, t, rows)
  }

  lemma NodeParts(buf: seq<byte>, pos: nat, t: ColumnType, rows: nat)
    requires pos <= |buf| && Parsed(t) && !Kidless(t) && rows != 0 && AllDomain(Kids(t))
    ensures Shaped(buf, pos, t, rows)
  {
    hide Shaped, Domain, AllDomain;
    if t.Map? {
      MapParts(buf, pos, t, rows);
    } else if t.Tuple? {
      TupleParts(buf, pos, t, rows);
    } else if t.Point? {
      PointParts(buf, pos, rows);
    } else if t.LowCardinality? {
      DictParts(buf, pos, t, rows);
    } else if IsAlias(t) {
      AliasParts(buf, pos, t, rows);
    } else {
      WrappedParts(buf, pos, t, rows);
    }
  }

  lemma ElemsOne(buf: seq<byte>, pos: nat, t: ColumnType, rows: nat)
    requires pos <= |buf| && Domain(t) && AllDomain([t])
    ensures DiscardElems(buf, pos, [t], rows) == DiscardNamed(buf, pos, t, rows)
  {
    hide DiscardNamed;
    assert [t][1..] == [];
  }

  lemma ElemsTwo(buf: seq<byte>, pos: nat, t: ColumnType, u: ColumnType, rows: nat)
    requires pos <= |buf| && Domain(t) && Domain(u) && AllDomain([t, u])
    ensures DiscardElems(buf, pos, [t, u], rows) ==
            var p := DiscardNamed(buf, pos, t, rows);
            if p.Err? then p else DiscardNamed(buf, p.value, u, rows)
  {
    hide DiscardNamed;
    assert [t, u][1..] == [u];
    assert AllDomain([u]) by { assert [u][1..] == []; }
    var p := DiscardNamed(buf, pos, t, rows);
    ElemsOne(buf, if p.Ok? then p.value else pos, u, rows);
  }

  lemma WrappedParts(buf: seq<byte>, pos: nat, t: ColumnType, rows: nat)
    requires pos <= |buf| && Domain(t) && (t.Nullable? || t.Array?) && rows != 0 && AllDomain(Kids(t))
    ensures Shaped(buf, pos, t, rows)
  {
    hide DiscardNamed, DiscardElems, SkipOffsets;
    var h := Head(buf, pos, t, rows);
    if h.Ok? { ElemsOne(buf, h.value.1, t.inner, h.value.0); }
  }

  lemma DictParts(buf: seq<byte>, pos: nat, t: ColumnType, rows: nat)
    requires pos <= |buf| && Domain(t) && t.LowCardinality? && rows != 0 && AllDomain(Kids(t))
    ensures Shaped(buf, pos, t, rows)
  {
    hide DiscardNamed, DiscardElems, DictionaryHeader, DictionaryIndexes;
    var h := Head(buf, pos, t, rows);
    if h.Ok? { ElemsOne(buf, h.value.1, t.inner, h.value.0); }
  }

  lemma {:induction false} AliasParts(buf: seq<byte>, pos: nat, t: ColumnType, rows: nat)
    requires pos <= |buf| && Domain(t) && IsAlias(t) && rows != 0 && AllDomain(Kids(t))
    ensures Shaped(buf, pos, t, rows)
  {
    hide DiscardNamed, DiscardElems, Alias;
    AliasDomain(t);
    ElemsOne(buf, pos, Alias(t), rows);
  }

  lemma TupleParts(buf: seq<byte>, pos: nat, t: ColumnType, rows: nat)
    requires pos <= |buf| && Domain(t) && t.Tuple? && rows != 0 && AllDomain(Kids(t))
    ensures Shaped(buf, pos, t, rows)
  {
    hide DiscardElems;
  }

  lemma MapParts(buf: seq<byte>, pos: nat, t: ColumnType, rows: nat)
    requires pos <= |buf| && Domain(t) && t.Map? && rows != 0 && AllDomain(Kids(t))
    ensures Shaped(buf, pos, t, rows)
  {
    hide DiscardNamed, DiscardElems, SkipOffsets;
    var h := Head(buf, pos, t, rows);
    if h.Ok? { ElemsTwo(buf, h.value.1, t.key, t.value, h.value.0); }
  }

  lemma PointParts(buf: seq<byte>, pos: nat, rows: nat)
    requires pos <= |buf| && Domain(Point) && rows != 0 && AllDomain(Kids(Point))
    ensures Shaped(buf, pos, Point, rows)
  {
    hide DiscardNamed, DiscardElems, DiscardCells;
    FloatNamed(buf, pos, rows);
    ElemsTwo(buf, pos, Float64, Float64, rows);
    var p := DiscardCells(buf, pos, Cells(8), rows);
    if p.Ok? { FloatNamed(buf, p.value, rows); }
  }

  lemma FloatNamed(buf: seq<byte>, pos: nat, rows: nat)
    requires pos <= |buf| && rows != 0
    ensures Domain(Float64) && DiscardNamed(buf, pos, Float64, rows) == DiscardCells(buf, pos, Cells(8), rows)
  {
    hide DiscardCells, Discard, Print, ParseType;
    FloatDiscarded(buf, pos, rows);
    assert Reread(Float64) == Ok(Float64);
  }

  lemma FloatDiscarded(buf: seq<byte>, pos: nat, rows: nat)
    requires pos <= |buf| && rows != 0
    ensures Domain(Float64) && Discard(buf, pos, Float64, rows) == DiscardCells(buf, pos, Cells(8), rows)
  {
    hide DiscardCells;
  }

  lemma {:induction false} PartsTossed(buf: seq<byte>, pos: nat, ts: seq<ColumnType>, rows: nat, bound: nat)
    requires pos <= |buf| && AllDomain(ts) && Below(ts, bound) && forall i :: 0 <= i < |ts| ==> Parsed(ts[i])
    ensures DiscardElems(buf, pos, ts, rows) == TossList(buf, pos, ts, rows, bound)
    decreases bound, 0, |ts|
  {
    hide Toss, DiscardNamed, Parsed;
    if ts != [] {
      NamedIsToss(buf, pos, ts[0], rows);
      var p := Toss(true, buf, pos, ts[0], rows);
      if p.Ok? { PartsTossed(buf, p.value, ts[1..], rows, bound); }
    }
  }

  /** At the top. */
  lemma DiscardIsToss(buf: seq<byte>, pos: nat, t: ColumnType, rows: nat)
    requires pos <= |buf| && Parsed(t)
    ensures Discard(buf, pos, t, rows) == Toss(false, buf, pos, t, rows)
  {
    hide CappedStrings, DiscardCells, LayoutOf, SkipJson, DiscardNamed, DiscardElems, TossList, Head, Tail;
    if rows != 0 && !Kidless(t) {
      NodeIsToss(false, buf, pos, t, rows);
    }
  }
}
