/** The streaming discarder of `src/connection/block_reader.rs`: a third parser of
    column data. It recurses by printing an inner type and parsing the name, and
    reads offsets through a window. */
module DiscardColumn {
  import opened Bytes
  import opened Limits
  import opened Varint
  import opened ColumnTypes
  import opened TypeText
  import opened TypeNames
  import opened TypeRoundTrip
  import opened SkipSpec
  import opened StringColumn
  import opened WireFormat
  import SkipColumn
  import FramingComplete

  // --------------------------------------------------------------------------
  // Types
  // --------------------------------------------------------------------------

  /** Types that are discarded without being read: no Variant or Dynamic. */
  predicate Streamable(t: ColumnType)
    decreases TypeSize(t), 1
  {
    if t.Nullable? || t.Array? || t.LowCardinality? then Streamable(t.inner)
    else if t.Map? then Streamable(t.key) && Streamable(t.value)
    else if t.Tuple? then AllStreamable(t.elems)
    else !t.Variant? && !t.Dynamic?
  }

  predicate AllStreamable(ts: seq<ColumnType>)
    decreases TypesSize(ts), 0
  {
    ts == [] || (Streamable(ts[0]) && AllStreamable(ts[1..]))
  }

  predicate Domain(t: ColumnType)
  {
    Streamable(t) && Legible(t)
  }

  predicate AllDomain(ts: seq<ColumnType>)
  {
    AllStreamable(ts) && AllLegible(ts)
  }

  /** What the printed name of a type is read back as. */
  function Reread(t: ColumnType): (r: Result<ColumnType>)
    requires Domain(t)
    ensures r.Ok? ==> r.value == Normal(t) && Domain(r.value) && TypeSize(r.value) == TypeSize(t)
    ensures r == Expected(t, 0)
  {
    Reparse(t, 0);
    NormalDomain(t);
    ParseType(Print(t))
  }

  lemma NormalDomain(t: ColumnType)
    requires Domain(t)
    ensures Domain(Normal(t)) && TypeSize(Normal(t)) == TypeSize(t)
  {
    hide Streamable, Legible, Normal;
    NormalStreamable(t);
    NormalLegible(t);
  }

  lemma {:induction false} NormalStreamable(t: ColumnType)
    ensures Streamable(Normal(t)) == Streamable(t) && TypeSize(Normal(t)) == TypeSize(t)
    decreases TypeSize(t), 1
  {
    if t.Nullable? || t.Array? || t.LowCardinality? {
      NormalStreamable(t.inner);
    } else if t.Map? {
      NormalStreamable(t.key);
      NormalStreamable(t.value);
    } else if t.Tuple? {
      NormalsStreamable(t.elems);
    } else if t.Variant? {
      NormalsStreamable(t.types);
    } else {
      NormalLeafStreamable(t);
    }
  }

  lemma {:induction false} NormalsStreamable(ts: seq<ColumnType>)
    ensures AllStreamable(Normals(ts)) == AllStreamable(ts) && TypesSize(Normals(ts)) == TypesSize(ts)
    decreases TypesSize(ts), 0
  {
    hide Streamable, TypeSize, Normal;
    if ts != [] {
      NormalStreamable(ts[0]);
      NormalsStreamable(ts[1..]);
      assert Normals(ts)[1..] == Normals(ts[1..]);
    }
  }

  lemma NormalLeafStreamable(t: ColumnType)
    requires IsLeaf(t)
    ensures Streamable(Normal(t)) == Streamable(t) && TypeSize(Normal(t)) == TypeSize(t)
  {
    if IsBare(t) {
      BareIsOther(t);
    } else {
      LeafIsNormal(t);
    }
  }

  lemma LeafIsNormal(t: ColumnType)
    requires !IsBare(t) && IsLeaf(t)
    ensures Normal(t) == t
  {
  }

  lemma BareIsOther(t: ColumnType)
    requires IsBare(t)
    ensures Normal(t) == Other(Word(t)) && IsWord(t) && Domain(t) && TypeSize(t) == TypeSize(Other(Word(t)))
  {
  }

  // --------------------------------------------------------------------------
  // What is discarded
  // --------------------------------------------------------------------------

  /** Cells of a type that contains no other. Their number of bytes is only
      checked for overflow, not against the column cap. */
  function DiscardCells(buf: seq<byte>, pos: nat, layout: Layout, rows: nat): (r: Result<nat>)
    requires pos <= |buf|
    ensures r.Ok? ==> pos <= r.value <= |buf|
  {
    match layout
    case OneByte => Advance(buf, pos, rows)
    case Cells(width) =>
      if rows * width >= U64_LIMIT then Err(TooLarge)
      else
        assert 0 <= rows * width;
        Advance(buf, pos, rows * width)
    case Texts => SkipStrings(buf, pos, rows)
    case Refused => Err(Unsupported)
  }

  /** `discard_column_async` once the name is parsed. */
  function Discard(buf: seq<byte>, pos: nat, t: ColumnType, rows: nat): (r: Result<nat>)
    requires pos <= |buf| && Domain(t)
    ensures r.Ok? ==> pos <= r.value <= |buf|
    decreases TypeSize(t), 0
  {
    if rows == 0 then Ok(pos)
    else if t.JSON? then SkipJson(buf, pos, rows)
    else if t.Nullable? then
      var p :- Advance(buf, pos, rows);
      DiscardNamed(buf, p, t.inner, rows)
    else if t.Array? then
      var (total, p) :- SkipOffsets(buf, pos, rows);
      DiscardNamed(buf, p, t.inner, total)
    else if t.Map? then
      var (total, p) :- SkipOffsets(buf, pos, rows);
      var q :- DiscardNamed(buf, p, t.key, total);
      DiscardNamed(buf, q, t.value, total)
    else if t.Tuple? then DiscardElems(buf, pos, t.elems, rows)
    else if t.LowCardinality? then
      var (width, keys, p) :- DictionaryHeader(buf, pos);
      var q :- DiscardNamed(buf, p, t.inner, keys);
      DictionaryIndexes(buf, q, width, rows)
    else if t.Point? then
      var p :- DiscardCells(buf, pos, Cells(8), rows);
      DiscardCells(buf, p, Cells(8), rows)
    else if IsAlias(t) then DiscardNamed(buf, pos, Alias(t), rows)
    else if t.Other? then CappedStrings(buf, pos, rows, 0)
    else DiscardCells(buf, pos, LayoutOf(t), rows)
  }

  /** `discard_column_async` on the printed name of an inner type. */
  function DiscardNamed(buf: seq<byte>, pos: nat, t: ColumnType, rows: nat): (r: Result<nat>)
    requires pos <= |buf| && Domain(t)
    ensures r.Ok? ==> pos <= r.value <= |buf|
    decreases TypeSize(t), 1
  {
    if rows == 0 then Ok(pos)
    else
      match Reread(t)
      case Ok(u) => Discard(buf, pos, u, rows)
      case Err(_) => SkipStrings(buf, pos, rows)
  }

  function DiscardElems(buf: seq<byte>, pos: nat, ts: seq<ColumnType>, rows: nat): (r: Result<nat>)
    requires pos <= |buf| && AllDomain(ts)
    ensures r.Ok? ==> pos <= r.value <= |buf|
    decreases TypesSize(ts), 0
  {
    if ts == [] then Ok(pos)
    else
      var p :- DiscardNamed(buf, pos, ts[0], rows);
      DiscardElems(buf, p, ts[1..], rows)
  }

  // --------------------------------------------------------------------------
  // As it is carried out
  // --------------------------------------------------------------------------

  const EXACT_WINDOW: nat := 16384
  const OFFSET_WINDOW: nat := 8192

  /** A failure may be found in a different order, so only successes are the same. */
  predicate SameEnd<T(==)>(r: Result<T>, spec: Result<T>)
  {
    if spec.Ok? then r == spec else r.Err?
  }

  /** `discard_exact_async`: window by window. */
  method DiscardExact(buf: seq<byte>, start: nat, len: nat) returns (r: Result<nat>)
    requires start <= |buf|
    ensures r == Advance(buf, start, len)
  {
    var pos: nat, left: nat := start, len;
    while left != 0
      invariant pos <= |buf| && pos + left == start + len
      decreases left
    {
      var n := Min(left, EXACT_WINDOW);
      if pos + n > |buf| { return Err(Truncated); }
      pos, left := pos + n, left - n;
    }
    return Ok(pos);
  }

  /** `discard_offsets_async`: offsets are validated window by window. */
  method DiscardOffsets(buf: seq<byte>, start: nat, rows: nat) returns (r: Result<(nat, nat)>)
    requires start <= |buf|
    ensures SameEnd(r, SkipOffsets(buf, start, rows))
  {
    var len := ColumnLen(rows, 8);
    if len.Err? { return Err(len.error); }
    var remaining: nat, pos: nat, total: nat, done: nat := rows, start, 0, 0;
    while remaining > 0
      invariant done + remaining == rows && pos == start + 8 * done <= |buf|
      invariant start + 8 * rows <= |buf| ==>
                  OffsetsFrom(buf, start, rows, 0) == OffsetsFrom(buf, pos, remaining, total)
      decreases remaining
    {
      var n := Min(remaining, OFFSET_WINDOW / 8);
      if pos + 8 * n > |buf| { return Err(Truncated); }
      var next := ScanWindow(buf, pos, n, remaining, total);
      if next.Err? { return Err(next.error); }
      total := next.value;
      remaining, pos, done := remaining - n, pos + 8 * n, done + n;
    }
    return Ok((total, pos));
  }

  /** The offsets of one filled window. */
  method ScanWindow(buf: seq<byte>, start: nat, n: nat, remaining: nat, first: nat) returns (r: Result<nat>)
    requires start + 8 * n <= |buf| && n <= remaining
    ensures r.Ok? && start + 8 * remaining <= |buf| ==>
              OffsetsFrom(buf, start, remaining, first) == OffsetsFrom(buf, start + 8 * n, remaining - n, r.value)
    ensures r.Err? && start + 8 * remaining <= |buf| ==> OffsetsFrom(buf, start, remaining, first).Err?
  {
    var total: nat := first;
    for i := 0 to n
      invariant start + 8 * remaining <= |buf| ==>
                  OffsetsFrom(buf, start, remaining, first) == OffsetsFrom(buf, start + 8 * i, remaining - i, total)
    {
      var next := NextOffset(total, LeValue(buf[start + 8 * i..start + 8 * i + 8]));
      if next.Err? { return Err(next.error); }
      total := next.value;
    }
    return Ok(total);
  }

  /** `discard_column_async` once the name is parsed. */
  method DiscardColumnData(buf: seq<byte>, pos: nat, t: ColumnType, rows: nat) returns (r: Result<nat>)
    requires pos <= |buf| && Domain(t)
    ensures SameEnd(r, Discard(buf, pos, t, rows))
    decreases TypeSize(t), 1
  {
    hide DiscardNamed, DiscardElems, SkipJson, DiscardCells, LayoutOf, CappedStrings, SkipOffsets, Alias;
    hide DictionaryHeader, DictionaryIndexes;
    if rows == 0 { return Ok(pos); }
    if t.Nullable? {
      var p := DiscardExact(buf, pos, rows);
      if p.Err? { return p; }
      r := DiscardByName(buf, p.value, t.inner, rows);
    } else if t.Array? {
      var o := DiscardOffsets(buf, pos, rows);
      if o.Err? { return Err(o.error); }
      r := DiscardByName(buf, o.value.1, t.inner, o.value.0);
    } else if t.Map? {
      r := DiscardMap(buf, pos, t, rows);
    } else if t.Tuple? {
      r := DiscardTuple(buf, pos, t.elems, rows);
    } else if t.LowCardinality? {
      var h := DictionaryHeader(buf, pos);
      if h.Err? { return Err(h.error); }
      var q := DiscardByName(buf, h.value.2, t.inner, h.value.1);
      if q.Err? { return q; }
      r := DictionaryIndexes(buf, q.value, h.value.0, rows);
    } else if IsAlias(t) {
      AliasDomain(t);
      r := DiscardByName(buf, pos, Alias(t), rows);
    } else if t.JSON? {
      r := SkipJson(buf, pos, rows);
    } else if t.Point? {
      r := DiscardFlat(buf, pos, Cells(8), rows);
      if r.Err? { return; }
      r := DiscardFlat(buf, r.value, Cells(8), rows);
    } else if t.Other? {
      var c := ReadStringColumn(buf, pos, rows);
      if c.Err? { return Err(c.error); }
      r := Ok(c.value.1);
    } else {
      r := DiscardFlat(buf, pos, LayoutOf(t), rows);
    }
  }

  method DiscardFlat(buf: seq<byte>, pos: nat, layout: Layout, rows: nat) returns (r: Result<nat>)
    requires pos <= |buf|
    ensures r == DiscardCells(buf, pos, layout, rows)
  {
    hide SkipStrings;
    match layout
    case OneByte => r := DiscardExact(buf, pos, rows);
    case Cells(width) =>
      if rows * width >= U64_LIMIT { return Err(TooLarge); }
      assert 0 <= rows * width;
      r := DiscardExact(buf, pos, rows * width);
    case Texts => r := SkipColumn.SkipStringRows(buf, pos, rows);
    case Refused => r := Err(Unsupported);
  }

  lemma AliasDomain(t: ColumnType)
    requires IsAlias(t)
    ensures Domain(Alias(t))
  {
  }

  method DiscardMap(buf: seq<byte>, pos: nat, t: ColumnType, rows: nat) returns (r: Result<nat>)
    requires pos <= |buf| && t.Map? && Domain(t) && rows != 0
    ensures SameEnd(r, Discard(buf, pos, t, rows))
    decreases TypeSize(t), 0
  {
    hide DiscardNamed, SkipOffsets;
    var o := DiscardOffsets(buf, pos, rows);
    if o.Err? { return Err(o.error); }
    var k := DiscardByName(buf, o.value.1, t.key, o.value.0);
    if k.Err? { return k; }
    r := DiscardByName(buf, k.value, t.value, o.value.0);
  }

  /** The inner type goes by its printed name. */
  method DiscardByName(buf: seq<byte>, pos: nat, t: ColumnType, rows: nat) returns (r: Result<nat>)
    requires pos <= |buf| && Domain(t)
    ensures SameEnd(r, DiscardNamed(buf, pos, t, rows))
    decreases TypeSize(t), 2
  {
    hide Discard, Domain, SkipStrings;
    if rows == 0 { return Ok(pos); }
    var u := Reread(t);
    if u.Err? {
      r := SkipColumn.SkipStringRows(buf, pos, rows);
    } else {
      r := DiscardColumnData(buf, pos, u.value, rows);
    }
  }

  method DiscardTuple(buf: seq<byte>, start: nat, ts: seq<ColumnType>, rows: nat) returns (r: Result<nat>)
    requires start <= |buf| && AllDomain(ts)
    ensures SameEnd(r, DiscardElems(buf, start, ts, rows))
    decreases TypesSize(ts), 0
  {
    hide DiscardNamed, Streamable, Legible;
    var pos: nat := start;
    assert ts[0..] == ts;
    for i := 0 to |ts|
      invariant pos <= |buf| && AllDomain(ts[i..])
      invariant DiscardElems(buf, start, ts, rows) == DiscardElems(buf, pos, ts[i..], rows)
    {
      MemberSize(ts, i);
      assert ts[i..][1..] == ts[i + 1..];
      var p := DiscardByName(buf, pos, ts[i], rows);
      if p.Err? { return p; }
      pos := p.value;
    }
    return Ok(pos);
  }

  // --------------------------------------------------------------------------
  // Bodies without state
  // --------------------------------------------------------------------------

  /** No JSON at any depth. */
  predicate NoJson(t: ColumnType)
    decreases TypeSize(t), 1
  {
    if t.Nullable? || t.Array? || t.LowCardinality? then NoJson(t.inner)
    else if t.Map? then NoJson(t.key) && NoJson(t.value)
    else if t.Tuple? then AllNoJson(t.elems)
    else !t.JSON?
  }

  predicate AllNoJson(ts: seq<ColumnType>)
    decreases TypesSize(ts), 0
  {
    ts == [] || (NoJson(ts[0]) && AllNoJson(ts[1..]))
  }

  /** The cases of a column without Variant and Dynamic, one level deep. */
  lemma {:induction false} DataCases(buf: seq<byte>, pos: nat, t: ColumnType, rows: nat)
    requires pos <= |buf|
    ensures rows == 0 ==> SkipData(buf, pos, t, rows) == Ok(pos)
    ensures rows != 0 && t.JSON? ==> SkipData(buf, pos, t, rows) == SkipJson(buf, pos, rows)
    ensures rows != 0 && t.Nullable? ==>
              SkipData(buf, pos, t, rows) ==
              var p := Advance(buf, pos, rows);
              if p.Err? then p else SkipData(buf, p.value, t.inner, rows)
    ensures rows != 0 && t.Array? ==>
              SkipData(buf, pos, t, rows) ==
              var o := SkipOffsets(buf, pos, rows);
              if o.Err? then Err(o.error) else SkipData(buf, o.value.1, t.inner, o.value.0)
    ensures rows != 0 && t.Map? ==> SkipData(buf, pos, t, rows) == SkipMapData(buf, pos, t.key, t.value, rows)
    ensures rows != 0 && t.Tuple? ==> SkipData(buf, pos, t, rows) == SkipDataElems(buf, pos, t.elems, rows)
    ensures rows != 0 && t.LowCardinality? ==> SkipData(buf, pos, t, rows) == SkipDictionary(buf, pos, t.inner, NoState, rows)
    ensures rows != 0 && t.Point? ==> SkipData(buf, pos, t, rows) == SkipPoint(buf, pos, rows)
    ensures rows != 0 && IsAlias(t) ==> SkipData(buf, pos, t, rows) == SkipData(buf, pos, Alias(t), rows)
    ensures rows != 0 && IsSimple(t) ==> SkipData(buf, pos, t, rows) == SkipLayout(buf, pos, LayoutOf(t), rows)
  {
    hide SkipData;
    NestedDataCases(buf, pos, t, rows);
    FlatDataCases(buf, pos, t, rows);
  }

  lemma {:induction false} NestedDataCases(buf: seq<byte>, pos: nat, t: ColumnType, rows: nat)
    requires pos <= |buf|
    ensures rows == 0 ==> SkipData(buf, pos, t, rows) == Ok(pos)
    ensures rows != 0 && t.JSON? ==> SkipData(buf, pos, t, rows) == SkipJson(buf, pos, rows)
    ensures rows != 0 && t.Nullable? ==>
              SkipData(buf, pos, t, rows) ==
              var p := Advance(buf, pos, rows);
              if p.Err? then p else SkipData(buf, p.value, t.inner, rows)
    ensures rows != 0 && t.Array? ==>
              SkipData(buf, pos, t, rows) ==
              var o := SkipOffsets(buf, pos, rows);
              if o.Err? then Err(o.error) else SkipData(buf, o.value.1, t.inner, o.value.0)
    ensures rows != 0 && t.Map? ==> SkipData(buf, pos, t, rows) == SkipMapData(buf, pos, t.key, t.value, rows)
    ensures rows != 0 && t.Tuple? ==> SkipData(buf, pos, t, rows) == SkipDataElems(buf, pos, t.elems, rows)
  {
    hide SkipJson, SkipOffsets, SkipMapData, SkipDataElems, SkipDictionary, SkipPoint, SkipLayout, LayoutOf, Alias;
  }

  lemma {:induction false} FlatDataCases(buf: seq<byte>, pos: nat, t: ColumnType, rows: nat)
    requires pos <= |buf|
    ensures rows != 0 && t.LowCardinality? ==> SkipData(buf, pos, t, rows) == SkipDictionary(buf, pos, t.inner, NoState, rows)
    ensures rows != 0 && t.Point? ==> SkipData(buf, pos, t, rows) == SkipPoint(buf, pos, rows)
    ensures rows != 0 && IsAlias(t) ==> SkipData(buf, pos, t, rows) == SkipData(buf, pos, Alias(t), rows)
    ensures rows != 0 && IsSimple(t) ==> SkipData(buf, pos, t, rows) == SkipLayout(buf, pos, LayoutOf(t), rows)
  {
    hide SkipJson, SkipOffsets, SkipMapData, SkipDataElems, SkipDictionary, SkipPoint, SkipLayout, LayoutOf, Alias;
  }

  /** A body of a type without JSON, Variant or Dynamic parts has no state: it is
      skipped as a column, whatever state is passed. */
  lemma {:induction false} StatelessBody(buf: seq<byte>, pos: nat, t: ColumnType, s: SkipState, rows: nat)
    requires pos <= |buf| && Streamable(t) && NoJson(t)
    ensures SkipBody(buf, pos, t, s, rows) == SkipData(buf, pos, t, rows)
    decreases TypeSize(t), 1
  {
    hide SkipBody, SkipData, SkipOffsets, SkipPoint, SkipLayout, LayoutOf, SkipDictionary, Alias;
    SkipColumn.BodyCases(buf, pos, t, s, rows);
    DataCases(buf, pos, t, rows);
    if rows != 0 {
      if t.Nullable? {
        if Advance(buf, pos, rows).Ok? { StatelessBody(buf, pos + rows, t.inner, NullableInner(s), rows); }
      } else if t.Array? {
        var o := SkipOffsets(buf, pos, rows);
        if o.Ok? { StatelessBody(buf, o.value.1, t.inner, ArrayInner(s), o.value.0); }
      } else if t.Map? {
        StatelessMap(buf, pos, t, s, rows);
      } else if t.Tuple? {
        StatelessElems(buf, pos, t.elems, TupleElems(s), rows);
      } else if t.LowCardinality? {
        StatelessDictionary(buf, pos, t.inner, LowCardinalityInner(s), rows);
        StatelessDictionary(buf, pos, t.inner, NoState, rows);
      } else if IsAlias(t) {
        AliasStateless(t);
        StatelessBody(buf, pos, Alias(t), NoState, rows);
      }
    }
  }

  /** A dictionary with its entries read as a column. */
  function DictionaryOf(buf: seq<byte>, pos: nat, t: ColumnType, rows: nat): (r: Result<nat>)
    requires pos <= |buf|
  {
    var (width, keys, p) :- DictionaryHeader(buf, pos);
    var q :- SkipData(buf, p, t, keys);
    DictionaryIndexes(buf, q, width, rows)
  }

  lemma {:induction false} StatelessDictionary(buf: seq<byte>, pos: nat, t: ColumnType, s: SkipState, rows: nat)
    requires pos <= |buf| && Streamable(t) && NoJson(t)
    ensures SkipDictionary(buf, pos, t, s, rows) == DictionaryOf(buf, pos, t, rows)
    decreases TypeSize(t), 2
  {
    hide SkipBody, SkipData, DictionaryHeader, DictionaryIndexes;
    var h := DictionaryHeader(buf, pos);
    if h.Ok? {
      StatelessBody(buf, h.value.2, t, s, h.value.1);
    }
  }

  lemma AliasStateless(t: ColumnType)
    requires IsAlias(t)
    ensures Streamable(Alias(t)) && NoJson(Alias(t)) && Nesting(Alias(t)) == 1
  {
  }

  lemma {:induction false} StatelessMap(buf: seq<byte>, pos: nat, t: ColumnType, s: SkipState, rows: nat)
    requires pos <= |buf| && t.Map? && Streamable(t) && NoJson(t)
    ensures SkipMapBody(buf, pos, t.key, t.value, s, rows) == SkipMapData(buf, pos, t.key, t.value, rows)
    decreases TypeSize(t), 0
  {
    hide SkipOffsets, SkipBody, SkipData;
    var o := SkipOffsets(buf, pos, rows);
    if o.Ok? {
      StatelessBody(buf, o.value.1, t.key, MapKey(s), o.value.0);
      var q := SkipData(buf, o.value.1, t.key, o.value.0);
      if q.Ok? { StatelessBody(buf, q.value, t.value, MapValue(s), o.value.0); }
    }
  }

  lemma {:induction false} StatelessElems(buf: seq<byte>, pos: nat, ts: seq<ColumnType>, ss: seq<SkipState>, rows: nat)
    requires pos <= |buf| && AllStreamable(ts) && AllNoJson(ts)
    ensures SkipElems(buf, pos, ts, ss, rows) == SkipDataElems(buf, pos, ts, rows)
    decreases TypesSize(ts), 0
  {
    hide SkipBody, SkipData;
    if ts != [] {
      StatelessBody(buf, pos, ts[0], StateAt(ss, 0), rows);
      var p := SkipData(buf, pos, ts[0], rows);
      if p.Ok? { StatelessElems(buf, p.value, ts[1..], RestOf(ss), rows); }
    }
  }

  // --------------------------------------------------------------------------
  // Where the two part
  // --------------------------------------------------------------------------

  /** The geo aliases are discarded under the names they print. */
  lemma AliasNames()
    ensures Print(Alias(Ring)) == "Array(Point)" && Print(Alias(Polygon)) == "Array(Ring)"
    ensures Print(Alias(MultiPolygon)) == "Array(Polygon)"
  {
    hide Print, Word;
    PrintArray(Point);
    PrintArray(Ring);
    PrintArray(Polygon);
    GeoWords();
  }

  lemma GeoWords()
    ensures Word(Point) == "Point" && Word(Ring) == "Ring" && Word(Polygon) == "Polygon"
  {
  }

  lemma PrintArray(t: ColumnType)
    requires IsWord(t)
    ensures Print(Array(t)) == "Array(" + Word(t) + ")"
  {
    hide Word;
    assert Print(t) == Word(t);
    assert Applied("Array", Word(t)) == "Array(" + Word(t) + ")";
  }

  /** A column over the column cap: the skipper refuses it, the discarder passes
      over it. */
  lemma WideColumnDiffers(buf: seq<byte>, rows: nat)
    requires MAX_COLUMN_BYTES < rows * 8 <= |buf| && rows * 8 < U64_LIMIT
    ensures SkipData(buf, 0, UInt64, rows) == Err(TooLarge)
    ensures Domain(UInt64) && Discard(buf, 0, UInt64, rows) == Ok(rows * 8)
  {
    hide SkipData;
    DataCases(buf, 0, UInt64, rows);
  }

  /** One row of Array(Enum8) with one element: the skipper steps over the byte,
      the discarder takes the printed name for an unknown type and the byte for
      the length of a string. */
  lemma NestedEnumDiffers()
    ensures var buf := OffsetsWire([1]) + [5];
            && SkipData(buf, 0, Array(Enum8), 1) == Ok(9)
            && Domain(Array(Enum8)) && Discard(buf, 0, Array(Enum8), 1) == Err(Truncated)
  {
    hide OffsetsWire, SkipOffsets, SkipData, Discard, Domain;
    var offsets: seq<nat> := [1];
    var buf: seq<byte> := OffsetsWire(offsets) + [5];
    OneOffset(buf, offsets);
    DataCases(buf, 0, Array(Enum8), 1);
    DataCases(buf, 8, Enum8, 1);
    EnumElement(buf);
    EnumDiscarded(buf);
  }

  lemma EnumElement(buf: seq<byte>)
    requires |buf| == 9
    ensures SkipLayout(buf, 8, LayoutOf(Enum8), 1) == Ok(9)
  {
  }

  lemma EnumDiscarded(buf: seq<byte>)
    requires |buf| == 9 && buf[8] == 5 && SkipOffsets(buf, 0, 1) == Ok((1, 8))
    ensures Domain(Array(Enum8)) && Discard(buf, 0, Array(Enum8), 1) == Err(Truncated)
  {
    hide SkipOffsets, CappedStrings, Discard, Domain;
    BareIsOther(Enum8);
    NormalDomain(Enum8);
    EnumDomain();
    DiscardArray(buf, 0, Array(Enum8), 1);
    ShortString(buf);
    DiscardOther(buf, 8, Other(Word(Enum8)), 1);
    assert Reread(Enum8) == Ok(Other(Word(Enum8)));
  }

  lemma EnumDomain()
    ensures Domain(Enum8) && Domain(Array(Enum8)) && Nesting(Enum8) == 0
  {
  }

  lemma DiscardArray(buf: seq<byte>, pos: nat, t: ColumnType, rows: nat)
    requires pos <= |buf| && t.Array? && Domain(t) && Domain(t.inner) && rows != 0
    ensures var o := SkipOffsets(buf, pos, rows);
            o.Ok? ==> Discard(buf, pos, t, rows) == DiscardNamed(buf, o.value.1, t.inner, o.value.0)
  {
    hide SkipOffsets, DiscardNamed;
  }

  lemma DiscardOther(buf: seq<byte>, pos: nat, t: ColumnType, rows: nat)
    requires pos <= |buf| && t.Other? && Domain(t) && rows != 0
    ensures Discard(buf, pos, t, rows) == CappedStrings(buf, pos, rows, 0)
  {
    hide CappedStrings;
  }

  lemma OneOffset(buf: seq<byte>, offsets: seq<nat>)
    requires offsets == [1] && buf == OffsetsWire(offsets) + [5]
    ensures |buf| == 9 && buf[8] == 5 && SkipOffsets(buf, 0, 1) == Ok((1, 8))
  {
    assert buf[0..8] == OffsetsWire(offsets);
    var rest := offsets[1..];
    assert rest == [];
    assert Ascending(1, rest) && LastOf(1, rest) == 1;
    assert Ascending(0, offsets) && LastOf(0, offsets) == 1;
    FramingComplete.OffsetsComplete(buf, 0, offsets, 1);
  }

  lemma ShortString(buf: seq<byte>)
    requires |buf| == 9 && buf[8] == 5
    ensures CappedStrings(buf, 8, 1, 0) == Err(Truncated)
  {
    assert VarintAt(buf, 8) == Ok((5, 9));
  }
}
