/** The two parsers of a column agree: on whatever the skipper accepts, the
    value decoder returns the written values and stops at the same place,
    unless a written string is not UTF-8. */
module DecodeAgreement {
  import opened Bytes
  import opened Limits
  import opened Varint
  import Utf8
  import opened ColumnTypes
  import opened SkipSpec
  import opened WireFormat
  import opened FramingSound
  import opened FramingComplete
  import opened VariantDecode

  // --------------------------------------------------------------------------
  // What a written column means
  // --------------------------------------------------------------------------

  /** Scalars, String and FixedString. */
  predicate PlainLeaf(t: ColumnType)
  {
    IsLeaf(t) && !t.JSON? && (KindOf(t).FixedKind? || KindOf(t).TextKind? || KindOf(t).BlobKind?)
  }

  /** Types built from plain leaves with Nullable, Array, Map and Tuple. */
  predicate Decodable(t: ColumnType)
    decreases TypeSize(t), 1
  {
    if t.Nullable? || t.Array? then Decodable(t.inner)
    else if t.Map? then Decodable(t.key) && Decodable(t.value)
    else if t.Tuple? then AllDecodable(t.elems)
    else PlainLeaf(t)
  }

  predicate AllDecodable(ts: seq<ColumnType>)
    decreases TypesSize(ts), 0
  {
    ts == [] || (Decodable(ts[0]) && AllDecodable(ts[1..]))
  }

  /** Every string of the column is valid UTF-8. */
  predicate AllUtf8(c: Column)
  {
    match c
    case Strings(items) => forall i :: 0 <= i < |items| ==> Utf8.Decode(items[i].body).Some?
    case Masked(_, inner) => AllUtf8(inner)
    case Nested(_, inner) => AllUtf8(inner)
    case Join(first, rest) => AllUtf8(first) && AllUtf8(rest)
    case Prefixed(_, body) => AllUtf8(body)
    case Variants(_, subs) => AllUtf8(subs)
    case Compact(_, _, sub) => AllUtf8(sub)
    case Dynamics(_, subs) => AllUtf8(subs)
    case _ => true
  }

  function TextOf(body: seq<byte>): (text: string)
  {
    match Utf8.Decode(body)
    case Some(text) => text
    case None => ""
  }

  /** Where row `i` of a nested column starts. */
  function StartOf(offsets: seq<nat>, i: nat): (start: nat)
    requires i < |offsets|
  {
    if i == 0 then 0 else offsets[i - 1]
  }

  /** Bytes of the `i`-th cell. */
  function CellAt(bytes: seq<byte>, width: nat, i: nat): (cell: seq<byte>)
    requires (i + 1) * width <= |bytes|
    ensures |cell| == width
  {
    assert (i + 1) * width == i * width + width;
    bytes[i * width..(i + 1) * width]
  }

  /** Row by row, the values a column stands for. */
  ghost function ValuesOf(t: ColumnType, rows: nat, c: Column): (values: seq<Value>)
    requires Decodable(t) && FitsData(t, rows, c)
    ensures |values| == rows
    decreases c, TypeSize(t), 1
  {
    if rows == 0 then []
    else if t.Nullable? then
      MaskRows(c.nulls, ValuesOf(t.inner, rows, c.inner))
    else if t.Array? then
      ArrayRows(ValuesOf(t.inner, LastOf(0, c.offsets), c.inner), c.offsets)
    else if t.Map? then
      var total := LastOf(0, c.offsets);
      MapRows(ValuesOf(t.key, total, c.inner.first), ValuesOf(t.value, total, c.inner.rest), c.offsets)
    else if t.Tuple? then
      TupleRows(ColumnsOf(t.elems, rows, c), rows)
    else
      LeafFits(t, rows, c);
      LeafValues(t, KindOf(t), rows, c)
  }

  /** One sequence of values per element type. */
  ghost function ColumnsOf(ts: seq<ColumnType>, rows: nat, c: Column): (columns: seq<seq<Value>>)
    requires AllDecodable(ts) && FitsDataElems(ts, rows, c)
    ensures |columns| == |ts|
    ensures forall j :: 0 <= j < |ts| ==> |columns[j]| == rows
    decreases c, 0, 0
  {
    if ts == [] then [] else [ValuesOf(ts[0], rows, c.first)] + ColumnsOf(ts[1..], rows, c.rest)
  }

  /** The values from the end of the row before up to the end of row `i`. */
  ghost function RowSlice(values: seq<Value>, offsets: seq<nat>, i: nat): (slice: seq<Value>)
    requires i < |offsets| && Ascending(0, offsets) && LastOf(0, offsets) <= |values|
    ensures |slice| == offsets[i] - StartOf(offsets, i)
  {
    AscendingBounds(0, offsets, i);
    values[StartOf(offsets, i)..offsets[i]]
  }

  /** Row `i` lists the inner values of its own slice. */
  ghost function ArrayRows(values: seq<Value>, offsets: seq<nat>): (rows: seq<Value>)
    requires Ascending(0, offsets) && LastOf(0, offsets) <= |values|
    ensures |rows| == |offsets|
  {
    seq(|offsets|, i requires 0 <= i < |offsets| => List(RowSlice(values, offsets, i)))
  }

  /** Row `i` pairs the keys and the values of its own slice. */
  ghost function MapRows(keys: seq<Value>, values: seq<Value>, offsets: seq<nat>): (rows: seq<Value>)
    requires Ascending(0, offsets) && LastOf(0, offsets) <= |keys| && LastOf(0, offsets) <= |values|
    ensures |rows| == |offsets|
  {
    seq(|offsets|, i requires 0 <= i < |offsets| =>
      Pairs(PairUp(RowSlice(keys, offsets, i), RowSlice(values, offsets, i))))
  }

  /** Row `i` holds the `i`-th value of every column. */
  function TupleRows(columns: seq<seq<Value>>, rows: nat): (values: seq<Value>)
    requires forall j :: 0 <= j < |columns| ==> |columns[j]| == rows
    ensures |values| == rows
  {
    seq(rows, i requires 0 <= i < rows => Record(seq(|columns|, j requires 0 <= j < |columns| => columns[j][i])))
  }

  lemma {:induction false} AscendingBounds(prev: nat, offsets: seq<nat>, i: nat)
    requires i < |offsets| && Ascending(prev, offsets)
    ensures prev <= offsets[i] <= LastOf(prev, offsets)
    ensures i > 0 ==> offsets[i - 1] <= offsets[i]
    decreases |offsets|
  {
    AscendingLast(offsets[0], offsets[1..]);
    if i > 0 {
      AscendingBounds(offsets[0], offsets[1..], i - 1);
    }
  }

  lemma {:induction false} AscendingLast(prev: nat, offsets: seq<nat>)
    requires Ascending(prev, offsets)
    ensures prev <= LastOf(prev, offsets)
    decreases |offsets|
  {
    if offsets != [] {
      AscendingLast(offsets[0], offsets[1..]);
    }
  }

  function PairUp(keys: seq<Value>, values: seq<Value>): (entries: seq<(Value, Value)>)
    requires |keys| == |values|
  {
    seq(|keys|, j requires 0 <= j < |keys| => (keys[j], values[j]))
  }

  /** The wire layout that belongs to a leaf. */
  function LeafLayout(k: Kind): (l: Layout)
    requires k.FixedKind? || k.TextKind? || k.BlobKind?
  {
    match k
    case FixedKind(width) => if width == 1 then OneByte else Cells(width)
    case BlobKind(size) => Cells(size)
    case TextKind => Texts
  }

  ghost function LeafValues(t: ColumnType, k: Kind, rows: nat, c: Column): (values: seq<Value>)
    requires k.FixedKind? || k.TextKind? || k.BlobKind?
    requires FitsLayout(LeafLayout(k), rows, c)
    ensures |values| == rows
  {
    match k
    case FixedKind(width) =>
      seq(rows, i requires 0 <= i < rows => CellBounds(rows, width, i); Cell(t, CellAt(c.bytes, width, i)))
    case BlobKind(size) =>
      seq(rows, i requires 0 <= i < rows => CellBounds(rows, size, i); Blob(CellAt(c.bytes, size, i)))
    case TextKind => seq(rows, i requires 0 <= i < rows => Text(t, TextOf(c.items[i].body)))
  }

  lemma CellBounds(rows: nat, width: nat, i: nat)
    requires i < rows
    ensures (i + 1) * width <= rows * width
  {
    assert rows * width - (i + 1) * width == (rows - i - 1) * width;
  }

  lemma {:induction false} LayoutOfLeaf(t: ColumnType)
    requires PlainLeaf(t)
    ensures IsSimple(t) && LayoutOf(t) == LeafLayout(KindOf(t))
  {
  }

  lemma LeafFits(t: ColumnType, rows: nat, c: Column)
    requires PlainLeaf(t) && FitsData(t, rows, c) && rows != 0
    ensures FitsLayout(LeafLayout(KindOf(t)), rows, c)
  {
    hide FitsLayout, KindOf, LayoutOf, PlainLeaf;
    LayoutOfLeaf(t);
  }

  // --------------------------------------------------------------------------
  // The decoder reads back leaves
  // --------------------------------------------------------------------------

  lemma {:induction false} CellsOfAt(t: ColumnType, bytes: seq<byte>, width: nat, rows: nat, i: nat)
    requires width > 0 && |bytes| == rows * width && i < rows
    ensures (i + 1) * width <= |bytes|
    ensures |CellsOf(t, bytes, width)| == rows && CellsOf(t, bytes, width)[i] == Cell(t, CellAt(bytes, width, i))
    decreases rows
  {
    CellsCount(t, bytes, width, rows);
    CellBounds(rows, width, i);
    CellBounds(rows, width, 0);
    if i > 0 {
      var rest := bytes[width..];
      assert |rest| == (rows - 1) * width;
      CellsOfAt(t, rest, width, rows - 1, i - 1);
      ShiftedCell(bytes, width, i);
    }
  }

  lemma ShiftedCell(bytes: seq<byte>, width: nat, i: nat)
    requires 0 < i && width <= |bytes| && (i + 1) * width <= |bytes|
    ensures i * width <= |bytes[width..]| && CellAt(bytes[width..], width, i - 1) == CellAt(bytes, width, i)
  {
    assert (i + 1) * width == i * width + width;
    assert i * width == (i - 1) * width + width;
    assert 0 <= (i - 1) * width;
    assert bytes[width..][(i - 1) * width..i * width] == bytes[i * width..(i + 1) * width];
  }

  lemma CellsRead(data: seq<byte>, pos: nat, t: ColumnType, width: nat, rows: nat, c: Column)
    requires width > 0 && FitsLayout(LeafLayout(FixedKind(width)), rows, c) && Occurs(data, pos, c.bytes)
    ensures DecodeCells(data, pos, t, width, rows)
         == Done(LeafValues(t, FixedKind(width), rows, c), pos + |c.bytes|)
  {
    var values := CellsOf(t, c.bytes, width);
    CellsCount(t, c.bytes, width, rows);
    forall i | 0 <= i < rows
      ensures values[i] == LeafValues(t, FixedKind(width), rows, c)[i]
    {
      CellsOfAt(t, c.bytes, width, rows, i);
    }
    assert values == LeafValues(t, FixedKind(width), rows, c);
  }

  lemma {:induction false} BlobsEnd(data: seq<byte>, pos: nat, size: nat, rows: nat)
    requires pos + rows * size <= |data|
    ensures var o := DecodeBlobs(data, pos, size, rows);
            o.Done? && o.end == pos + rows * size && |o.value| == rows
    decreases rows
  {
    if rows > 0 {
      CellBounds(rows, size, 0);
      assert rows * size == size + (rows - 1) * size;
      BlobsEnd(data, pos + size, size, rows - 1);
    }
  }

  lemma {:induction false} BlobAt(data: seq<byte>, pos: nat, size: nat, rows: nat, i: nat)
    requires pos + rows * size <= |data| && i < rows
    ensures pos + i * size + size <= |data|
    ensures var o := DecodeBlobs(data, pos, size, rows);
            o.Done? && |o.value| == rows && o.value[i] == Blob(data[pos + i * size..pos + i * size + size])
    decreases rows
  {
    CellBounds(rows, size, 0);
    CellBounds(rows, size, i);
    assert (i + 1) * size == i * size + size;
    BlobsEnd(data, pos, size, rows);
    if i > 0 {
      assert rows * size == size + (rows - 1) * size && i * size == size + (i - 1) * size;
      BlobAt(data, pos + size, size, rows - 1, i - 1);
      NextBlob(data, pos, size, rows);
    }
  }

  lemma NextBlob(data: seq<byte>, pos: nat, size: nat, rows: nat)
    requires rows > 0 && DecodeBlobs(data, pos, size, rows).Done?
    ensures DecodeBlobs(data, pos + size, size, rows - 1).Done?
    ensures DecodeBlobs(data, pos, size, rows).value[1..] == DecodeBlobs(data, pos + size, size, rows - 1).value
  {
  }

  lemma CellThere(data: seq<byte>, pos: nat, size: nat, rows: nat, bytes: seq<byte>, i: nat)
    requires |bytes| == rows * size && Occurs(data, pos, bytes) && i < rows
    ensures (i + 1) * size <= |bytes| && pos + i * size + size <= |data|
    ensures CellAt(bytes, size, i) == data[pos + i * size..pos + i * size + size]
  {
    CellBounds(rows, size, i);
    var start, end := i * size, (i + 1) * size;
    assert end == start + size;
    SubSlice(data, pos, pos + |bytes|, start, end);
  }

  lemma BlobsRead(data: seq<byte>, pos: nat, size: nat, rows: nat, bytes: seq<byte>)
    requires |bytes| == rows * size && Occurs(data, pos, bytes)
    ensures var o := DecodeBlobs(data, pos, size, rows);
            && o.Done? && o.end == pos + |bytes| && |o.value| == rows
            && forall i :: 0 <= i < rows ==> (i + 1) * size <= |bytes| && o.value[i] == Blob(CellAt(bytes, size, i))
  {
    hide DecodeBlobs, CellAt;
    BlobsEnd(data, pos, size, rows);
    var o := DecodeBlobs(data, pos, size, rows);
    forall i | 0 <= i < rows
      ensures (i + 1) * size <= |bytes| && o.value[i] == Blob(CellAt(bytes, size, i))
    {
      BlobAt(data, pos, size, rows, i);
      CellThere(data, pos, size, rows, bytes, i);
    }
  }

  predicate ItemsUtf8(items: seq<Str>)
  {
    forall i :: 0 <= i < |items| ==> Utf8.Decode(items[i].body).Some?
  }

  function TextsOf(t: ColumnType, items: seq<Str>): (values: seq<Value>)
    ensures |values| == |items|
  {
    seq(|items|, i requires 0 <= i < |items| => Text(t, TextOf(items[i].body)))
  }

  lemma {:induction false} TextsRead(data: seq<byte>, pos: nat, t: ColumnType, items: seq<Str>)
    requires StrsOk(items) && Occurs(data, pos, StrsWire(items))
    ensures DecodeTexts(data, pos, t, |items|)
         == if ItemsUtf8(items) then Done(TextsOf(t, items), pos + |StrsWire(items)|) else Failed(BadUtf8)
    decreases |items|
  {
    hide VarintAt, CheckedVarintAt, StrOk, Utf8.Decode;
    if items != [] {
      var s, rest := items[0], StrsWire(items[1..]);
      OccursConcat(data, pos, s.len, s.body + rest);
      OccursConcat(data, pos + |s.len|, s.body, rest);
      LengthOccurs(data, pos, s);
      TextsRead(data, pos + |s.len| + |s.body|, t, items[1..]);
      TextsStep(t, items);
    } else {
      assert TextsOf(t, items) == [];
    }
  }

  lemma TextsStep(t: ColumnType, items: seq<Str>)
    requires items != []
    ensures TextsOf(t, items) == [Text(t, TextOf(items[0].body))] + TextsOf(t, items[1..])
    ensures ItemsUtf8(items) <==> Utf8.Decode(items[0].body).Some? && ItemsUtf8(items[1..])
  {
    hide Utf8.Decode, TextOf;
    if Utf8.Decode(items[0].body).Some? && ItemsUtf8(items[1..]) {
      forall i | 0 <= i < |items|
        ensures Utf8.Decode(items[i].body).Some?
      {
        assert i > 0 ==> items[i] == items[1..][i - 1];
      }
    }
    if ItemsUtf8(items) {
      assert forall i :: 0 <= i < |items| - 1 ==> items[1..][i] == items[i + 1];
    }
  }

  /** What decoding a column that occurs at `pos` gives. */
  ghost predicate ReadsAs(o: Outcome<seq<Value>>, pos: nat, c: Column, values: seq<Value>)
  {
    o == if AllUtf8(c) then Done(values, pos + |Wire(c)|) else Failed(BadUtf8)
  }

  lemma {:induction false} LeafRead(data: seq<byte>, pos: nat, t: ColumnType, rows: nat, c: Column)
    requires PlainLeaf(t) && FitsLayout(LeafLayout(KindOf(t)), rows, c) && Occurs(data, pos, Wire(c))
    ensures ReadsAs(DecodeLeaf(data, pos, t, rows), pos, c, LeafValues(t, KindOf(t), rows, c))
  {
    hide KindOf, DecodeCells, DecodeBlobs, DecodeTexts, StrsOk;
    var k := KindOf(t);
    if k.FixedKind? {
      CellsRead(data, pos, t, k.width, rows, c);
    } else if k.BlobKind? {
      BlobsRead(data, pos, k.size, rows, c.bytes);
      assert DecodeBlobs(data, pos, k.size, rows).value == LeafValues(t, k, rows, c);
    } else {
      TextsRead(data, pos, t, c.items);
      assert TextsOf(t, c.items) == LeafValues(t, k, rows, c);
    }
  }

  // --------------------------------------------------------------------------
  // The decoder reads back nested columns
  // --------------------------------------------------------------------------

  ghost predicate AllU64(offsets: seq<nat>)
  {
    forall i :: 0 <= i < |offsets| ==> offsets[i] < U64_LIMIT
  }

  lemma {:induction false} OffsetsRead(data: seq<byte>, pos: nat, offsets: seq<nat>)
    requires AllU64(offsets) && Occurs(data, pos, OffsetsWire(offsets))
    ensures DecodeOffsets(data, pos, |offsets|) == Done(offsets, pos + 8 * |offsets|)
    decreases |offsets|
  {
    hide U64At, U64Bytes, Occurs;
    if offsets != [] {
      OccursConcat(data, pos, U64Bytes(offsets[0]), OffsetsWire(offsets[1..]));
      U64Complete(data, pos, offsets[0]);
      OffsetsRead(data, pos + 8, offsets[1..]);
      assert [offsets[0]] + offsets[1..] == offsets;
    }
  }

  lemma {:induction false} AscendingRead(prev: nat, offsets: seq<nat>)
    requires Ascending(prev, offsets)
    ensures AllU64(offsets)
    ensures offsets != [] ==> LastOffset(offsets) == LastOf(prev, offsets) <= MAX_BLOCK_ROWS
    decreases |offsets|
  {
    if offsets != [] {
      AscendingRead(offsets[0], offsets[1..]);
      assert forall i :: 0 < i < |offsets| ==> offsets[i] == offsets[1..][i - 1];
    }
  }

  lemma {:induction false} SlicesRead(values: seq<Value>, offsets: seq<nat>, prev: nat, i: nat)
    requires Ascending(prev, offsets) && LastOf(prev, offsets) <= |values| && i < |offsets|
    ensures var r := SliceRows(values, offsets, prev);
            var start := if i == 0 then prev else offsets[i - 1];
            r.Some? && |r.value| == |offsets| && start <= offsets[i] <= |values| && r.value[i] == values[start..offsets[i]]
    decreases |offsets|
  {
    AscendingBounds(prev, offsets, i);
    AscendingBounds(prev, offsets, 0);
    if |offsets| > 1 {
      SlicesRead(values, offsets[1..], offsets[0], if i == 0 then 0 else i - 1);
    }
  }

  lemma RowSlices(values: seq<Value>, offsets: seq<nat>)
    requires Ascending(0, offsets) && LastOf(0, offsets) <= |values|
    ensures var r := SliceRows(values, offsets, 0);
            && r.Some? && |r.value| == |offsets|
            && forall i :: 0 <= i < |offsets| ==> r.value[i] == RowSlice(values, offsets, i)
  {
    hide SliceRows, Ascending, LastOf;
    if offsets == [] {
      SlicesEmpty(values);
    } else {
      forall i | 0 <= i < |offsets|
        ensures var r := SliceRows(values, offsets, 0);
                r.Some? && |r.value| == |offsets| && r.value[i] == RowSlice(values, offsets, i)
      {
        SlicesRead(values, offsets, 0, i);
      }
      SlicesRead(values, offsets, 0, 0);
    }
  }

  lemma SlicesEmpty(values: seq<Value>)
    ensures SliceRows(values, [], 0) == Some([])
  {
  }

  lemma {:induction false} ZipIsPairUp(keys: seq<Value>, values: seq<Value>)
    requires |keys| == |values|
    ensures ZipPairs(keys, values) == PairUp(keys, values)
  {
    if keys != [] {
      ZipIsPairUp(keys[1..], values[1..]);
    }
  }

  lemma {:induction false} AcrossReads(columns: seq<seq<Value>>, rows: nat, i: nat)
    requires i < rows && forall j :: 0 <= j < |columns| ==> |columns[j]| == rows
    ensures Across(columns, i) == seq(|columns|, j requires 0 <= j < |columns| => columns[j][i])
  {
    if columns != [] {
      AcrossReads(columns[1..], rows, i);
    }
  }

  lemma RecordsAre(columns: seq<seq<Value>>, rows: nat)
    requires forall j :: 0 <= j < |columns| ==> |columns[j]| == rows
    ensures RecordRows(columns, rows) == TupleRows(columns, rows)
  {
    forall i | 0 <= i < rows
      ensures RecordRows(columns, rows)[i] == TupleRows(columns, rows)[i]
    {
      AcrossReads(columns, rows, i);
    }
  }

  lemma ArraySlices(values: seq<Value>, offsets: seq<nat>)
    requires Ascending(0, offsets) && LastOf(0, offsets) <= |values|
    ensures SliceRows(values, offsets, 0).Some?
    ensures ListRows(SliceRows(values, offsets, 0).value) == ArrayRows(values, offsets)
  {
    hide SliceRows, Ascending, LastOf, RowSlice;
    RowSlices(values, offsets);
  }

  lemma MapSlices(keys: seq<Value>, values: seq<Value>, offsets: seq<nat>)
    requires Ascending(0, offsets) && LastOf(0, offsets) <= |keys| && LastOf(0, offsets) <= |values|
    ensures SlicePairs(keys, values, offsets) == Some(MapRows(keys, values, offsets))
  {
    hide SliceRows, Ascending, LastOf, RowSlice, ZipPairs, PairUp;
    RowSlices(keys, offsets);
    RowSlices(values, offsets);
    forall i | 0 <= i < |offsets|
      ensures ZipPairs(RowSlice(keys, offsets, i), RowSlice(values, offsets, i))
           == PairUp(RowSlice(keys, offsets, i), RowSlice(values, offsets, i))
    {
      ZipIsPairUp(RowSlice(keys, offsets, i), RowSlice(values, offsets, i));
    }
    var ks, vs := SliceRows(keys, offsets, 0).value, SliceRows(values, offsets, 0).value;
    assert PairRows(ks, vs) == MapRows(keys, values, offsets);
  }

  /** Room for the rows at hand and for every nested total that the skipper lets
      through. */
  predicate Roomy(mem: Memory, rows: nat)
  {
    rows <= mem.values && MAX_BLOCK_ROWS <= mem.values
  }

  /** Without rows the decoder reads nothing. */
  lemma {:induction false} DecodeNoRows(mem: Memory, data: seq<byte>, pos: nat, t: ColumnType)
    requires Decodable(t) && pos <= |data|
    ensures Decode(mem, data, pos, t, 0) == Done([], pos)
    decreases TypeSize(t), 1
  {
    if t.Nullable? || t.Array? {
      DecodeNoRows(mem, data, pos, t.inner);
    } else if t.Map? {
      DecodeNoRows(mem, data, pos, t.key);
      DecodeNoRows(mem, data, pos, t.value);
      assert DecodeEntries(mem, data, pos, t.key, t.value, 0) == Done(([], []), pos);
    } else if t.Tuple? {
      DecodeAllNoRows(mem, data, pos, t.elems);
    }
  }

  lemma {:induction false} DecodeAllNoRows(mem: Memory, data: seq<byte>, pos: nat, ts: seq<ColumnType>)
    requires AllDecodable(ts) && pos <= |data|
    ensures var o := DecodeAll(mem, data, pos, ts, Same(|ts|, 0));
            o.Done? && o.end == pos
    decreases TypesSize(ts), 0
  {
    if ts != [] {
      DecodeNoRows(mem, data, pos, ts[0]);
      assert Same(|ts|, 0)[1..] == Same(|ts[1..]|, 0);
      DecodeAllNoRows(mem, data, pos, ts[1..]);
    }
  }

  lemma NestedParts(data: seq<byte>, pos: nat, c: Column)
    requires c.Nested? && Occurs(data, pos, Wire(c))
    ensures Occurs(data, pos, OffsetsWire(c.offsets)) && Occurs(data, pos + 8 * |c.offsets|, Wire(c.inner))
    ensures |Wire(c)| == 8 * |c.offsets| + |Wire(c.inner)| && AllUtf8(c) == AllUtf8(c.inner)
  {
    hide Occurs;
    OccursConcat(data, pos, OffsetsWire(c.offsets), Wire(c.inner));
  }

  lemma JoinParts(data: seq<byte>, pos: nat, c: Column)
    requires c.Join? && Occurs(data, pos, Wire(c))
    ensures Occurs(data, pos, Wire(c.first)) && Occurs(data, pos + |Wire(c.first)|, Wire(c.rest))
    ensures |Wire(c)| == |Wire(c.first)| + |Wire(c.rest)| && AllUtf8(c) == (AllUtf8(c.first) && AllUtf8(c.rest))
  {
    hide Occurs;
    OccursConcat(data, pos, Wire(c.first), Wire(c.rest));
  }

  /** The decoder returns what the column says and stops behind it. */
  lemma {:induction false} DecodeReads(mem: Memory, data: seq<byte>, pos: nat, t: ColumnType, rows: nat, c: Column)
    requires Roomy(mem, rows) && Decodable(t) && FitsData(t, rows, c) && Occurs(data, pos, Wire(c))
    ensures ReadsAs(Decode(mem, data, pos, t, rows), pos, c, ValuesOf(t, rows, c))
    decreases c, TypeSize(t), 2
  {
    hide ValuesOf, FitsData, Decode;
    if rows == 0 {
      NoRowsRead(mem, data, pos, t, c);
    } else if t.Nullable? {
      NullableReads(mem, data, pos, t, rows, c);
    } else if t.Array? {
      ArrayReads(mem, data, pos, t, rows, c);
    } else if t.Map? {
      MapReads(mem, data, pos, t, rows, c);
    } else if t.Tuple? {
      TupleReads(mem, data, pos, t, rows, c);
    } else {
      PlainReads(mem, data, pos, t, rows, c);
    }
  }

  lemma NoRowsRead(mem: Memory, data: seq<byte>, pos: nat, t: ColumnType, c: Column)
    requires Decodable(t) && FitsData(t, 0, c) && Occurs(data, pos, Wire(c))
    ensures ReadsAs(Decode(mem, data, pos, t, 0), pos, c, ValuesOf(t, 0, c))
  {
    DecodeNoRows(mem, data, pos, t);
  }

  lemma PlainReads(mem: Memory, data: seq<byte>, pos: nat, t: ColumnType, rows: nat, c: Column)
    requires Roomy(mem, rows) && PlainLeaf(t) && Decodable(t) && rows != 0 && FitsData(t, rows, c) && Occurs(data, pos, Wire(c))
    ensures ReadsAs(Decode(mem, data, pos, t, rows), pos, c, ValuesOf(t, rows, c))
  {
    hide DecodeLeaf, KindOf, LeafLayout, LeafValues, FitsData, Occurs, Wire, AllUtf8;
    LeafFits(t, rows, c);
    LeafRead(data, pos, t, rows, c);
  }

  lemma {:induction false} NullableReads(mem: Memory, data: seq<byte>, pos: nat, t: ColumnType, rows: nat, c: Column)
    requires Roomy(mem, rows) && t.Nullable? && Decodable(t) && rows != 0 && FitsData(t, rows, c) && Occurs(data, pos, Wire(c))
    ensures ReadsAs(Decode(mem, data, pos, t, rows), pos, c, ValuesOf(t, rows, c))
    decreases c, TypeSize(t), 1
  {
    hide Occurs, FitsData, ValuesOf, Decode, Decodable;
    NullableParts(t, rows, c);
    OccursConcat(data, pos, c.nulls, Wire(c.inner));
    DecodeReads(mem, data, pos + rows, t.inner, rows, c.inner);
    NullableDecoded(mem, data, pos, t, rows, c, ValuesOf(t.inner, rows, c.inner));
  }

  lemma {:induction false} NullableParts(t: ColumnType, rows: nat, c: Column)
    requires t.Nullable? && Decodable(t) && rows != 0 && FitsData(t, rows, c)
    ensures Decodable(t.inner) && c.Masked? && |c.nulls| == rows && FitsData(t.inner, rows, c.inner)
    ensures ValuesOf(t, rows, c) == MaskRows(c.nulls, ValuesOf(t.inner, rows, c.inner))
  {
    hide MaskRows;
  }

  lemma {:induction false} NullableDecoded(mem: Memory, data: seq<byte>, pos: nat, t: ColumnType, rows: nat, c: Column, values: seq<Value>)
    requires t.Nullable? && rows <= mem.values && c.Masked? && |c.nulls| == rows == |values| && Occurs(data, pos, c.nulls)
    requires ReadsAs(Decode(mem, data, pos + rows, t.inner, rows), pos + rows, c.inner, values)
    ensures ReadsAs(Decode(mem, data, pos, t, rows), pos, c, MaskRows(c.nulls, values))
  {
  }

  lemma {:induction false} ArrayReads(mem: Memory, data: seq<byte>, pos: nat, t: ColumnType, rows: nat, c: Column)
    requires Roomy(mem, rows) && t.Array? && Decodable(t) && rows != 0 && FitsData(t, rows, c) && Occurs(data, pos, Wire(c))
    ensures ReadsAs(Decode(mem, data, pos, t, rows), pos, c, ValuesOf(t, rows, c))
    decreases c, TypeSize(t), 1
  {
    hide SliceRows, DecodeOffsets, Ascending, LastOf, LastOffset, Occurs, ArrayRows, ListRows, Wire, AllUtf8;
    NestedParts(data, pos, c);
    AscendingRead(0, c.offsets);
    OffsetsRead(data, pos, c.offsets);
    var total := LastOf(0, c.offsets);
    DecodeReads(mem, data, pos + 8 * rows, t.inner, total, c.inner);
    ArraySlices(ValuesOf(t.inner, total, c.inner), c.offsets);
  }

  lemma {:induction false} MapReads(mem: Memory, data: seq<byte>, pos: nat, t: ColumnType, rows: nat, c: Column)
    requires Roomy(mem, rows) && t.Map? && Decodable(t) && rows != 0 && FitsData(t, rows, c) && Occurs(data, pos, Wire(c))
    ensures ReadsAs(Decode(mem, data, pos, t, rows), pos, c, ValuesOf(t, rows, c))
    decreases c, TypeSize(t), 1
  {
    hide SlicePairs, DecodeOffsets, Ascending, LastOf, LastOffset, Occurs, MapRows, Wire, AllUtf8, DecodeEntries, Decodable;
    hide FitsData, ValuesOf, Decode, OffsetsWire, DecodeMap;
    MapParts(t, rows, c);
    NestedParts(data, pos, c);
    AscendingRead(0, c.offsets);
    OffsetsRead(data, pos, c.offsets);
    var total, at := LastOf(0, c.offsets), pos + 8 * rows;
    JoinParts(data, at, c.inner);
    DecodeReads(mem, data, at, t.key, total, c.inner.first);
    DecodeReads(mem, data, at + |Wire(c.inner.first)|, t.value, total, c.inner.rest);
    var keys, values := ValuesOf(t.key, total, c.inner.first), ValuesOf(t.value, total, c.inner.rest);
    EntriesDecoded(mem, data, at, t.key, t.value, total, c.inner, keys, values);
    MapSlices(keys, values, c.offsets);
    MapDecoded(mem, data, pos, t, rows, c, at, keys, values);
  }

  /** The parts of a map column and what it stands for. */
  lemma {:induction false} MapParts(t: ColumnType, rows: nat, c: Column)
    requires t.Map? && Decodable(t) && rows != 0 && FitsData(t, rows, c)
    ensures Decodable(t.key) && Decodable(t.value) && c.Nested? && |c.offsets| == rows && Ascending(0, c.offsets)
    ensures var total := LastOf(0, c.offsets);
            && c.inner.Join? && FitsData(t.key, total, c.inner.first) && FitsData(t.value, total, c.inner.rest)
            && ValuesOf(t, rows, c)
               == MapRows(ValuesOf(t.key, total, c.inner.first), ValuesOf(t.value, total, c.inner.rest), c.offsets)
  {
    hide Ascending, LastOf, MapRows;
  }

  lemma {:induction false} MapDecoded(mem: Memory, data: seq<byte>, pos: nat, t: ColumnType, rows: nat, c: Column, at: nat,
                   keys: seq<Value>, values: seq<Value>)
    requires pos <= at <= |data| && t.Map? && rows <= mem.values && c.Nested? && |Wire(c)| == at - pos + |Wire(c.inner)|
    requires DecodeOffsets(data, pos, rows) == Done(c.offsets, at) && AllUtf8(c) == AllUtf8(c.inner)
    requires DecodeEntries(mem, data, at, t.key, t.value, LastOffset(c.offsets))
          == if AllUtf8(c.inner) then Done((keys, values), at + |Wire(c.inner)|) else Failed(BadUtf8)
    requires Ascending(0, c.offsets) && LastOf(0, c.offsets) <= |keys| && LastOf(0, c.offsets) <= |values|
    requires SlicePairs(keys, values, c.offsets) == Some(MapRows(keys, values, c.offsets))
    ensures ReadsAs(Decode(mem, data, pos, t, rows), pos, c, MapRows(keys, values, c.offsets))
  {
    hide DecodeOffsets, DecodeEntries, SlicePairs, MapRows, LastOffset, Ascending, LastOf, Wire, AllUtf8;
  }

  /** Keys and values that are read as they should be, together. */
  lemma {:induction false} EntriesDecoded(mem: Memory, data: seq<byte>, at: nat, k: ColumnType, v: ColumnType, total: nat, c: Column,
                       keys: seq<Value>, values: seq<Value>)
    requires c.Join? && at + |Wire(c.first)| <= |data|
    requires ReadsAs(Decode(mem, data, at, k, total), at, c.first, keys)
    requires ReadsAs(Decode(mem, data, at + |Wire(c.first)|, v, total), at + |Wire(c.first)|, c.rest, values)
    ensures DecodeEntries(mem, data, at, k, v, total)
         == if AllUtf8(c) then Done((keys, values), at + |Wire(c)|) else Failed(BadUtf8)
  {
    hide Decode;
  }

  lemma {:induction false} TupleReads(mem: Memory, data: seq<byte>, pos: nat, t: ColumnType, rows: nat, c: Column)
    requires Roomy(mem, rows) && t.Tuple? && Decodable(t) && rows != 0 && FitsData(t, rows, c) && Occurs(data, pos, Wire(c))
    ensures ReadsAs(Decode(mem, data, pos, t, rows), pos, c, ValuesOf(t, rows, c))
    decreases c, TypeSize(t), 1
  {
    hide TupleRows, RecordRows, Occurs;
    ElemsRead(mem, data, pos, t.elems, rows, c);
    RecordsAre(ColumnsOf(t.elems, rows, c), rows);
  }

  lemma {:induction false} ElemsRead(mem: Memory, data: seq<byte>, pos: nat, ts: seq<ColumnType>, rows: nat, c: Column)
    requires Roomy(mem, rows) && AllDecodable(ts) && FitsDataElems(ts, rows, c) && Occurs(data, pos, Wire(c))
    ensures DecodeAll(mem, data, pos, ts, Same(|ts|, rows))
         == if AllUtf8(c) then Done(ColumnsOf(ts, rows, c), pos + |Wire(c)|) else Failed(BadUtf8)
    decreases c, 0, 0
  {
    hide Decode, ValuesOf, FitsData, Occurs;
    if ts != [] {
      JoinParts(data, pos, c);
      DecodeReads(mem, data, pos, ts[0], rows, c.first);
      assert Same(|ts|, rows)[1..] == Same(|ts[1..]|, rows);
      ElemsRead(mem, data, pos + |Wire(c.first)|, ts[1..], rows, c.rest);
    }
  }

  /** Whatever the skipper accepts, the decoder reads to the same end, as the
      values of a column that stands there. */
  lemma TwoParsersAgree(mem: Memory, data: seq<byte>, pos: nat, t: ColumnType, rows: nat) returns (c: Column)
    requires pos <= |data| && Roomy(mem, rows) && Decodable(t) && SkipData(data, pos, t, rows).Ok?
    ensures FitsData(t, rows, c) && Occurs(data, pos, Wire(c))
    ensures Decode(mem, data, pos, t, rows)
         == if AllUtf8(c) then Done(ValuesOf(t, rows, c), SkipData(data, pos, t, rows).value) else Failed(BadUtf8)
  {
    hide SkipData, Decode, FitsData, ValuesOf, Occurs, Wire;
    c := DataSound(data, pos, t, rows);
    DecodeReads(mem, data, pos, t, rows, c);
  }
}
