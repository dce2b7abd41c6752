/** The value decoder of `shared/dynamic_variant.rs`: what it returns, where it
    stops, and where it would abort. */
module VariantDecode {
  import opened Bytes
  import opened Varint
  import Utf8
  import opened ColumnTypes
  import opened SkipSpec

  /** A decoded value. Fixed-width values keep the bytes of their cell together
      with the type that says how to read them. */
  datatype Value =
    | Null
    | Cell(of: ColumnType, bytes: seq<byte>)
    | Text(of: ColumnType, text: string)
    | Blob(bytes: seq<byte>)
    | List(items: seq<Value>)
    | Pairs(entries: seq<(Value, Value)>)
    | Record(fields: seq<Value>)
    | Opaque(of: ColumnType, bytes: seq<byte>)

  /** The largest counts for which a vector of values and a vector of typed rows
      can be allocated. Above them `with_capacity` and `vec!` panic or abort. */
  datatype Memory = Memory(values: nat, rows: nat)

  /** The result of a decoder: a value and the position behind it, an error, or a
      panic: a slice whose start lies behind its end, or a vector that cannot be
      allocated. */
  datatype Outcome<+T> = Done(value: T, end: nat) | Failed(error: Error) | Panicked {
    predicate IsFailure() {
      !Done?
    }

    function PropagateFailure<U>(): Outcome<U>
      requires !Done?
    {
      if Failed? then Failed(error) else Panicked
    }

    function Extract(): (T, nat)
      requires Done?
    {
      (value, end)
    }
  }

  function Lift<T>(r: Result<(T, nat)>): (o: Outcome<T>)
  {
    if r.Ok? then Done(r.value.0, r.value.1) else Failed(r.error)
  }

  // --------------------------------------------------------------------------
  // Leaves
  // --------------------------------------------------------------------------

  /** How the decoder treats a type that contains no other type. */
  datatype Kind = FixedKind(width: nat) | TextKind | BlobKind(size: nat) | NullKind | RestKind

  predicate IsLeaf(t: ColumnType)
  {
    !(t.Nullable? || t.Array? || t.Map? || t.Tuple? || t.LowCardinality? || t.Variant?)
  }

  function KindOf(t: ColumnType): (k: Kind)
    requires IsLeaf(t)
    ensures k.FixedKind? ==> k.width > 0
  {
    match t
    case Bool | UInt8 | Int8 | Enum8 => FixedKind(1)
    case UInt16 | Int16 | Date | Enum16 => FixedKind(2)
    case UInt32 | Int32 | Float32 | Date32 | DateTime | Time | IPv4 => FixedKind(4)
    case UInt64 | Int64 | Float64 => FixedKind(8)
    case DateTime64(_) => FixedKind(8)
    case Time64(_) => FixedKind(8)
    case UInt128 | Int128 | UUID | IPv6 => FixedKind(16)
    case UInt256 | Int256 => FixedKind(32)
    case Decimal(p, _) =>
      if 1 <= p <= 9 then FixedKind(4)
      else if 10 <= p <= 18 then FixedKind(8)
      else if 19 <= p <= 38 then FixedKind(16)
      else if 39 <= p <= 76 then FixedKind(32)
      else RestKind
    case String | JSON => TextKind
    case Nothing => NullKind
    case FixedString(n) => BlobKind(n)
    case AggregateFunction | SimpleAggregateFunction => RestKind
    case Dynamic | Point | Ring | Polygon | MultiPolygon => RestKind
    case Other(_) => RestKind
  }

  /** `chunks_exact(width)`, each chunk a value. */
  function CellsOf(t: ColumnType, bytes: seq<byte>, width: nat): (values: seq<Value>)
    requires width > 0
  {
    if |bytes| < width then [] else [Cell(t, bytes[..width])] + CellsOf(t, bytes[width..], width)
  }

  /** `decode_fixed`. */
  function DecodeCells(data: seq<byte>, pos: nat, t: ColumnType, width: nat, rows: nat): (o: Outcome<seq<Value>>)
    requires width > 0
  {
    if pos + rows * width > |data| then Failed(Truncated)
    else Done(CellsOf(t, data[pos..pos + rows * width], width), pos + rows * width)
  }

  /** `parse_string_checked` for each row. */
  function DecodeTexts(data: seq<byte>, pos: nat, t: ColumnType, rows: nat): (o: Outcome<seq<Value>>)
    decreases rows
  {
    if rows == 0 then Done([], pos)
    else
      var (n, p) :- Lift(CheckedVarintAt(data, pos));
      if p + n > |data| then Failed(Truncated)
      else
        match Utf8.Decode(data[p..p + n])
        case None => Failed(BadUtf8)
        case Some(text) =>
          var (rest, end) :- DecodeTexts(data, p + n, t, rows - 1);
          Done([Text(t, text)] + rest, end)
  }

  function DecodeBlobs(data: seq<byte>, pos: nat, size: nat, rows: nat): (o: Outcome<seq<Value>>)
    decreases rows
  {
    if rows == 0 then Done([], pos)
    else if pos + size > |data| then Failed(Truncated)
    else
      var (rest, end) :- DecodeBlobs(data, pos + size, size, rows - 1);
      Done([Blob(data[pos..pos + size])] + rest, end)
  }

  function Repeat(v: Value, rows: nat): (values: seq<Value>)
    ensures |values| == rows
  {
    seq(rows, i => v)
  }

  /** Types outside the decoder's table take everything up to the end. */
  function DecodeLeaf(data: seq<byte>, pos: nat, t: ColumnType, rows: nat): (o: Outcome<seq<Value>>)
    requires IsLeaf(t) && pos <= |data|
  {
    match KindOf(t)
    case FixedKind(width) => DecodeCells(data, pos, t, width, rows)
    case TextKind => DecodeTexts(data, pos, t, rows)
    case BlobKind(size) => DecodeBlobs(data, pos, size, rows)
    case NullKind => Done(Repeat(Null, rows), pos)
    case RestKind => Done(Repeat(Opaque(t, data[pos..]), rows), |data|)
  }

  // --------------------------------------------------------------------------
  // Rows of nested columns
  // --------------------------------------------------------------------------

  /** `parse_offsets`: neither capped nor checked for order. */
  function DecodeOffsets(data: seq<byte>, pos: nat, rows: nat): (o: Outcome<seq<nat>>)
    decreases rows
  {
    if rows == 0 then Done([], pos)
    else
      var (v, p) :- Lift(U64At(data, pos));
      var (rest, end) :- DecodeOffsets(data, p, rows - 1);
      Done([v] + rest, end)
  }

  function LastOffset(offsets: seq<nat>): (total: nat)
  {
    if offsets == [] then 0 else offsets[|offsets| - 1]
  }

  /** One slice per offset, each starting where the one before ended; nothing
      when some slice would start behind its end. */
  function SliceRows(values: seq<Value>, offsets: seq<nat>, prev: nat): (r: Option<seq<seq<Value>>>)
    decreases |offsets|
  {
    if offsets == [] then Some([])
    else
      var end := Min(offsets[0], |values|);
      if prev > end then None
      else
        match SliceRows(values, offsets[1..], end)
        case None => None
        case Some(rest) => Some([values[prev..end]] + rest)
  }

  function MaskRows(nulls: seq<byte>, values: seq<Value>): (rows: seq<Value>)
    requires |nulls| == |values|
    ensures |rows| == |values|
  {
    seq(|values|, i requires 0 <= i < |values| => if nulls[i] != 0 then Null else values[i])
  }

  function ListRows(slices: seq<seq<Value>>): (rows: seq<Value>)
    ensures |rows| == |slices|
  {
    seq(|slices|, i requires 0 <= i < |slices| => List(slices[i]))
  }

  function ZipPairs(keys: seq<Value>, values: seq<Value>): (entries: seq<(Value, Value)>)
  {
    if keys == [] || values == [] then [] else [(keys[0], values[0])] + ZipPairs(keys[1..], values[1..])
  }

  function PairRows(keys: seq<seq<Value>>, values: seq<seq<Value>>): (rows: seq<Value>)
    requires |keys| == |values|
    ensures |rows| == |keys|
  {
    seq(|keys|, i requires 0 <= i < |keys| => Pairs(ZipPairs(keys[i], values[i])))
  }

  /** The entries of every Map row. */
  function SlicePairs(keys: seq<Value>, values: seq<Value>, offsets: seq<nat>): (r: Option<seq<Value>>)
    ensures r.Some? ==> |r.value| == |offsets|
  {
    SliceCount(keys, offsets, 0);
    SliceCount(values, offsets, 0);
    var ks, vs := SliceRows(keys, offsets, 0), SliceRows(values, offsets, 0);
    if ks.None? || vs.None? then None else Some(PairRows(ks.value, vs.value))
  }

  /** The same row count for each of `n` columns. */
  function Same(n: nat, rows: nat): (counts: seq<nat>)
    ensures |counts| == n && forall i :: 0 <= i < n ==> counts[i] == rows
  {
    seq(n, i => rows)
  }

  /** The `row`-th value of every column that has one. */
  function Across(columns: seq<seq<Value>>, row: nat): (fields: seq<Value>)
  {
    if columns == [] then []
    else (if row < |columns[0]| then [columns[0][row]] else []) + Across(columns[1..], row)
  }

  function RecordRows(columns: seq<seq<Value>>, rows: nat): (values: seq<Value>)
    ensures |values| == rows
  {
    seq(rows, i requires 0 <= i < rows => Record(Across(columns, i)))
  }

  // --------------------------------------------------------------------------
  // Discriminated rows
  // --------------------------------------------------------------------------

  /** A row of a Variant or Dynamic column: NULL, or a type index and a value. */
  type Row = Option<(nat, Value)>

  /** Gives row `i` the next unused value of the subcolumn it names. Rows that
      name no subcolumn are NULL. */
  function Scatter(discs: seq<nat>, columns: seq<seq<Value>>): (r: Result<seq<Row>>)
    ensures r.Ok? ==> |r.value| == |discs|
  {
    if discs == [] then Ok([])
    else
      var last := |discs| - 1;
      var rows :- Scatter(discs[..last], columns);
      var t := discs[last];
      if t >= |columns| then Ok(rows + [None])
      else if CountOf(discs[..last], t) >= |columns[t]| then Err(RowOutOfBounds)
      else Ok(rows + [Some((t, columns[t][CountOf(discs[..last], t)]))])
  }

  function RowValue(r: Row): (v: Value)
  {
    if r.Some? then r.value.1 else Null
  }

  function RowValues(rows: seq<Row>): (values: seq<Value>)
    ensures |values| == |rows|
  {
    seq(|rows|, i requires 0 <= i < |rows| => RowValue(rows[i]))
  }

  /** A compact granule: every row has the one type, missing values are NULL. */
  function CompactRows(t: nat, values: seq<Value>, rows: nat): (out: seq<Row>)
    ensures |out| == rows
  {
    seq(rows, i requires 0 <= i < rows => Some((t, if i < |values| then values[i] else Null)))
  }

  function FromScatter(r: Result<seq<Row>>, end: nat): (o: Outcome<seq<Row>>)
  {
    if r.Ok? then Done(r.value, end) else Failed(r.error)
  }

  // --------------------------------------------------------------------------
  // The decoder
  // --------------------------------------------------------------------------

  /** `decode_column_values`, which allocates for all rows before it reads any. */
  function Decode(mem: Memory, data: seq<byte>, pos: nat, t: ColumnType, rows: nat): (o: Outcome<seq<Value>>)
    requires pos <= |data|
    ensures o.Done? ==> |o.value| == rows && pos <= o.end <= |data|
    decreases TypeSize(t), 1
  {
    if rows > mem.values then Panicked
    else if t.Nullable? then DecodeNullable(mem, data, pos, t.inner, rows)
    else if t.Array? then DecodeArray(mem, data, pos, t.inner, rows)
    else if t.Map? then DecodeMap(mem, data, pos, t.key, t.value, rows)
    else if t.Tuple? then
      var (columns, end) :- DecodeAll(mem, data, pos, t.elems, Same(|t.elems|, rows));
      Done(RecordRows(columns, rows), end)
    else if t.LowCardinality? then Decode(mem, data, pos, t.inner, rows)
    else if t.Variant? then
      var (out, end) :- DecodeVariant(mem, data, pos, t.types, rows);
      Done(RowValues(out), end)
    else
      LeafCount(data, pos, t, rows);
      DecodeLeaf(data, pos, t, rows)
  }

  function DecodeNullable(mem: Memory, data: seq<byte>, pos: nat, t: ColumnType, rows: nat): (o: Outcome<seq<Value>>)
    requires pos <= |data|
    ensures o.Done? ==> |o.value| == rows && pos <= o.end <= |data|
    decreases TypeSize(t), 2
  {
    if pos + rows > |data| then Failed(Truncated)
    else
      var (values, end) :- Decode(mem, data, pos + rows, t, rows);
      Done(MaskRows(data[pos..pos + rows], values), end)
  }

  function DecodeArray(mem: Memory, data: seq<byte>, pos: nat, t: ColumnType, rows: nat): (o: Outcome<seq<Value>>)
    requires pos <= |data|
    ensures o.Done? ==> |o.value| == rows && pos <= o.end <= |data|
    decreases TypeSize(t), 2
  {
    OffsetsCount(data, pos, rows);
    var (offsets, p) :- DecodeOffsets(data, pos, rows);
    var (values, end) :- Decode(mem, data, p, t, LastOffset(offsets));
    SliceCount(values, offsets, 0);
    match SliceRows(values, offsets, 0)
    case None => Panicked
    case Some(slices) => Done(ListRows(slices), end)
  }

  function DecodeMap(mem: Memory, data: seq<byte>, pos: nat, k: ColumnType, v: ColumnType, rows: nat): (o: Outcome<seq<Value>>)
    requires pos <= |data|
    ensures o.Done? ==> |o.value| == rows && pos <= o.end <= |data|
    decreases TypeSize(k) + TypeSize(v), 3
  {
    OffsetsCount(data, pos, rows);
    var (offsets, p) :- DecodeOffsets(data, pos, rows);
    var (entries, end) :- DecodeEntries(mem, data, p, k, v, LastOffset(offsets));
    match SlicePairs(entries.0, entries.1, offsets)
    case None => Panicked
    case Some(out) => Done(out, end)
  }

  /** The keys, then the values. */
  function DecodeEntries(mem: Memory, data: seq<byte>, pos: nat, k: ColumnType, v: ColumnType, total: nat): (o: Outcome<(seq<Value>, seq<Value>)>)
    requires pos <= |data|
    ensures o.Done? ==> |o.value.0| == |o.value.1| == total && pos <= o.end <= |data|
    decreases TypeSize(k) + TypeSize(v), 2
  {
    var (keys, p) :- Decode(mem, data, pos, k, total);
    var (values, end) :- Decode(mem, data, p, v, total);
    Done((keys, values), end)
  }

  /** One column per type, one after the other, each for its own row count. */
  function DecodeAll(mem: Memory, data: seq<byte>, pos: nat, ts: seq<ColumnType>, counts: seq<nat>): (o: Outcome<seq<seq<Value>>>)
    requires pos <= |data| && |counts| == |ts|
    ensures o.Done? ==> |o.value| == |ts| && pos <= o.end <= |data|
    ensures o.Done? ==> forall i :: 0 <= i < |ts| ==> |o.value[i]| == counts[i]
    decreases TypesSize(ts), 0, 0
  {
    if ts == [] then Done([], pos)
    else
      var (first, p) :- Decode(mem, data, pos, ts[0], counts[0]);
      var (rest, end) :- DecodeAll(mem, data, p, ts[1..], counts[1..]);
      Done([first] + rest, end)
  }

  /** `parse_variant_values`. */
  function DecodeVariant(mem: Memory, data: seq<byte>, pos: nat, ts: seq<ColumnType>, rows: nat): (o: Outcome<seq<Row>>)
    requires pos <= |data|
    ensures o.Done? ==> |o.value| == rows && pos <= o.end <= |data|
    decreases TypesSize(ts), 1
  {
    var (mode, p) :- Lift(U64At(data, pos));
    if mode == 0 then
      if p + rows > |data| then Failed(Truncated)
      else DecodeScattered(mem, data, p + rows, ts, data[p..p + rows])
    else if mode == 1 then DecodeCompact(mem, data, p, ts, rows)
    else Failed(UnknownVersion)
  }

  /** `parse_variant_basic` and `materialize_dynamic_rows_usize` behind the
      discriminators. */
  function DecodeScattered(mem: Memory, data: seq<byte>, pos: nat, ts: seq<ColumnType>, discs: seq<nat>): (o: Outcome<seq<Row>>)
    requires pos <= |data|
    ensures o.Done? ==> |o.value| == |discs| && pos <= o.end <= |data|
    decreases TypesSize(ts), 0, 1
  {
    var (columns, end) :- DecodeAll(mem, data, pos, ts, Counts(discs, |ts|));
    if |discs| > mem.rows then Panicked else FromScatter(Scatter(discs, columns), end)
  }

  /** `parse_variant_compact`. */
  function DecodeCompact(mem: Memory, data: seq<byte>, pos: nat, ts: seq<ColumnType>, rows: nat): (o: Outcome<seq<Row>>)
    requires pos <= |data|
    ensures o.Done? ==> |o.value| == rows && pos <= o.end <= |data|
    decreases TypesSize(ts), 0, 1
  {
    var (t, p) :- Lift(U64At(data, pos));
    var (compact, q) :- Lift(U64At(data, p));
    if t >= |ts| then
      if rows > mem.rows then Panicked else Done(seq(rows, i => None), q)
    else
      MemberSize(ts, t);
      var (values, end) :- Decode(mem, data, q, ts[t], compact);
      if rows > mem.rows then Panicked else Done(CompactRows(t, values, rows), end)
  }

  /** `parse_flat_dynamic_values`: the type count marks NULL. */
  function DecodeFlat(mem: Memory, data: seq<byte>, pos: nat, ts: seq<ColumnType>, rows: nat): (o: Outcome<seq<Row>>)
    requires pos <= |data|
    ensures o.Done? ==> |o.value| == rows && pos <= o.end <= |data|
  {
    var len := rows * DiscWidth(|ts|);
    if pos + len > |data| then Failed(Truncated)
    else
      var discs := Chunks(data[pos..pos + len], DiscWidth(|ts|));
      ChunksCount(data[pos..pos + len], DiscWidth(|ts|), rows);
      if AllDiscs(discs, |ts|, |ts|) then DecodeScattered(mem, data, pos + len, ts, discs) else Failed(BadDiscriminator)
  }

  /** `parse_deprecated_dynamic_values`: 255 marks NULL, whatever the type count. */
  function DecodeDeprecated(mem: Memory, data: seq<byte>, pos: nat, ts: seq<ColumnType>, rows: nat): (o: Outcome<seq<Row>>)
    requires pos <= |data|
    ensures o.Done? ==> |o.value| == rows && pos <= o.end <= |data|
  {
    if pos + rows > |data| then Failed(Truncated)
    else
      var discs := data[pos..pos + rows];
      if AllDiscs(discs, |ts|, 255) then DecodeScattered(mem, data, pos + rows, ts, Widen(discs, |ts|))
      else Failed(BadDiscriminator)
  }

  function Widen(discs: seq<nat>, types: nat): (wide: seq<nat>)
    ensures |wide| == |discs|
  {
    seq(|discs|, i requires 0 <= i < |discs| => if discs[i] == 255 then types else discs[i])
  }

  lemma {:induction false} ChunksCount(s: seq<byte>, width: nat, rows: nat)
    requires width > 0 && |s| == rows * width
    ensures |Chunks(s, width)| == rows
    decreases rows
  {
    if rows > 0 {
      assert |s| - width == (rows - 1) * width;
      ChunksCount(s[width..], width, rows - 1);
    }
  }

  // --------------------------------------------------------------------------
  // Every decoder returns one value per row
  // --------------------------------------------------------------------------

  lemma {:induction false} CellsCount(t: ColumnType, bytes: seq<byte>, width: nat, rows: nat)
    requires width > 0 && |bytes| == rows * width
    ensures |CellsOf(t, bytes, width)| == rows
    decreases rows
  {
    if rows > 0 {
      assert |bytes| - width == (rows - 1) * width;
      CellsCount(t, bytes[width..], width, rows - 1);
    }
  }

  lemma {:induction false} TextsCount(data: seq<byte>, pos: nat, t: ColumnType, rows: nat)
    requires pos <= |data| && DecodeTexts(data, pos, t, rows).Done?
    ensures var o := DecodeTexts(data, pos, t, rows); |o.value| == rows && pos <= o.end <= |data|
    decreases rows
  {
    hide Utf8.Decode, VarintAt, CheckedVarintAt;
    if rows > 0 {
      var (n, p) := VarintAt(data, pos).value;
      TextsCount(data, p + n, t, rows - 1);
    }
  }

  lemma {:induction false} BlobsCount(data: seq<byte>, pos: nat, size: nat, rows: nat)
    requires pos <= |data| && DecodeBlobs(data, pos, size, rows).Done?
    ensures var o := DecodeBlobs(data, pos, size, rows); |o.value| == rows && pos <= o.end <= |data|
    decreases rows
  {
    if rows > 0 {
      BlobsCount(data, pos + size, size, rows - 1);
    }
  }

  lemma LeafCount(data: seq<byte>, pos: nat, t: ColumnType, rows: nat)
    requires IsLeaf(t) && pos <= |data|
    ensures var o := DecodeLeaf(data, pos, t, rows);
            o.Done? ==> |o.value| == rows && pos <= o.end <= |data|
  {
    var o := DecodeLeaf(data, pos, t, rows);
    if o.Done? {
      match KindOf(t)
      case FixedKind(width) => CellsCount(t, data[pos..pos + rows * width], width, rows);
      case TextKind => TextsCount(data, pos, t, rows);
      case BlobKind(size) => BlobsCount(data, pos, size, rows);
      case _ =>
    }
  }

  lemma {:induction false} OffsetsCount(data: seq<byte>, pos: nat, rows: nat)
    requires pos <= |data|
    ensures var o := DecodeOffsets(data, pos, rows);
            o.Done? ==> |o.value| == rows && o.end == pos + 8 * rows <= |data|
    decreases rows
  {
    if rows > 0 && pos + 8 <= |data| {
      OffsetsCount(data, pos + 8, rows - 1);
    }
  }

  lemma {:induction false} SliceCount(values: seq<Value>, offsets: seq<nat>, prev: nat)
    ensures var r := SliceRows(values, offsets, prev); r.Some? ==> |r.value| == |offsets|
    decreases |offsets|
  {
    if offsets != [] {
      SliceCount(values, offsets[1..], Min(offsets[0], |values|));
    }
  }
}
