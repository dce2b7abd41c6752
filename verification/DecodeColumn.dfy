/** The decoding loops of `shared/dynamic_variant.rs`, each proved to compute
    its specification in VariantDecode. */
module DecodeColumn {
  import opened Bytes
  import opened Varint
  import Utf8
  import opened ColumnTypes
  import opened SkipSpec
  import opened SkipColumn
  import opened VariantDecode

  /** Values already decoded, in front of those still to come. */
  function Prepend<T>(done: seq<T>, o: Outcome<seq<T>>): (r: Outcome<seq<T>>)
    ensures done == [] ==> r == o
    ensures o.Done? && o.value == [] ==> r == Done(done, o.end)
  {
    if o.Done? then
      assert done == [] ==> done + o.value == o.value;
      assert o.value == [] ==> done + o.value == done;
      Done(done + o.value, o.end)
    else o
  }

  lemma PrependNext<T>(done: seq<T>, x: T, o: Outcome<seq<T>>)
    ensures Prepend(done, Prepend([x], o)) == Prepend(done + [x], o)
  {
    if o.Done? {
      assert done + ([x] + o.value) == done + [x] + o.value;
    }
  }

  // --------------------------------------------------------------------------
  // Leaves
  // --------------------------------------------------------------------------

  /** `decode_fixed` and the one-byte loops. */
  method DecodeFixed(data: seq<byte>, pos: nat, t: ColumnType, width: nat, rows: nat) returns (o: Outcome<seq<Value>>)
    requires width > 0
    ensures o == DecodeCells(data, pos, t, width, rows)
  {
    var len := rows * width;
    if pos + len > |data| {
      return Failed(Truncated);
    }
    var bytes := data[pos..pos + len];
    var out: seq<Value>, rest := [], bytes;
    while |rest| >= width
      invariant CellsOf(t, bytes, width) == out + CellsOf(t, rest, width)
      decreases |rest|
    {
      assert out + ([Cell(t, rest[..width])] + CellsOf(t, rest[width..], width))
          == out + [Cell(t, rest[..width])] + CellsOf(t, rest[width..], width);
      out, rest := out + [Cell(t, rest[..width])], rest[width..];
    }
    assert out + [] == out;
    return Done(out, pos + len);
  }

  method DecodeStringRows(data: seq<byte>, start: nat, t: ColumnType, rows: nat) returns (o: Outcome<seq<Value>>)
    ensures o == DecodeTexts(data, start, t, rows)
  {
    hide CheckedVarintAt, Utf8.Decode, DecodeTexts, Prepend;
    var out: seq<Value>, pos: nat := [], start;
    for i := 0 to rows
      invariant DecodeTexts(data, start, t, rows) == Prepend(out, DecodeTexts(data, pos, t, rows - i))
    {
      NextText(data, pos, t, rows - i, out);
      var n := ParseVarintChecked(data, pos);
      if n.Err? { return Failed(n.error); }
      var p := n.value.1;
      if p + n.value.0 > |data| { return Failed(Truncated); }
      var text := Utf8.Decode(data[p..p + n.value.0]);
      if text.None? { return Failed(BadUtf8); }
      PrependNext(out, Text(t, text.value), DecodeTexts(data, p + n.value.0, t, rows - i - 1));
      out, pos := out + [Text(t, text.value)], p + n.value.0;
    }
    NoText(data, pos, t);
    return Done(out, pos);
  }

  lemma NextText(data: seq<byte>, pos: nat, t: ColumnType, rows: nat, out: seq<Value>)
    requires rows > 0
    ensures var n := CheckedVarintAt(data, pos);
            var o := Prepend(out, DecodeTexts(data, pos, t, rows));
            if n.Err? then o == Failed(n.error)
            else if n.value.1 + n.value.0 > |data| then o == Failed(Truncated)
            else
              var text := Utf8.Decode(data[n.value.1..n.value.1 + n.value.0]);
              if text.None? then o == Failed(BadUtf8)
              else o == Prepend(out, Prepend([Text(t, text.value)], DecodeTexts(data, n.value.1 + n.value.0, t, rows - 1)))
  {
    hide CheckedVarintAt, Utf8.Decode;
  }

  lemma NoText(data: seq<byte>, pos: nat, t: ColumnType)
    ensures DecodeTexts(data, pos, t, 0) == Done([], pos)
  {
  }

  method DecodeFixedStrings(data: seq<byte>, start: nat, size: nat, rows: nat) returns (o: Outcome<seq<Value>>)
    ensures o == DecodeBlobs(data, start, size, rows)
  {
    var out: seq<Value>, pos: nat := [], start;
    for i := 0 to rows
      invariant DecodeBlobs(data, start, size, rows) == Prepend(out, DecodeBlobs(data, pos, size, rows - i))
    {
      if pos + size > |data| { return Failed(Truncated); }
      PrependNext(out, Blob(data[pos..pos + size]), DecodeBlobs(data, pos + size, size, rows - i - 1));
      out, pos := out + [Blob(data[pos..pos + size])], pos + size;
    }
    return Done(out, pos);
  }

  method DecodeLeafRows(data: seq<byte>, pos: nat, t: ColumnType, rows: nat) returns (o: Outcome<seq<Value>>)
    requires IsLeaf(t) && pos <= |data|
    ensures o == DecodeLeaf(data, pos, t, rows)
  {
    hide KindOf, DecodeCells, DecodeTexts, DecodeBlobs;
    match KindOf(t)
    case FixedKind(width) => o := DecodeFixed(data, pos, t, width, rows);
    case TextKind => o := DecodeStringRows(data, pos, t, rows);
    case BlobKind(size) => o := DecodeFixedStrings(data, pos, size, rows);
    case NullKind => o := Done(Repeat(Null, rows), pos);
    case RestKind => o := Done(Repeat(Opaque(t, data[pos..]), rows), |data|);
  }

  // --------------------------------------------------------------------------
  // Nested rows
  // --------------------------------------------------------------------------

  method ParseOffsets(data: seq<byte>, start: nat, rows: nat) returns (o: Outcome<seq<nat>>)
    ensures o == DecodeOffsets(data, start, rows)
  {
    hide U64At;
    var offsets: seq<nat>, pos: nat := [], start;
    for i := 0 to rows
      invariant DecodeOffsets(data, start, rows) == Prepend(offsets, DecodeOffsets(data, pos, rows - i))
    {
      var v := U64At(data, pos);
      if v.Err? { return Failed(v.error); }
      PrependNext(offsets, v.value.0, DecodeOffsets(data, v.value.1, rows - i - 1));
      offsets, pos := offsets + [v.value.0], v.value.1;
    }
    return Done(offsets, pos);
  }

  function PrependSome<T>(done: seq<T>, o: Option<seq<T>>): (r: Option<seq<T>>)
    ensures done == [] ==> r == o
    ensures o == Some([]) ==> r == Some(done)
  {
    match o
    case None => None
    case Some(rest) =>
      assert done == [] ==> done + rest == rest;
      assert rest == [] ==> done + rest == done;
      Some(done + rest)
  }

  lemma PrependSomeNext<T>(done: seq<T>, x: T, o: Option<seq<T>>)
    ensures PrependSome(done, PrependSome([x], o)) == PrependSome(done + [x], o)
  {
    if o.Some? {
      assert done + ([x] + o.value) == done + [x] + o.value;
    }
  }

  /** The slicing loop; `None` where the slice would panic. */
  method SliceAll(values: seq<Value>, offsets: seq<nat>) returns (r: Option<seq<seq<Value>>>)
    ensures r == SliceRows(values, offsets, 0)
  {
    var out: seq<seq<Value>>, prev: nat := [], 0;
    assert offsets[0..] == offsets;
    for i := 0 to |offsets|
      invariant SliceRows(values, offsets, 0) == PrependSome(out, SliceRows(values, offsets[i..], prev))
    {
      assert offsets[i..][1..] == offsets[i + 1..];
      var end := Min(offsets[i], |values|);
      if prev > end { return None; }
      PrependSomeNext(out, values[prev..end], SliceRows(values, offsets[i + 1..], end));
      out, prev := out + [values[prev..end]], end;
    }
    return Some(out);
  }

  method SliceEntries(keys: seq<Value>, values: seq<Value>, offsets: seq<nat>) returns (r: Option<seq<Value>>)
    ensures r == SlicePairs(keys, values, offsets)
  {
    hide SliceRows, PairRows;
    var ks := SliceAll(keys, offsets);
    var vs := SliceAll(values, offsets);
    if ks.None? || vs.None? { return None; }
    SliceCount(keys, offsets, 0);
    SliceCount(values, offsets, 0);
    return Some(PairRows(ks.value, vs.value));
  }

  /** Per row, the field of every column that has one. */
  method CollectAcross(columns: seq<seq<Value>>, row: nat) returns (fields: seq<Value>)
    ensures fields == Across(columns, row)
  {
    hide Across;
    fields := [];
    AcrossAll(columns, row);
    for j := 0 to |columns|
      invariant Across(columns, row) == fields + Across(columns[j..], row)
    {
      AcrossNext(columns, row, j);
      if row < |columns[j]| {
        fields := fields + [columns[j][row]];
      }
    }
  }

  lemma AcrossAll(columns: seq<seq<Value>>, row: nat)
    ensures Across(columns, row) == [] + Across(columns[0..], row) && Across(columns[|columns|..], row) == []
  {
    hide Across;
    assert columns[0..] == columns && columns[|columns|..] == [];
    AcrossNone(row);
  }

  lemma AcrossNone(row: nat)
    ensures Across([], row) == []
  {
  }

  lemma AcrossNext(columns: seq<seq<Value>>, row: nat, j: nat)
    requires j < |columns|
    ensures Across(columns[j..], row)
         == (if row < |columns[j]| then [columns[j][row]] else []) + Across(columns[j + 1..], row)
  {
    assert columns[j..][0] == columns[j] && columns[j..][1..] == columns[j + 1..];
  }

  method AssembleTuples(columns: seq<seq<Value>>, rows: nat) returns (out: seq<Value>)
    ensures out == RecordRows(columns, rows)
  {
    out := [];
    for row := 0 to rows
      invariant |out| == row && forall i :: 0 <= i < row ==> out[i] == Record(Across(columns, i))
    {
      var fields := CollectAcross(columns, row);
      out := out + [Record(fields)];
    }
  }

  // --------------------------------------------------------------------------
  // Scatter
  // --------------------------------------------------------------------------

  lemma {:induction false} ScatterErr(discs: seq<nat>, columns: seq<seq<Value>>, i: nat)
    requires i <= |discs| && Scatter(discs[..i], columns).Err?
    ensures Scatter(discs, columns) == Scatter(discs[..i], columns)
    decreases |discs|
  {
    if i == |discs| {
      assert discs[..i] == discs;
    } else {
      assert discs[..|discs| - 1][..i] == discs[..i];
      ScatterErr(discs[..|discs| - 1], columns, i);
    }
  }

  /** The row loop of `parse_variant_basic` and `materialize_dynamic_rows_usize`:
      one cursor per subcolumn. */
  method ScatterLoop(discs: seq<nat>, columns: seq<seq<Value>>) returns (r: Result<seq<Row>>)
    ensures r == Scatter(discs, columns)
  {
    var cursors := new nat[|columns|](_ => 0);
    var rows: seq<Row> := [];
    for i := 0 to |discs|
      invariant Scatter(discs[..i], columns) == Ok(rows)
      invariant forall t :: 0 <= t < |columns| ==> cursors[t] == CountOf(discs[..i], t)
    {
      assert discs[..i + 1][..i] == discs[..i];
      var t := discs[i];
      if t >= |columns| {
        rows := rows + [None];
      } else {
        var k := cursors[t];
        cursors[t] := k + 1;
        if k >= |columns[t]| {
          ScatterErr(discs, columns, i + 1);
          return Err(RowOutOfBounds);
        }
        rows := rows + [Some((t, columns[t][k]))];
      }
    }
    assert discs[..|discs|] == discs;
    return Ok(rows);
  }

  // --------------------------------------------------------------------------
  // The decoder
  // --------------------------------------------------------------------------

  method DecodeColumnValues(mem: Memory, data: seq<byte>, pos: nat, t: ColumnType, rows: nat) returns (o: Outcome<seq<Value>>)
    requires pos <= |data|
    ensures o == Decode(mem, data, pos, t, rows)
    decreases TypeSize(t), 1
  {
    hide DecodeNullable, DecodeArray, DecodeMap, DecodeAll, DecodeVariant, DecodeLeaf, RecordRows, RowValues;
    if rows > mem.values {
      return Panicked;
    }
    if t.Nullable? {
      o := DecodeNullableRows(mem, data, pos, t.inner, rows);
    } else if t.Array? {
      o := DecodeArrayRows(mem, data, pos, t.inner, rows);
    } else if t.Map? {
      o := DecodeMapRows(mem, data, pos, t, rows);
    } else if t.Tuple? {
      var columns := DecodeEach(mem, data, pos, t.elems, Same(|t.elems|, rows));
      if columns.IsFailure() { return columns.PropagateFailure(); }
      var out := AssembleTuples(columns.value, rows);
      o := Done(out, columns.end);
    } else if t.LowCardinality? {
      o := DecodeColumnValues(mem, data, pos, t.inner, rows);
    } else if t.Variant? {
      var out := ParseVariantValues(mem, data, pos, t.types, rows);
      if out.IsFailure() { return out.PropagateFailure(); }
      o := Done(RowValues(out.value), out.end);
    } else {
      o := DecodeLeafRows(data, pos, t, rows);
    }
  }

  method DecodeNullableRows(mem: Memory, data: seq<byte>, pos: nat, t: ColumnType, rows: nat) returns (o: Outcome<seq<Value>>)
    requires pos <= |data|
    ensures o == DecodeNullable(mem, data, pos, t, rows)
    decreases TypeSize(t), 2
  {
    hide Decode, MaskRows;
    if pos + rows > |data| { return Failed(Truncated); }
    var nulls := data[pos..pos + rows];
    var inner := DecodeColumnValues(mem, data, pos + rows, t, rows);
    if inner.IsFailure() { return inner; }
    var out := MaskLoop(nulls, inner.value);
    return Done(out, inner.end);
  }

  method MaskLoop(nulls: seq<byte>, values: seq<Value>) returns (out: seq<Value>)
    requires |nulls| == |values|
    ensures out == MaskRows(nulls, values)
  {
    out := [];
    for i := 0 to |values|
      invariant |out| == i && forall k :: 0 <= k < i ==> out[k] == if nulls[k] != 0 then Null else values[k]
    {
      out := out + [if nulls[i] != 0 then Null else values[i]];
    }
  }

  method DecodeArrayRows(mem: Memory, data: seq<byte>, pos: nat, t: ColumnType, rows: nat) returns (o: Outcome<seq<Value>>)
    requires pos <= |data|
    ensures o == DecodeArray(mem, data, pos, t, rows)
    decreases TypeSize(t), 2
  {
    hide Decode, DecodeOffsets, SliceRows, LastOffset, ListRows;
    var offsets := ParseOffsets(data, pos, rows);
    if offsets.IsFailure() { return offsets.PropagateFailure(); }
    OffsetsCount(data, pos, rows);
    var inner := DecodeColumnValues(mem, data, offsets.end, t, LastOffset(offsets.value));
    if inner.IsFailure() { return inner; }
    var slices := SliceAll(inner.value, offsets.value);
    if slices.None? { return Panicked; }
    SliceCount(inner.value, offsets.value, 0);
    return Done(ListRows(slices.value), inner.end);
  }

  method DecodeMapRows(mem: Memory, data: seq<byte>, pos: nat, t: ColumnType, rows: nat) returns (o: Outcome<seq<Value>>)
    requires pos <= |data| && t.Map?
    ensures o == DecodeMap(mem, data, pos, t.key, t.value, rows)
    decreases TypeSize(t), 0, 1
  {
    hide DecodeEntries, DecodeOffsets, SlicePairs, LastOffset;
    var offsets := ParseOffsets(data, pos, rows);
    if offsets.IsFailure() { return offsets.PropagateFailure(); }
    OffsetsCount(data, pos, rows);
    var entries := DecodeKeysAndValues(mem, data, offsets.end, t, LastOffset(offsets.value));
    if entries.IsFailure() { return entries.PropagateFailure(); }
    var out := SliceEntries(entries.value.0, entries.value.1, offsets.value);
    if out.None? { return Panicked; }
    return Done(out.value, entries.end);
  }

  method DecodeKeysAndValues(mem: Memory, data: seq<byte>, pos: nat, t: ColumnType, total: nat)
    returns (o: Outcome<(seq<Value>, seq<Value>)>)
    requires pos <= |data| && t.Map?
    ensures o == DecodeEntries(mem, data, pos, t.key, t.value, total)
    decreases TypeSize(t), 0, 0
  {
    hide Decode;
    var keys := DecodeColumnValues(mem, data, pos, t.key, total);
    if keys.IsFailure() { return keys.PropagateFailure(); }
    var values := DecodeColumnValues(mem, data, keys.end, t.value, total);
    if values.IsFailure() { return values.PropagateFailure(); }
    return Done((keys.value, values.value), values.end);
  }

  /** One column per type, in order. */
  method DecodeEach(mem: Memory, data: seq<byte>, start: nat, ts: seq<ColumnType>, counts: seq<nat>) returns (o: Outcome<seq<seq<Value>>>)
    requires start <= |data| && |counts| == |ts|
    ensures o == DecodeAll(mem, data, start, ts, counts)
    decreases TypesSize(ts), 0, 0
  {
    hide Decode;
    var columns: seq<seq<Value>>, pos: nat := [], start;
    assert ts[0..] == ts && counts[0..] == counts;
    for i := 0 to |ts|
      invariant pos <= |data|
      invariant DecodeAll(mem, data, start, ts, counts) == Prepend(columns, DecodeAll(mem, data, pos, ts[i..], counts[i..]))
    {
      MemberSize(ts, i);
      assert ts[i..][1..] == ts[i + 1..] && counts[i..][1..] == counts[i + 1..];
      var column := DecodeColumnValues(mem, data, pos, ts[i], counts[i]);
      if column.IsFailure() { return column.PropagateFailure(); }
      PrependNext(columns, column.value, DecodeAll(mem, data, column.end, ts[i + 1..], counts[i + 1..]));
      columns, pos := columns + [column.value], column.end;
    }
    return Done(columns, pos);
  }

  method ParseVariantValues(mem: Memory, data: seq<byte>, pos: nat, ts: seq<ColumnType>, rows: nat) returns (o: Outcome<seq<Row>>)
    requires pos <= |data|
    ensures o == DecodeVariant(mem, data, pos, ts, rows)
    decreases TypesSize(ts), 1
  {
    hide DecodeScattered, DecodeCompact, U64At;
    var mode := U64At(data, pos);
    if mode.Err? { return Failed(mode.error); }
    var p := mode.value.1;
    if mode.value.0 == 0 {
      if p + rows > |data| { return Failed(Truncated); }
      o := Materialize(mem, data, p + rows, ts, data[p..p + rows]);
    } else if mode.value.0 == 1 {
      o := ParseVariantCompact(mem, data, p, ts, rows);
    } else {
      o := Failed(UnknownVersion);
    }
  }

  /** Counts, subcolumns, rows. */
  method Materialize(mem: Memory, data: seq<byte>, pos: nat, ts: seq<ColumnType>, discs: seq<nat>) returns (o: Outcome<seq<Row>>)
    requires pos <= |data|
    ensures o == DecodeScattered(mem, data, pos, ts, discs)
    decreases TypesSize(ts), 0, 1
  {
    hide DecodeAll, Scatter, Counts;
    var counts := CountDiscriminators(discs, |ts|);
    var columns := DecodeEach(mem, data, pos, ts, counts);
    if columns.IsFailure() { return columns.PropagateFailure(); }
    if |discs| > mem.rows { return Panicked; }
    var rows := ScatterLoop(discs, columns.value);
    o := FromScatter(rows, columns.end);
  }

  method ParseVariantCompact(mem: Memory, data: seq<byte>, pos: nat, ts: seq<ColumnType>, rows: nat) returns (o: Outcome<seq<Row>>)
    requires pos <= |data|
    ensures o == DecodeCompact(mem, data, pos, ts, rows)
    decreases TypesSize(ts), 0, 1
  {
    hide Decode, U64At;
    var disc := U64At(data, pos);
    if disc.Err? { return Failed(disc.error); }
    var compact := U64At(data, disc.value.1);
    if compact.Err? { return Failed(compact.error); }
    var t := disc.value.0;
    if t >= |ts| {
      if rows > mem.rows { return Panicked; }
      return Done(seq(rows, i => None), compact.value.1);
    }
    MemberSize(ts, t);
    var values := DecodeColumnValues(mem, data, compact.value.1, ts[t], compact.value.0);
    if values.IsFailure() { return values.PropagateFailure(); }
    if rows > mem.rows { return Panicked; }
    var out: seq<Row> := [];
    for i := 0 to rows
      invariant |out| == i
      invariant forall k :: 0 <= k < i ==> out[k] == Some((t, if k < |values.value| then values.value[k] else Null))
    {
      out := out + [Some((t, if i < |values.value| then values.value[i] else Null))];
    }
    assert out == CompactRows(t, values.value, rows);
    return Done(out, values.end);
  }

  /** `parse_flat_dynamic_values`. */
  method ParseFlatDynamic(mem: Memory, data: seq<byte>, pos: nat, ts: seq<ColumnType>, rows: nat) returns (o: Outcome<seq<Row>>)
    requires pos <= |data|
    ensures o == DecodeFlat(mem, data, pos, ts, rows)
  {
    hide DecodeScattered, Chunks, DiscWidth;
    var width := DiscWidth(|ts|);
    var len := rows * width;
    if pos + len > |data| { return Failed(Truncated); }
    var discs := ReadDiscriminators(data[pos..pos + len], width, |ts|);
    if discs.Err? { return Failed(discs.error); }
    o := Materialize(mem, data, pos + len, ts, discs.value);
  }

  /** One discriminator per chunk, none above the NULL marker. */
  method ReadDiscriminators(bytes: seq<byte>, width: nat, types: nat) returns (r: Result<seq<nat>>)
    requires width > 0
    ensures var discs := Chunks(bytes, width);
            r == if AllDiscs(discs, types, types) then Ok(discs) else Err(BadDiscriminator)
  {
    hide LeValue;
    var discs: seq<nat>, rest := [], bytes;
    while |rest| >= width
      invariant Chunks(bytes, width) == discs + Chunks(rest, width)
      invariant AllDiscs(discs, types, types)
      decreases |rest|
    {
      var idx := LeValue(rest[..width]);
      assert Chunks(bytes, width) == discs + [idx] + Chunks(rest[width..], width);
      if idx > types {
        assert Chunks(bytes, width)[|discs|] == idx;
        return Err(BadDiscriminator);
      }
      discs, rest := discs + [idx], rest[width..];
    }
    assert Chunks(bytes, width) == discs;
    return Ok(discs);
  }

  /** `parse_deprecated_dynamic_values`. */
  method ParseDeprecatedDynamic(mem: Memory, data: seq<byte>, pos: nat, ts: seq<ColumnType>, rows: nat) returns (o: Outcome<seq<Row>>)
    requires pos <= |data|
    ensures o == DecodeDeprecated(mem, data, pos, ts, rows)
  {
    hide DecodeScattered;
    if pos + rows > |data| { return Failed(Truncated); }
    var discs := data[pos..pos + rows];
    var wide: seq<nat> := [];
    for i := 0 to |discs|
      invariant |wide| == i && AllDiscs(discs[..i], |ts|, 255)
      invariant forall k :: 0 <= k < i ==> wide[k] == if discs[k] == 255 then |ts| else discs[k]
    {
      if discs[i] != 255 && discs[i] >= |ts| {
        assert !AllDiscs(discs, |ts|, 255);
        return Failed(BadDiscriminator);
      }
      wide := wide + [if discs[i] == 255 then |ts| else discs[i]];
    }
    assert discs[..|discs|] == discs && wide == Widen(discs, |ts|);
    o := Materialize(mem, data, pos + rows, ts, wide);
  }
}
