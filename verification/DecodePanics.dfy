/** Where the value decoder panics: offsets that slice out of range, and counts
    from the wire for which no vector can be allocated. */
module DecodePanics {
  import opened Bytes
  import opened ColumnTypes
  import opened SkipSpec
  import opened WireFormat
  import opened FramingSound
  import opened FramingComplete
  import opened VariantDecode
  import opened DecodeAgreement

  /** The slices of `n` values are in range exactly when no offset drops below
      both its predecessor and `n`. */
  ghost predicate Sliceable(offsets: seq<nat>, n: nat)
  {
    forall i :: 0 < i < |offsets| ==> !(offsets[i] < offsets[i - 1] && offsets[i] < n)
  }

  lemma {:induction false} SlicesInRange(values: seq<Value>, offsets: seq<nat>, prev: nat)
    ensures SliceRows(values, offsets, prev).Some?
       <==> Sliceable(offsets, |values|) && (offsets != [] ==> prev <= Min(offsets[0], |values|))
    decreases |offsets|
  {
    if offsets != [] {
      var end, rest := Min(offsets[0], |values|), offsets[1..];
      SlicesInRange(values, rest, end);
      if Sliceable(rest, |values|) && (rest != [] ==> end <= Min(rest[0], |values|)) {
        forall i | 0 < i < |offsets|
          ensures !(offsets[i] < offsets[i - 1] && offsets[i] < |values|)
        {
          assert offsets[i] == rest[i - 1];
          assert i > 1 ==> offsets[i - 1] == rest[i - 2];
        }
      }
      if Sliceable(offsets, |values|) {
        forall i | 0 < i < |rest|
          ensures !(rest[i] < rest[i - 1] && rest[i] < |values|)
        {
          assert rest[i] == offsets[i + 1] && rest[i - 1] == offsets[i];
        }
      }
    }
  }

  /** The offsets in front of a nested column. */
  function OffsetsAt(data: seq<byte>, pos: nat, rows: nat): (offsets: seq<nat>)
    requires pos + 8 * rows <= |data|
    ensures |offsets| == rows
  {
    seq(rows, i requires 0 <= i < rows => LeValue(data[pos + 8 * i..pos + 8 * i + 8]))
  }

  lemma {:induction false} OffsetsAre(data: seq<byte>, pos: nat, rows: nat)
    requires pos <= |data|
    ensures DecodeOffsets(data, pos, rows)
         == if pos + 8 * rows <= |data| then Done(OffsetsAt(data, pos, rows), pos + 8 * rows) else Failed(Truncated)
    decreases rows
  {
    hide LeValue;
    if rows > 0 && pos + 8 <= |data| {
      OffsetsAre(data, pos + 8, rows - 1);
      if pos + 8 * rows <= |data| {
        assert OffsetsAt(data, pos, rows)
            == [LeValue(data[pos..pos + 8])] + OffsetsAt(data, pos + 8, rows - 1);
      }
    }
  }

  /** Behind its offsets the element decoder panics, or it succeeds and some slice
      starts behind its end. */
  ghost predicate SlicingPanics<T>(o: Outcome<T>, offsets: seq<nat>)
  {
    o.Panicked? || (o.Done? && !Sliceable(offsets, LastOffset(offsets)))
  }

  /** The decoder of an Array column panics exactly when there are more rows than
      can be allocated, or the offsets are there and the elements panic, or are
      read and an offset below the total is smaller than the offset before it. */
  lemma ArrayPanics(mem: Memory, data: seq<byte>, pos: nat, t: ColumnType, rows: nat)
    requires pos <= |data|
    ensures Decode(mem, data, pos, Array(t), rows).Panicked? <==>
            || rows > mem.values
            || (&& pos + 8 * rows <= |data|
                && var offsets := OffsetsAt(data, pos, rows);
                   SlicingPanics(Decode(mem, data, pos + 8 * rows, t, LastOffset(offsets)), offsets))
  {
    hide Decode, DecodeArray, OffsetsAt, LastOffset, SlicingPanics;
    if rows > mem.values {
      TooManyRows(mem, data, pos, Array(t), rows);
    } else {
      ArrayDecodes(mem, data, pos, t, rows);
      ArrayRowsPanic(mem, data, pos, t, rows);
    }
  }

  lemma ArrayDecodes(mem: Memory, data: seq<byte>, pos: nat, t: ColumnType, rows: nat)
    requires pos <= |data| && rows <= mem.values
    ensures Decode(mem, data, pos, Array(t), rows) == DecodeArray(mem, data, pos, t, rows)
  {
    hide DecodeArray;
  }

  lemma ArrayRowsPanic(mem: Memory, data: seq<byte>, pos: nat, t: ColumnType, rows: nat)
    requires pos <= |data|
    ensures DecodeArray(mem, data, pos, t, rows).Panicked? <==>
            && pos + 8 * rows <= |data|
            && var offsets := OffsetsAt(data, pos, rows);
               SlicingPanics(Decode(mem, data, pos + 8 * rows, t, LastOffset(offsets)), offsets)
  {
    hide Decode, DecodeOffsets, SliceRows, Sliceable, OffsetsAt, LastOffset;
    OffsetsAre(data, pos, rows);
    if pos + 8 * rows <= |data| {
      var offsets := OffsetsAt(data, pos, rows);
      var inner := Decode(mem, data, pos + 8 * rows, t, LastOffset(offsets));
      if inner.Done? {
        SlicesInRange(inner.value, offsets, 0);
      }
    }
  }

  /** The same for the keys and values of a Map column. */
  lemma MapPanics(mem: Memory, data: seq<byte>, pos: nat, k: ColumnType, v: ColumnType, rows: nat)
    requires pos <= |data|
    ensures Decode(mem, data, pos, Map(k, v), rows).Panicked? <==>
            || rows > mem.values
            || (&& pos + 8 * rows <= |data|
                && var offsets := OffsetsAt(data, pos, rows);
                   SlicingPanics(DecodeEntries(mem, data, pos + 8 * rows, k, v, LastOffset(offsets)), offsets))
  {
    hide Decode, DecodeMap, OffsetsAt, LastOffset, SlicingPanics;
    if rows > mem.values {
      TooManyRows(mem, data, pos, Map(k, v), rows);
    } else {
      MapDecodes(mem, data, pos, k, v, rows);
      MapRowsPanic(mem, data, pos, k, v, rows);
    }
  }

  lemma MapDecodes(mem: Memory, data: seq<byte>, pos: nat, k: ColumnType, v: ColumnType, rows: nat)
    requires pos <= |data| && rows <= mem.values
    ensures Decode(mem, data, pos, Map(k, v), rows) == DecodeMap(mem, data, pos, k, v, rows)
  {
    hide DecodeMap;
  }

  lemma MapRowsPanic(mem: Memory, data: seq<byte>, pos: nat, k: ColumnType, v: ColumnType, rows: nat)
    requires pos <= |data|
    ensures DecodeMap(mem, data, pos, k, v, rows).Panicked? <==>
            && pos + 8 * rows <= |data|
            && var offsets := OffsetsAt(data, pos, rows);
               SlicingPanics(DecodeEntries(mem, data, pos + 8 * rows, k, v, LastOffset(offsets)), offsets)
  {
    hide DecodeMap, DecodeOffsets, DecodeEntries, SlicePairs, Sliceable, OffsetsAt, LastOffset;
    OffsetsAre(data, pos, rows);
    if pos + 8 * rows <= |data| {
      var offsets := OffsetsAt(data, pos, rows);
      var inner := DecodeEntries(mem, data, pos + 8 * rows, k, v, LastOffset(offsets));
      if inner.Done? {
        PairsInRange(inner.value.0, inner.value.1, offsets);
        EntriesSliced(mem, data, pos, k, v, rows, offsets);
      } else {
        MapFails(mem, data, pos, k, v, rows, offsets);
      }
    } else {
      NoOffsets(mem, data, pos, k, v, rows);
    }
  }

  lemma NoOffsets(mem: Memory, data: seq<byte>, pos: nat, k: ColumnType, v: ColumnType, rows: nat)
    requires pos <= |data| && DecodeOffsets(data, pos, rows).Failed?
    ensures DecodeMap(mem, data, pos, k, v, rows).Failed?
  {
    hide DecodeOffsets, DecodeEntries, SlicePairs;
  }

  lemma MapFails(mem: Memory, data: seq<byte>, pos: nat, k: ColumnType, v: ColumnType, rows: nat, offsets: seq<nat>)
    requires pos + 8 * rows <= |data| && DecodeOffsets(data, pos, rows) == Done(offsets, pos + 8 * rows)
    requires !DecodeEntries(mem, data, pos + 8 * rows, k, v, LastOffset(offsets)).Done?
    ensures DecodeMap(mem, data, pos, k, v, rows).Panicked?
         == DecodeEntries(mem, data, pos + 8 * rows, k, v, LastOffset(offsets)).Panicked?
  {
    hide DecodeOffsets, DecodeEntries, SlicePairs, LastOffset;
  }

  lemma EntriesSliced(mem: Memory, data: seq<byte>, pos: nat, k: ColumnType, v: ColumnType, rows: nat, offsets: seq<nat>)
    requires pos + 8 * rows <= |data| && DecodeOffsets(data, pos, rows) == Done(offsets, pos + 8 * rows)
    requires DecodeEntries(mem, data, pos + 8 * rows, k, v, LastOffset(offsets)).Done?
    ensures var (keys, values) := DecodeEntries(mem, data, pos + 8 * rows, k, v, LastOffset(offsets)).value;
            DecodeMap(mem, data, pos, k, v, rows).Panicked? == SlicePairs(keys, values, offsets).None?
  {
    hide DecodeOffsets, DecodeEntries, SlicePairs, LastOffset;
  }

  lemma PairsInRange(keys: seq<Value>, values: seq<Value>, offsets: seq<nat>)
    requires |keys| == |values|
    ensures SlicePairs(keys, values, offsets).Some? <==> Sliceable(offsets, |keys|)
  {
    hide SliceRows, Sliceable, PairRows;
    SlicesInRange(keys, offsets, 0);
    SlicesInRange(values, offsets, 0);
  }

  /** Types every row of which takes the same number of bytes. */
  predicate Sized(t: ColumnType)
    decreases TypeSize(t), 1
  {
    if t.Nullable? || t.LowCardinality? then Sized(t.inner)
    else if t.Tuple? then AllSized(t.elems)
    else IsLeaf(t) && (KindOf(t).FixedKind? || KindOf(t).BlobKind? || KindOf(t).NullKind?)
  }

  predicate AllSized(ts: seq<ColumnType>)
    decreases TypesSize(ts), 0
  {
    ts == [] || (Sized(ts[0]) && AllSized(ts[1..]))
  }

  /** How many. */
  function RowBytes(t: ColumnType): (n: nat)
    requires Sized(t)
    decreases TypeSize(t), 1
  {
    if t.Nullable? then 1 + RowBytes(t.inner)
    else if t.LowCardinality? then RowBytes(t.inner)
    else if t.Tuple? then RowsBytes(t.elems)
    else
      var k := KindOf(t);
      if k.FixedKind? then k.width else if k.BlobKind? then k.size else 0
  }

  function RowsBytes(ts: seq<ColumnType>): (n: nat)
    requires AllSized(ts)
    decreases TypesSize(ts), 0
  {
    if ts == [] then 0 else RowBytes(ts[0]) + RowsBytes(ts[1..])
  }

  /** A column of a sized type panics when there are too many rows, is read when
      its bytes are there, and is truncated otherwise. */
  ghost predicate SizedOutcome<T>(o: Outcome<T>, pos: nat, span: nat, length: nat)
  {
    if pos + span <= length then o.Done? && o.end == pos + span else o == Failed(Truncated)
  }

  /** The bytes of so many rows. */
  function Span(rows: nat, bytes: nat): (n: nat)
  {
    rows * bytes
  }

  lemma SpanSum(rows: nat, a: nat, b: nat)
    ensures Span(rows, a + b) == Span(rows, a) + Span(rows, b) && Span(rows, 1) == rows && Span(rows, 0) == 0
  {
  }

  lemma {:induction false} SizedReads(mem: Memory, data: seq<byte>, pos: nat, t: ColumnType, rows: nat)
    requires pos <= |data| && Sized(t) && rows <= mem.values
    ensures SizedOutcome(Decode(mem, data, pos, t, rows), pos, Span(rows, RowBytes(t)), |data|)
    decreases TypeSize(t), 2
  {
    hide Decode, SizedOutcome, RowBytes;
    if t.Nullable? {
      SizedNullable(mem, data, pos, t, rows);
    } else if t.LowCardinality? {
      SizedReads(mem, data, pos, t.inner, rows);
      SizedDictionary(mem, data, pos, t, rows);
    } else if t.Tuple? {
      SizedTuple(mem, data, pos, t, rows);
    } else {
      SizedLeaf(data, pos, t, rows);
      LeafDecodes(mem, data, pos, t, rows);
    }
  }

  lemma LeafDecodes(mem: Memory, data: seq<byte>, pos: nat, t: ColumnType, rows: nat)
    requires pos <= |data| && IsLeaf(t) && rows <= mem.values
    ensures Decode(mem, data, pos, t, rows) == DecodeLeaf(data, pos, t, rows)
  {
    hide DecodeLeaf;
  }

  lemma SizedDictionary(mem: Memory, data: seq<byte>, pos: nat, t: ColumnType, rows: nat)
    requires pos <= |data| && t.LowCardinality? && Sized(t) && rows <= mem.values
    ensures Decode(mem, data, pos, t, rows) == Decode(mem, data, pos, t.inner, rows) && RowBytes(t) == RowBytes(t.inner)
  {
  }

  lemma {:induction false} SizedNullable(mem: Memory, data: seq<byte>, pos: nat, t: ColumnType, rows: nat)
    requires pos <= |data| && t.Nullable? && Sized(t) && rows <= mem.values
    ensures SizedOutcome(Decode(mem, data, pos, t, rows), pos, Span(rows, RowBytes(t)), |data|)
    decreases TypeSize(t), 1
  {
    hide MaskRows, Span;
    SpanSum(rows, 1, RowBytes(t.inner));
    if pos + rows <= |data| {
      SizedReads(mem, data, pos + rows, t.inner, rows);
    }
  }

  lemma {:induction false} SizedTuple(mem: Memory, data: seq<byte>, pos: nat, t: ColumnType, rows: nat)
    requires pos <= |data| && t.Tuple? && Sized(t) && rows <= mem.values
    ensures SizedOutcome(Decode(mem, data, pos, t, rows), pos, Span(rows, RowBytes(t)), |data|)
    decreases TypeSize(t), 1
  {
    hide DecodeAll, RowsBytes, RecordRows;
    AllSizedRead(mem, data, pos, t.elems, rows);
  }

  lemma {:induction false} AllSizedRead(mem: Memory, data: seq<byte>, pos: nat, ts: seq<ColumnType>, rows: nat)
    requires pos <= |data| && AllSized(ts) && rows <= mem.values
    ensures SizedOutcome(DecodeAll(mem, data, pos, ts, Same(|ts|, rows)), pos, Span(rows, RowsBytes(ts)), |data|)
    decreases TypesSize(ts), 0
  {
    hide Decode, RowBytes, Sized, Span;
    SpanSum(rows, 0, 0);
    if ts != [] {
      var first, rest := RowBytes(ts[0]), RowsBytes(ts[1..]);
      SpanSum(rows, first, rest);
      SizedReads(mem, data, pos, ts[0], rows);
      assert Same(|ts|, rows)[1..] == Same(|ts[1..]|, rows);
      if pos + Span(rows, first) <= |data| {
        AllSizedRead(mem, data, pos + Span(rows, first), ts[1..], rows);
      }
    }
  }

  lemma SizedLeaf(data: seq<byte>, pos: nat, t: ColumnType, rows: nat)
    requires pos <= |data| && IsLeaf(t) && Sized(t)
    ensures SizedOutcome(DecodeLeaf(data, pos, t, rows), pos, Span(rows, RowBytes(t)), |data|)
  {
    hide KindOf, DecodeBlobs;
    if KindOf(t).BlobKind? {
      BlobsOutcome(data, pos, KindOf(t).size, rows);
    }
  }

  lemma {:induction false} BlobsOutcome(data: seq<byte>, pos: nat, size: nat, rows: nat)
    requires pos <= |data|
    ensures SizedOutcome(DecodeBlobs(data, pos, size, rows), pos, Span(rows, size), |data|)
    decreases rows
  {
    if rows > 0 {
      assert rows * size == size + (rows - 1) * size && 0 <= (rows - 1) * size;
      if pos + size <= |data| {
        BlobsOutcome(data, pos + size, size, rows - 1);
      }
    }
  }

  /** Over sized elements the bytes decide: an Array column panics exactly when
      the rows or the total cannot be allocated, or all elements are there and an
      offset below the total is smaller than the one before it. */
  lemma SizedArrayPanics(mem: Memory, data: seq<byte>, pos: nat, t: ColumnType, rows: nat)
    requires pos <= |data| && Sized(t)
    ensures Decode(mem, data, pos, Array(t), rows).Panicked? <==>
            || rows > mem.values
            || (&& pos + 8 * rows <= |data|
                && var offsets := OffsetsAt(data, pos, rows);
                   var total := LastOffset(offsets);
                   || total > mem.values
                   || (pos + 8 * rows + Span(total, RowBytes(t)) <= |data| && !Sliceable(offsets, total)))
  {
    hide DecodeOffsets, SliceRows, Sliceable, OffsetsAt, LastOffset, RowBytes, Sized, Span, Decode;
    ArrayPanics(mem, data, pos, t, rows);
    if pos + 8 * rows <= |data| {
      var total := LastOffset(OffsetsAt(data, pos, rows));
      if total <= mem.values {
        SizedReads(mem, data, pos + 8 * rows, t, total);
      } else {
        TooManyRows(mem, data, pos + 8 * rows, t, total);
      }
    }
  }

  /** The same for a Map column over sized keys and values. */
  lemma SizedMapPanics(mem: Memory, data: seq<byte>, pos: nat, k: ColumnType, v: ColumnType, rows: nat)
    requires pos <= |data| && Sized(k) && Sized(v)
    ensures Decode(mem, data, pos, Map(k, v), rows).Panicked? <==>
            || rows > mem.values
            || (&& pos + 8 * rows <= |data|
                && var offsets := OffsetsAt(data, pos, rows);
                   var total := LastOffset(offsets);
                   || total > mem.values
                   || (&& pos + 8 * rows + Span(total, RowBytes(k)) + Span(total, RowBytes(v)) <= |data|
                       && !Sliceable(offsets, total)))
  {
    hide DecodeOffsets, SliceRows, Sliceable, OffsetsAt, LastOffset, RowBytes, Sized, Decode, Span, DecodeEntries;
    MapPanics(mem, data, pos, k, v, rows);
    if pos + 8 * rows <= |data| {
      SizedEntries(mem, data, pos + 8 * rows, k, v, LastOffset(OffsetsAt(data, pos, rows)));
    }
  }

  lemma SizedEntries(mem: Memory, data: seq<byte>, pos: nat, k: ColumnType, v: ColumnType, total: nat)
    requires pos <= |data| && Sized(k) && Sized(v)
    ensures var o := DecodeEntries(mem, data, pos, k, v, total);
            && (o.Panicked? <==> total > mem.values)
            && (o.Done? <==> total <= mem.values && pos + Span(total, RowBytes(k)) + Span(total, RowBytes(v)) <= |data|)
  {
    hide RowBytes, Sized, Decode, Span, DecodeEntries;
    if total > mem.values {
      TooManyRows(mem, data, pos, k, total);
      EntriesFail(mem, data, pos, k, v, total);
    } else {
      var span := Span(total, RowBytes(k));
      SizedReads(mem, data, pos, k, total);
      if pos + span <= |data| {
        SizedReads(mem, data, pos + span, v, total);
        EntriesGoOn(mem, data, pos, k, v, total);
      } else {
        EntriesFail(mem, data, pos, k, v, total);
      }
    }
  }

  lemma EntriesFail(mem: Memory, data: seq<byte>, pos: nat, k: ColumnType, v: ColumnType, total: nat)
    requires pos <= |data| && !Decode(mem, data, pos, k, total).Done?
    ensures DecodeEntries(mem, data, pos, k, v, total) == Decode(mem, data, pos, k, total).PropagateFailure()
  {
    hide Decode;
  }

  lemma EntriesGoOn(mem: Memory, data: seq<byte>, pos: nat, k: ColumnType, v: ColumnType, total: nat)
    requires pos <= |data| && Decode(mem, data, pos, k, total).Done?
    ensures var o, values := DecodeEntries(mem, data, pos, k, v, total), Decode(mem, data, Decode(mem, data, pos, k, total).end, v, total);
            o.Panicked? == values.Panicked? && o.Done? == values.Done?
  {
    hide Decode;
  }

  lemma TooManyRows(mem: Memory, data: seq<byte>, pos: nat, t: ColumnType, rows: nat)
    requires pos <= |data| && rows > mem.values
    ensures Decode(mem, data, pos, t, rows).Panicked?
  {
  }

  /** Three rows of Array(UInt8) on which the decoder panics. */
  lemma DescendingOffsetsPanic(mem: Memory)
    requires mem.values >= 3
    ensures Decode(mem, OffsetsWire([3, 1, 2]) + [7, 8], 0, Array(UInt8), 3).Panicked?
  {
    hide Occurs, OffsetsWire, DecodeOffsets, Decode, OffsetsAt;
    var offsets: seq<nat> := [3, 1, 2];
    var data: seq<byte> := OffsetsWire(offsets) + [7, 8];
    OccursWhole(data);
    OccursConcat(data, 0, OffsetsWire(offsets), [7, 8]);
    OffsetsRead(data, 0, offsets);
    OffsetsAre(data, 0, 3);
    assert |data| == 26;
    assert offsets[1] < offsets[0] && offsets[1] < LastOffset(offsets);
    SizedArrayPanics(mem, data, 0, UInt8, 3);
  }

  lemma OccursWhole(data: seq<byte>)
    ensures Occurs(data, 0, data)
  {
  }

  /** Eight bytes on which the decoder panics, whatever the element type: one row
      whose offset is more than can be allocated. */
  lemma HugeTotalPanics(mem: Memory, t: ColumnType, total: nat)
    requires mem.values < total < U64_LIMIT
    ensures Decode(mem, U64Bytes(total), 0, Array(t), 1).Panicked?
    ensures Decode(mem, U64Bytes(total), 0, Map(t, t), 1).Panicked?
  {
    hide DecodeOffsets, Decode;
    var data: seq<byte> := U64Bytes(total);
    OccursWhole(data);
    U64Complete(data, 0, total);
    assert OffsetsAt(data, 0, 1) == [total] by { assert data[0..8] == data; }
    TooManyRows(mem, data, 8, t, total);
    ArrayPanics(mem, data, 0, t, 1);
    MapPanics(mem, data, 0, t, t, 1);
  }

  /** Twenty-four bytes: a compact Variant granule that claims as many values. */
  lemma HugeGranulePanics(mem: Memory, t: ColumnType, count: nat, rows: nat)
    requires mem.values < count < U64_LIMIT
    ensures DecodeVariant(mem, U64Bytes(1) + (U64Bytes(0) + U64Bytes(count)), 0, [t], rows).Panicked?
  {
    hide Decode, U64At, U64Bytes;
    var data: seq<byte> := U64Bytes(1) + (U64Bytes(0) + U64Bytes(count));
    ThreeNumbers(data, 1, 0, count);
    TooManyRows(mem, data, 24, t, count);
  }

  lemma ThreeNumbers(data: seq<byte>, a: nat, b: nat, c: nat)
    requires a < U64_LIMIT && b < U64_LIMIT && c < U64_LIMIT && data == U64Bytes(a) + (U64Bytes(b) + U64Bytes(c))
    ensures U64At(data, 0) == Ok((a, 8)) && U64At(data, 8) == Ok((b, 16)) && U64At(data, 16) == Ok((c, 24))
  {
    hide Occurs, U64At, U64Bytes;
    OccursWhole(data);
    OccursConcat(data, 0, U64Bytes(a), U64Bytes(b) + U64Bytes(c));
    OccursConcat(data, 8, U64Bytes(b), U64Bytes(c));
    U64Complete(data, 0, a);
    U64Complete(data, 8, b);
    U64Complete(data, 16, c);
  }
}
