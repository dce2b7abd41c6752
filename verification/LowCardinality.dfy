/** Dictionary expansion (`src/cursor.rs`): a LowCardinality column is rewritten
    into the inner type's own format, row `i` being the entry its index names. */
module LowCardinality {
  import opened Bytes
  import opened Limits
  import opened Varint
  import opened ColumnTypes
  import opened SkipSpec
  import opened StringColumn
  import opened WireFormat
  import FramingComplete
  import opened VariantDecode
  import opened DecodeAgreement

  // --------------------------------------------------------------------------
  // Indexes
  // --------------------------------------------------------------------------

  /** `read_lc_idx`: 0 where bytes are missing or the width is not supported. */
  function IndexAt(indexes: seq<byte>, i: nat, width: nat): (k: nat)
  {
    if (i + 1) * width > |indexes| then 0
    else if width == 1 || width == 2 || width == 4 || width == 8 then
      assert i * width + width == (i + 1) * width;
      LeValue(indexes[i * width..i * width + width])
    else 0
  }

  /** Behind the check of the index bytes no 0 stands in for missing ones. */
  lemma IndexIsWritten(indexes: seq<byte>, i: nat, width: nat, rows: nat)
    requires width in {1, 2, 4, 8} && rows * width <= |indexes| && i < rows
    ensures (i + 1) * width <= |indexes| && IndexAt(indexes, i, width) == LeValue(CellAt(indexes, width, i))
  {
    CellBounds(rows, width, i);
    assert i * width + width == (i + 1) * width;
  }

  // --------------------------------------------------------------------------
  // Fixed-width entries
  // --------------------------------------------------------------------------

  /** Entry `k` lies within the dictionary. */
  predicate HasEntry(dict: seq<byte>, size: nat, k: nat)
  {
    (k + 1) * size <= |dict|
  }

  /** The entries named by the first `rows` indexes, one after the other. */
  function Expand(dict: seq<byte>, size: nat, indexes: seq<byte>, width: nat, rows: nat): (out: seq<byte>)
    requires forall i :: 0 <= i < rows ==> HasEntry(dict, size, IndexAt(indexes, i, width))
  {
    if rows == 0 then []
    else
      assert HasEntry(dict, size, IndexAt(indexes, rows - 1, width));
      Expand(dict, size, indexes, width, rows - 1) + CellAt(dict, size, IndexAt(indexes, rows - 1, width))
  }

  /** Row `i` of the expansion is the entry its index names. */
  lemma {:induction false} ExpandIsLookup(dict: seq<byte>, size: nat, indexes: seq<byte>, width: nat, rows: nat)
    requires forall i :: 0 <= i < rows ==> HasEntry(dict, size, IndexAt(indexes, i, width))
    ensures var out := Expand(dict, size, indexes, width, rows);
            && |out| == rows * size
            && forall i :: 0 <= i < rows ==>
                 (i + 1) * size <= |out| && CellAt(out, size, i) == CellAt(dict, size, IndexAt(indexes, i, width))
    decreases rows
  {
    hide IndexAt, CellAt;
    if rows > 0 {
      ExpandIsLookup(dict, size, indexes, width, rows - 1);
      var front, k := Expand(dict, size, indexes, width, rows - 1), IndexAt(indexes, rows - 1, width);
      assert HasEntry(dict, size, k);
      AppendCell(front, CellAt(dict, size, k), size, rows - 1);
    }
  }

  lemma AppendCell(front: seq<byte>, cell: seq<byte>, size: nat, rows: nat)
    requires |front| == rows * size && |cell| == size
    ensures |front + cell| == (rows + 1) * size && CellAt(front + cell, size, rows) == cell
    ensures forall i :: 0 <= i < rows ==>
              (i + 1) * size <= |front| && (i + 1) * size <= |front + cell|
              && CellAt(front + cell, size, i) == CellAt(front, size, i)
  {
    hide CellAt;
    LastCell(front, cell, size, rows);
    forall i | 0 <= i < rows
      ensures (i + 1) * size <= |front| && (i + 1) * size <= |front + cell|
              && CellAt(front + cell, size, i) == CellAt(front, size, i)
    {
      FrontCell(front, cell, size, rows, i);
    }
  }

  lemma LastCell(front: seq<byte>, cell: seq<byte>, size: nat, rows: nat)
    requires |front| == rows * size && |cell| == size
    ensures |front + cell| == (rows + 1) * size && CellAt(front + cell, size, rows) == cell
  {
    assert (rows + 1) * size == rows * size + size;
  }

  lemma FrontCell(front: seq<byte>, cell: seq<byte>, size: nat, rows: nat, i: nat)
    requires |front| == rows * size && i < rows
    ensures (i + 1) * size <= |front| && (i + 1) * size <= |front + cell|
    ensures CellAt(front + cell, size, i) == CellAt(front, size, i)
  {
    CellBounds(rows, size, i);
    assert (i + 1) * size == i * size + size;
  }

  /** When the fixed-width expansion succeeds. */
  predicate Expandable(dict: seq<byte>, size: nat, indexes: seq<byte>, width: nat, rows: nat)
  {
    && rows * size <= MAX_COLUMN_BYTES
    && forall i :: 0 <= i < rows ==> HasEntry(dict, size, IndexAt(indexes, i, width))
  }

  /** `materialize_lc_fixed`. */
  method MaterializeFixed(dict: seq<byte>, size: nat, indexes: seq<byte>, width: nat, rows: nat) returns (r: Result<seq<byte>>)
    ensures r.Ok? <==> Expandable(dict, size, indexes, width, rows)
    ensures r.Ok? ==> r.value == Expand(dict, size, indexes, width, rows)
  {
    hide IndexAt;
    if rows == 0 || size == 0 {
      NothingToExpand(dict, size, indexes, width, rows);
      return Ok([]);
    }
    if |dict| < size {
      NoEntry(dict, size, IndexAt(indexes, 0, width));
      return Err(IndexOutOfBounds);
    }
    if rows * size > MAX_COLUMN_BYTES {
      return Err(TooLarge);
    }
    var out: seq<byte> := [];
    for i := 0 to rows
      invariant forall k :: 0 <= k < i ==> HasEntry(dict, size, IndexAt(indexes, k, width))
      invariant out == Expand(dict, size, indexes, width, i)
    {
      var idx := IndexAt(indexes, i, width);
      var start := idx * size;
      var end := start + size;
      assert end == (idx + 1) * size;
      if end > |dict| {
        assert !HasEntry(dict, size, IndexAt(indexes, i, width));
        return Err(IndexOutOfBounds);
      }
      out := out + dict[start..end];
    }
    return Ok(out);
  }

  lemma NoEntry(dict: seq<byte>, size: nat, k: nat)
    requires |dict| < size
    ensures !HasEntry(dict, size, k)
  {
    assert (k + 1) * size == k * size + size;
  }

  lemma {:induction false} NothingToExpand(dict: seq<byte>, size: nat, indexes: seq<byte>, width: nat, rows: nat)
    requires rows == 0 || size == 0
    ensures Expandable(dict, size, indexes, width, rows) && Expand(dict, size, indexes, width, rows) == []
    decreases rows
  {
    hide IndexAt;
    if rows > 0 {
      NothingToExpand(dict, size, indexes, width, rows - 1);
    }
  }

  // --------------------------------------------------------------------------
  // String entries
  // --------------------------------------------------------------------------

  /** The strings that fill a byte sequence from `pos` to its end. */
  function StringsFrom(data: seq<byte>, pos: nat): (r: Result<seq<seq<byte>>>)
    requires pos <= |data|
    decreases |data| - pos
  {
    if pos == |data| then Ok([])
    else
      var (n, p) :- VarintAt(data, pos);
      if p + n > |data| then Err(Truncated)
      else
        var rest :- StringsFrom(data, p + n);
        Ok([data[p..p + n]] + rest)
  }

  /** The entries named by the first `rows` indexes, each packed. */
  function ExpandStrings(entries: seq<seq<byte>>, indexes: seq<byte>, width: nat, rows: nat): (out: seq<byte>)
    requires forall i :: 0 <= i < rows ==> IndexAt(indexes, i, width) < |entries|
  {
    if rows == 0 then []
    else ExpandStrings(entries, indexes, width, rows - 1) + Packed(entries[IndexAt(indexes, rows - 1, width)])
  }

  /** The bytes of the first `rows` rows without their length prefixes. */
  function Payload(entries: seq<seq<byte>>, indexes: seq<byte>, width: nat, rows: nat): (n: nat)
    requires forall i :: 0 <= i < rows ==> IndexAt(indexes, i, width) < |entries|
  {
    if rows == 0 then 0
    else Payload(entries, indexes, width, rows - 1) + |entries[IndexAt(indexes, rows - 1, width)]|
  }

  function Rows(entries: seq<seq<byte>>, indexes: seq<byte>, width: nat, rows: nat): (out: seq<seq<byte>>)
    requires forall i :: 0 <= i < rows ==> IndexAt(indexes, i, width) < |entries|
    ensures |out| == rows
  {
    seq(rows, i requires 0 <= i < rows => entries[IndexAt(indexes, i, width)])
  }

  /** Reading the expansion gives, row by row, the entry its index names. */
  lemma {:induction false} ExpandStringsIsLookup(entries: seq<seq<byte>>, indexes: seq<byte>, width: nat, rows: nat, tail: seq<byte>)
    requires forall i :: 0 <= i < rows ==> IndexAt(indexes, i, width) < |entries|
    requires Payload(entries, indexes, width, rows) < U64_LIMIT
    requires StringsFrom(tail, 0).Ok?
    ensures StringsFrom(ExpandStrings(entries, indexes, width, rows) + tail, 0)
         == Ok(Rows(entries, indexes, width, rows) + StringsFrom(tail, 0).value)
    decreases rows
  {
    hide IndexAt, StringsFrom;
    var out := ExpandStrings(entries, indexes, width, rows);
    if rows == 0 {
      assert out + tail == tail;
      assert Rows(entries, indexes, width, rows) + StringsFrom(tail, 0).value == StringsFrom(tail, 0).value;
    } else {
      var last := entries[IndexAt(indexes, rows - 1, width)];
      var front := ExpandStrings(entries, indexes, width, rows - 1);
      assert out + tail == front + (Packed(last) + tail);
      PackedFirst(last, tail);
      ExpandStringsIsLookup(entries, indexes, width, rows - 1, Packed(last) + tail);
      assert Rows(entries, indexes, width, rows - 1) + ([last] + StringsFrom(tail, 0).value)
          == Rows(entries, indexes, width, rows) + StringsFrom(tail, 0).value;
    }
  }

  lemma PackedFirst(s: seq<byte>, tail: seq<byte>)
    requires |s| < U64_LIMIT && StringsFrom(tail, 0).Ok?
    ensures StringsFrom(Packed(s) + tail, 0) == Ok([s] + StringsFrom(tail, 0).value)
  {
    hide VarintAt, Encode;
    var data, n := Packed(s) + tail, |Encode(|s|)|;
    assert data[..n] == Encode(|s|);
    EncodeDecodes(data, 0, |s|);
    assert data[n..n + |s|] == s && data[n + |s|..] == tail;
    StringsShift(data, n + |s|, 0);
  }

  lemma {:induction false} StringsShift(data: seq<byte>, cut: nat, pos: nat)
    requires cut + pos <= |data|
    ensures StringsFrom(data, cut + pos) == StringsFrom(data[cut..], pos)
    decreases |data| - cut - pos
  {
    hide VarintAt;
    if cut + pos < |data| {
      var tail := data[cut..];
      VarintShift(data, cut, pos);
      var v := VarintAt(tail, pos);
      if v.Ok? && v.value.1 + v.value.0 <= |tail| {
        StringsShift(data, cut, v.value.1 + v.value.0);
        assert data[cut + v.value.1..cut + v.value.1 + v.value.0] == tail[v.value.1..v.value.1 + v.value.0];
      }
    }
  }

  lemma VarintShift(data: seq<byte>, cut: nat, pos: nat)
    requires cut + pos <= |data|
    ensures var a, b := VarintAt(data, cut + pos), VarintAt(data[cut..], pos);
            if b.Ok? then a == Ok((b.value.0, cut + b.value.1)) else a == b
  {
    GroupsShift(data, cut, pos, 0);
  }

  lemma {:induction false} GroupsShift(data: seq<byte>, cut: nat, pos: nat, k: nat)
    requires cut + pos <= |data| && k <= MAX_VARINT_BYTES
    ensures var a, b := ReadGroups(data, cut + pos, k), ReadGroups(data[cut..], pos, k);
            if b.Ok? then a == Ok((b.value.0, cut + b.value.1)) else a == b
    decreases MAX_VARINT_BYTES - k
  {
    var tail := data[cut..];
    if cut + pos < |data| {
      assert tail[pos] == data[cut + pos];
      if k < MAX_VARINT_BYTES {
        GroupsShift(data, cut, pos + 1, k + 1);
      }
    }
  }

  /** When the string expansion succeeds. */
  predicate StringsExpandable(dict: seq<byte>, indexes: seq<byte>, width: nat, rows: nat)
  {
    && StringsFrom(dict, 0).Ok?
    && var entries := StringsFrom(dict, 0).value;
       && (forall i :: 0 <= i < rows ==> IndexAt(indexes, i, width) < |entries|)
       && Payload(entries, indexes, width, rows) <= MAX_COLUMN_BYTES
  }

  /** The dictionary scan: where each entry's bytes begin and end. */
  method EntryBounds(dict: seq<byte>) returns (r: Result<seq<(nat, nat)>>)
    ensures r.Ok? <==> StringsFrom(dict, 0).Ok?
    ensures r.Ok? ==> BoundsOf(dict, r.value, StringsFrom(dict, 0).value)
  {
    hide VarintAt;
    var offsets: seq<(nat, nat)>, pos: nat := [], 0;
    ghost var entries: seq<seq<byte>> := [];
    assert StringsFrom(dict, 0).Ok? ==> [] + StringsFrom(dict, 0).value == StringsFrom(dict, 0).value;
    while pos < |dict|
      invariant pos <= |dict| && BoundsOf(dict, offsets, entries)
      invariant StringsFrom(dict, 0).Ok? <==> StringsFrom(dict, pos).Ok?
      invariant StringsFrom(dict, pos).Ok? ==> StringsFrom(dict, 0) == Ok(entries + StringsFrom(dict, pos).value)
      decreases |dict| - pos
    {
      var n := ReadVarintBytes(dict[pos..]);
      VarintShift(dict, pos, 0);
      if n.Err? { return Err(n.error); }
      var start := pos + n.value.1;
      var end := start + n.value.0;
      if end > |dict| { return Err(Truncated); }
      ghost var rest := StringsFrom(dict, end);
      if rest.Ok? {
        assert entries + ([dict[start..end]] + rest.value) == entries + [dict[start..end]] + rest.value;
      }
      offsets, entries := offsets + [(start, end)], entries + [dict[start..end]];
      pos := end;
    }
    assert entries + [] == entries;
    return Ok(offsets);
  }

  predicate BoundsOf(dict: seq<byte>, offsets: seq<(nat, nat)>, entries: seq<seq<byte>>)
  {
    && |offsets| == |entries|
    && forall k :: 0 <= k < |offsets| ==>
         offsets[k].0 <= offsets[k].1 <= |dict| && dict[offsets[k].0..offsets[k].1] == entries[k]
  }

  /** The String arm of `materialize_lc_inner`. */
  method MaterializeStrings(dict: seq<byte>, indexes: seq<byte>, width: nat, rows: nat) returns (r: Result<seq<byte>>)
    ensures r.Ok? <==> StringsExpandable(dict, indexes, width, rows)
    ensures r.Ok? ==> r.value == ExpandStrings(StringsFrom(dict, 0).value, indexes, width, rows)
  {
    hide IndexAt, StringsFrom;
    var bounds := EntryBounds(dict);
    if bounds.Err? { return Err(bounds.error); }
    var offsets := bounds.value;
    ghost var entries := StringsFrom(dict, 0).value;
    var out: seq<byte>, total: nat := [], 0;
    for i := 0 to rows
      invariant forall k :: 0 <= k < i ==> IndexAt(indexes, k, width) < |entries|
      invariant out == ExpandStrings(entries, indexes, width, i)
      invariant total == Payload(entries, indexes, width, i) <= MAX_COLUMN_BYTES
    {
      var idx := IndexAt(indexes, i, width);
      if idx >= |offsets| { return Err(IndexOutOfBounds); }
      var (start, end) := offsets[idx];
      assert dict[start..end] == entries[idx];
      total := total + (end - start);
      if total > MAX_COLUMN_BYTES {
        ghost var all := forall k :: 0 <= k < rows ==> IndexAt(indexes, k, width) < |entries|;
        if all { PayloadGrows(entries, indexes, width, i + 1, rows); }
        return Err(TooLarge);
      }
      out := EncodeVarintTo(out, end - start);
      out := out + dict[start..end];
      assert out == ExpandStrings(entries, indexes, width, i) + Packed(entries[idx]);
    }
    return Ok(out);
  }

  lemma {:induction false} PayloadGrows(entries: seq<seq<byte>>, indexes: seq<byte>, width: nat, i: nat, rows: nat)
    requires i <= rows && forall k :: 0 <= k < rows ==> IndexAt(indexes, k, width) < |entries|
    ensures Payload(entries, indexes, width, i) <= Payload(entries, indexes, width, rows)
    decreases rows
  {
    if i < rows {
      PayloadGrows(entries, indexes, width, i, rows - 1);
    }
  }

  // --------------------------------------------------------------------------
  // Whole columns
  // --------------------------------------------------------------------------

  datatype Entries = FixedEntries(size: nat) | StringEntries | OpaqueEntries

  /** How `materialize_lc_inner` reads the dictionary of an inner type. */
  function EntriesOf(t: ColumnType): (e: Entries)
  {
    match t
    case UInt8 | Int8 | Bool | Enum8 => FixedEntries(1)
    case UInt16 | Int16 | Date | Enum16 => FixedEntries(2)
    case UInt32 | Int32 | Float32 | Date32 | DateTime | IPv4 => FixedEntries(4)
    case UInt64 | Int64 | Float64 => FixedEntries(8)
    case DateTime64(_) => FixedEntries(8)
    case UInt128 | Int128 | UUID | IPv6 => FixedEntries(16)
    case UInt256 | Int256 => FixedEntries(32)
    case FixedString(n) => FixedEntries(n)
    case String => StringEntries
    case Other(_) => StringEntries
    case _ => OpaqueEntries
  }

  /** The number an index of the given width is written with. */
  function WrittenIndex(indexes: seq<byte>, width: nat, rows: nat, i: nat): (k: nat)
    requires rows * width <= |indexes| && i < rows
  {
    CellBounds(rows, width, i);
    LeValue(CellAt(indexes, width, i))
  }

  function SerialOf(width: nat): (serial: nat)
    ensures serial < 4
  {
    if width == 1 then 0 else if width == 2 then 1 else if width == 4 then 2 else 3
  }

  /** Other inner types keep the dictionary: the announced key count is the
      byte length of the dictionary. */
  function Unexpanded(dict: seq<byte>, indexes: seq<byte>, width: nat, rows: nat): (out: seq<byte>)
  {
    HeaderWire(SerialOf(width), |dict|) + dict + U64Bytes(rows) + indexes
  }

  /** When the expansion of an inner type succeeds. */
  predicate CanExpand(dict: seq<byte>, t: ColumnType, indexes: seq<byte>, width: nat, rows: nat)
  {
    && rows * width <= |indexes|
    && match EntriesOf(t)
       case FixedEntries(size) => Expandable(dict, size, indexes, width, rows)
       case StringEntries => StringsExpandable(dict, indexes, width, rows)
       case OpaqueEntries => true
  }

  function Expansion(dict: seq<byte>, t: ColumnType, indexes: seq<byte>, width: nat, rows: nat): (out: seq<byte>)
    requires CanExpand(dict, t, indexes, width, rows)
  {
    match EntriesOf(t)
    case FixedEntries(size) => Expand(dict, size, indexes, width, rows)
    case StringEntries => ExpandStrings(StringsFrom(dict, 0).value, indexes, width, rows)
    case OpaqueEntries => Unexpanded(dict, indexes, width, rows)
  }

  /** `materialize_lc_inner`. */
  method MaterializeInner(dict: seq<byte>, inner: ColumnType, indexes: seq<byte>, width: nat, rows: nat)
    returns (r: Result<seq<byte>>)
    ensures r.Ok? <==> CanExpand(dict, inner, indexes, width, rows)
    ensures r.Ok? ==> r.value == Expansion(dict, inner, indexes, width, rows)
  {
    hide Expand, Expandable, ExpandStrings, StringsExpandable, StringsFrom, EntriesOf, Unexpanded, CanExpand, Expansion;
    ExpansionCases(dict, inner, indexes, width, rows);
    if rows > 0 {
      if |indexes| < rows * width {
        return Err(Truncated);
      }
    }
    var entries := EntriesOf(inner);
    if entries.FixedEntries? {
      r := MaterializeFixed(dict, entries.size, indexes, width, rows);
    } else if entries.StringEntries? {
      r := MaterializeStrings(dict, indexes, width, rows);
    } else {
      r := Ok(Unexpanded(dict, indexes, width, rows));
    }
  }

  lemma ExpansionCases(dict: seq<byte>, t: ColumnType, indexes: seq<byte>, width: nat, rows: nat)
    ensures CanExpand(dict, t, indexes, width, rows)
       <==> && rows * width <= |indexes|
            && (EntriesOf(t).FixedEntries? ==> Expandable(dict, EntriesOf(t).size, indexes, width, rows))
            && (EntriesOf(t).StringEntries? ==> StringsExpandable(dict, indexes, width, rows))
    ensures CanExpand(dict, t, indexes, width, rows) ==>
              Expansion(dict, t, indexes, width, rows) ==
              if EntriesOf(t).FixedEntries? then Expand(dict, EntriesOf(t).size, indexes, width, rows)
              else if EntriesOf(t).StringEntries? then ExpandStrings(StringsFrom(dict, 0).value, indexes, width, rows)
              else Unexpanded(dict, indexes, width, rows)
  {
    hide Expand, ExpandStrings, StringsFrom, EntriesOf, Unexpanded, Payload, IndexAt, HasEntry;
  }

  /** What is written for the other inner types is no LowCardinality column, of this or
      of any inner type: its header lacks the flag that the keys follow. */
  lemma UnexpandedIsRefused(dict: seq<byte>, t: ColumnType, indexes: seq<byte>, width: nat, rows: nat, n: nat)
    requires n > 0
    ensures SkipData(Unexpanded(dict, indexes, width, rows), 0, LowCardinality(t), n) == Err(Unsupported)
  {
    hide U64Bytes, LeValue, SkipBody;
    var serial := SerialOf(width);
    var out := Unexpanded(dict, indexes, width, rows);
    var keys := U64Bytes(|dict|);
    var rest := dict + U64Bytes(rows) + indexes;
    assert out == HeaderWire(serial, |dict|) + rest;
    assert out[0..24] == HeaderWire(serial, |dict|);
    OccursConcat(out, 0, U64Bytes(1), U64Bytes(serial) + keys);
    OccursConcat(out, 8, U64Bytes(serial), keys);
    FramingComplete.U64Complete(out, 0, 1);
    FramingComplete.U64Complete(out, 8, serial);
    assert IndexWidth(1, serial) == Err(Unsupported);
    assert DictionaryHeader(out, 0) == Err(Unsupported);
  }

  /** Fixed-width rows are the entries their written indexes name. */
  lemma FixedRowsAreEntries(dict: seq<byte>, size: nat, indexes: seq<byte>, width: nat, rows: nat)
    requires width in {1, 2, 4, 8} && rows * width <= |indexes| && Expandable(dict, size, indexes, width, rows)
    ensures var out := Expand(dict, size, indexes, width, rows);
            && |out| == rows * size <= MAX_COLUMN_BYTES
            && forall i :: 0 <= i < rows ==>
                 && HasEntry(dict, size, WrittenIndex(indexes, width, rows, i)) && (i + 1) * size <= |out|
                 && CellAt(out, size, i) == CellAt(dict, size, WrittenIndex(indexes, width, rows, i))
  {
    hide CellAt, Expand, LeValue, HasEntry;
    ExpandIsLookup(dict, size, indexes, width, rows);
    forall i | 0 <= i < rows
      ensures IndexAt(indexes, i, width) == WrittenIndex(indexes, width, rows, i)
    {
      IndexIsWritten(indexes, i, width, rows);
    }
  }

  /** String rows are the entries their written indexes name. */
  lemma StringRowsAreEntries(dict: seq<byte>, indexes: seq<byte>, width: nat, rows: nat)
    requires width in {1, 2, 4, 8} && rows * width <= |indexes| && StringsExpandable(dict, indexes, width, rows)
    ensures var entries := StringsFrom(dict, 0).value;
            var read := StringsFrom(ExpandStrings(entries, indexes, width, rows), 0);
            && Payload(entries, indexes, width, rows) <= MAX_COLUMN_BYTES
            && read.Ok? && |read.value| == rows
            && forall i :: 0 <= i < rows ==>
                 && WrittenIndex(indexes, width, rows, i) < |entries|
                 && read.value[i] == entries[WrittenIndex(indexes, width, rows, i)]
  {
    hide CellAt, StringsFrom, LeValue, ExpandStrings, Payload;
    var entries := StringsFrom(dict, 0).value;
    NoStrings();
    ExpandStringsIsLookup(entries, indexes, width, rows, []);
    var out := ExpandStrings(entries, indexes, width, rows);
    assert out + [] == out && Rows(entries, indexes, width, rows) + [] == Rows(entries, indexes, width, rows);
    forall i | 0 <= i < rows
      ensures IndexAt(indexes, i, width) == WrittenIndex(indexes, width, rows, i)
    {
      IndexIsWritten(indexes, i, width, rows);
    }
  }

  lemma NoStrings()
    ensures StringsFrom([], 0) == Ok([])
  {
  }

  // --------------------------------------------------------------------------
  // The output is a column of the inner type
  // --------------------------------------------------------------------------

  lemma EntriesLayout(t: ColumnType)
    requires EntriesOf(t).FixedEntries?
    ensures IsSimple(t)
    ensures LayoutOf(t) == if EntriesOf(t).size == 1 && !t.FixedString? then OneByte else Cells(EntriesOf(t).size)
  {
  }

  /** The skipper reads the expansion of a fixed-width inner type as exactly one
      column of that type. */
  lemma FixedIsColumn(dict: seq<byte>, t: ColumnType, indexes: seq<byte>, width: nat, rows: nat)
    requires EntriesOf(t).FixedEntries? && Expandable(dict, EntriesOf(t).size, indexes, width, rows)
    ensures var out := Expand(dict, EntriesOf(t).size, indexes, width, rows);
            SkipData(out, 0, t, rows) == Ok(|out|)
  {
    hide EntriesOf, Expand, LayoutOf, IndexAt, CellAt;
    EntriesLayout(t);
    ExpandIsLookup(dict, EntriesOf(t).size, indexes, width, rows);
    var out := Expand(dict, EntriesOf(t).size, indexes, width, rows);
    SimpleColumn(out, t, rows);
  }

  lemma SimpleColumn(out: seq<byte>, t: ColumnType, rows: nat)
    requires IsSimple(t) && (LayoutOf(t).OneByte? || LayoutOf(t).Cells?)
    requires |out| == rows * (if LayoutOf(t).OneByte? then 1 else LayoutOf(t).width) <= MAX_COLUMN_BYTES
    ensures SkipData(out, 0, t, rows) == Ok(|out|)
  {
    hide LayoutOf;
    assert rows * 1 == rows;
  }

  /** The skipper reads the expansion of a String dictionary as exactly one
      String column, when no entry is longer than a string may be. */
  lemma StringsAreColumn(dict: seq<byte>, indexes: seq<byte>, width: nat, rows: nat)
    requires StringsExpandable(dict, indexes, width, rows)
    requires forall k :: 0 <= k < |StringsFrom(dict, 0).value| ==> |StringsFrom(dict, 0).value[k]| <= MAX_STRING_BYTES
    ensures var out := ExpandStrings(StringsFrom(dict, 0).value, indexes, width, rows);
            SkipData(out, 0, String, rows) == Ok(|out|)
  {
    hide StringsFrom, Payload, IndexAt, SkipStrings;
    var entries := StringsFrom(dict, 0).value;
    var out := ExpandStrings(entries, indexes, width, rows);
    PackedRows(entries, indexes, width, rows, [], 0);
    assert out + [] == out;
    EmptyStrings(out);
  }

  lemma EmptyStrings(out: seq<byte>)
    ensures SkipStrings(out, |out|, 0) == Ok(|out|)
  {
  }

  lemma SkipPacked(buf: seq<byte>, pos: nat, s: seq<byte>, more: nat)
    requires Occurs(buf, pos, Packed(s)) && |s| <= MAX_STRING_BYTES
    ensures SkipStrings(buf, pos, more + 1) == SkipStrings(buf, pos + |Packed(s)|, more)
  {
    hide VarintAt, Encode;
    OccursConcat(buf, pos, Encode(|s|), s);
    EncodeDecodes(buf, pos, |s|);
  }

  lemma {:induction false} PackedRows(entries: seq<seq<byte>>, indexes: seq<byte>, width: nat, rows: nat, tail: seq<byte>, more: nat)
    requires forall i :: 0 <= i < rows ==> IndexAt(indexes, i, width) < |entries|
    requires forall k :: 0 <= k < |entries| ==> |entries[k]| <= MAX_STRING_BYTES
    ensures var out := ExpandStrings(entries, indexes, width, rows);
            SkipStrings(out + tail, 0, rows + more) == SkipStrings(out + tail, |out|, more)
    decreases rows
  {
    hide IndexAt, SkipStrings, Packed;
    if rows > 0 {
      var s := entries[IndexAt(indexes, rows - 1, width)];
      var front := ExpandStrings(entries, indexes, width, rows - 1);
      var out := ExpandStrings(entries, indexes, width, rows);
      assert out + tail == front + (Packed(s) + tail);
      PackedRows(entries, indexes, width, rows - 1, Packed(s) + tail, more + 1);
      assert (out + tail)[|front|..|front| + |Packed(s)|] == Packed(s);
      SkipPacked(out + tail, |front|, s, more);
    }
  }
}
