/** The dictionary expansion of the buffered walk (`src/sync/protocol/response.rs`), a
    second implementation beside that of `src/cursor.rs`. */
module BufferedDictionary {
  import opened Bytes
  import opened Limits
  import opened Varint
  import opened ColumnTypes
  import opened SkipSpec
  import opened StringColumn
  import opened DecodeAgreement
  import opened LowCardinality
  import DiscardColumn

  // --------------------------------------------------------------------------
  // Indexes
  // --------------------------------------------------------------------------

  /** `read_lc_index`. */
  function StrictIndex(indexes: seq<byte>, i: nat, width: nat): (r: Result<nat>)
  {
    if (i + 1) * width > |indexes| then Err(Truncated)
    else if width in {1, 2, 4, 8} then
      assert i * width + width == (i + 1) * width;
      Ok(LeValue(indexes[i * width..i * width + width]))
    else Err(Unsupported)
  }

  predicate IndexesThere(indexes: seq<byte>, width: nat, rows: nat)
  {
    rows == 0 || (width in {1, 2, 4, 8} && rows * width <= |indexes|)
  }

  /** Where the indexes are there, both readers return the same; elsewhere the strict
      one fails. */
  lemma StrictIsLenient(indexes: seq<byte>, width: nat, i: nat, rows: nat)
    requires i < rows
    ensures IndexesThere(indexes, width, rows) ==> StrictIndex(indexes, i, width) == Ok(IndexAt(indexes, i, width))
    ensures StrictIndex(indexes, i, width).Ok? ==>
              IndexesThere(indexes, width, i + 1) && StrictIndex(indexes, i, width) == Ok(IndexAt(indexes, i, width))
  {
    hide LeValue;
    CellBounds(rows, width, i);
  }

  // --------------------------------------------------------------------------
  // Cells
  // --------------------------------------------------------------------------

  /** The types whose entries are expanded as cells, and the width of those. */
  function CellWidth(t: ColumnType): (w: Option<nat>)
  {
    match t
    case UInt8 | Int8 | Bool | Enum8 => Some(1)
    case UInt16 | Int16 | Date | Enum16 => Some(2)
    case UInt32 | Int32 | Float32 | Date32 | DateTime | Time | IPv4 => Some(4)
    case UInt64 | Int64 | Float64 => Some(8)
    case DateTime64(_) => Some(8)
    case Time64(_) => Some(8)
    case UInt128 | Int128 | UUID | IPv6 => Some(16)
    case UInt256 | Int256 => Some(32)
    case FixedString(n) => Some(n)
    case _ => None
  }

  predicate CanCells(dict: seq<byte>, size: nat, indexes: seq<byte>, width: nat, rows: nat)
  {
    IndexesThere(indexes, width, rows) && Expandable(dict, size, indexes, width, rows)
  }

  /** `materialize_lc_fixed`. */
  method MaterializeCells(dict: seq<byte>, size: nat, indexes: seq<byte>, width: nat, rows: nat) returns (r: Result<seq<byte>>)
    ensures r.Ok? <==> CanCells(dict, size, indexes, width, rows)
    ensures r.Ok? ==> r.value == Expand(dict, size, indexes, width, rows)
  {
    hide IndexAt, StrictIndex, IndexesThere, HasEntry, Expand, Expandable;
    ExpandableIs(dict, size, indexes, width, rows);
    if rows * size > MAX_COLUMN_BYTES { return Err(TooLarge); }
    var out: seq<byte> := [];
    NothingExpanded(dict, size, indexes, width);
    assert IndexesThere(indexes, width, 0) by { NoIndexes(indexes, width); }
    for i := 0 to rows
      invariant IndexesThere(indexes, width, i)
      invariant forall k :: 0 <= k < i ==> HasEntry(dict, size, IndexAt(indexes, k, width))
      invariant out == Expand(dict, size, indexes, width, i)
    {
      StrictIsLenient(indexes, width, i, rows);
      var idx :- StrictIndex(indexes, i, width);
      var start := idx * size;
      var end := start + size;
      EntryAt(dict, size, idx, start, end);
      if end > |dict| { return Err(IndexOutOfBounds); }
      OneMore(dict, size, indexes, width, i, start, end);
      out := out + dict[start..end];
    }
    return Ok(out);
  }

  lemma ExpandableIs(dict: seq<byte>, size: nat, indexes: seq<byte>, width: nat, rows: nat)
    ensures Expandable(dict, size, indexes, width, rows)
       <==> && rows * size <= MAX_COLUMN_BYTES
            && forall i :: 0 <= i < rows ==> HasEntry(dict, size, IndexAt(indexes, i, width))
  {
    hide IndexAt, HasEntry;
  }

  lemma NothingExpanded(dict: seq<byte>, size: nat, indexes: seq<byte>, width: nat)
    ensures Expand(dict, size, indexes, width, 0) == []
  {
  }

  lemma EntryAt(dict: seq<byte>, size: nat, k: nat, start: nat, end: nat)
    requires start == k * size && end == start + size
    ensures HasEntry(dict, size, k) <==> end <= |dict|
    ensures end <= |dict| ==> (k + 1) * size <= |dict| && CellAt(dict, size, k) == dict[start..end]
  {
    assert (k + 1) * size == k * size + size;
  }

  /** One row further. */
  lemma OneMore(dict: seq<byte>, size: nat, indexes: seq<byte>, width: nat, i: nat, start: nat, end: nat)
    requires start <= end <= |dict| && forall k :: 0 <= k < i + 1 ==> HasEntry(dict, size, IndexAt(indexes, k, width))
    requires (IndexAt(indexes, i, width) + 1) * size <= |dict|
    requires CellAt(dict, size, IndexAt(indexes, i, width)) == dict[start..end]
    ensures Expand(dict, size, indexes, width, i + 1) == Expand(dict, size, indexes, width, i) + dict[start..end]
  {
    hide IndexAt, HasEntry, CellAt;
  }

  lemma NoIndexes(indexes: seq<byte>, width: nat)
    ensures IndexesThere(indexes, width, 0)
  {
  }

  // --------------------------------------------------------------------------
  // Strings
  // --------------------------------------------------------------------------

  /** The strings that fill a byte sequence from `pos` to its end, each with the prefix
      it stands behind. */
  function RawStrings(data: seq<byte>, pos: nat): (r: Result<seq<seq<byte>>>)
    requires pos <= |data|
    decreases |data| - pos
  {
    if pos == |data| then Ok([])
    else
      var (n, p) :- VarintAt(data, pos);
      if p + n > |data| then Err(Truncated)
      else
        var rest :- RawStrings(data, p + n);
        Ok([data[pos..p + n]] + rest)
  }

  /** The entries named by the first `rows` indexes, one after the other. */
  function Lookup(entries: seq<seq<byte>>, indexes: seq<byte>, width: nat, rows: nat): (out: seq<byte>)
    requires forall i :: 0 <= i < rows ==> IndexAt(indexes, i, width) < |entries|
  {
    if rows == 0 then []
    else Lookup(entries, indexes, width, rows - 1) + entries[IndexAt(indexes, rows - 1, width)]
  }

  lemma {:induction false} LookupGrows(entries: seq<seq<byte>>, indexes: seq<byte>, width: nat, i: nat, rows: nat)
    requires i <= rows && forall k :: 0 <= k < rows ==> IndexAt(indexes, k, width) < |entries|
    ensures |Lookup(entries, indexes, width, i)| <= |Lookup(entries, indexes, width, rows)|
    decreases rows
  {
    if i < rows {
      LookupGrows(entries, indexes, width, i, rows - 1);
    }
  }

  predicate CanRaw(dict: seq<byte>, indexes: seq<byte>, width: nat, rows: nat)
  {
    && IndexesThere(indexes, width, rows) && RawStrings(dict, 0).Ok?
    && var entries := RawStrings(dict, 0).value;
       && (forall i :: 0 <= i < rows ==> IndexAt(indexes, i, width) < |entries|)
       && |Lookup(entries, indexes, width, rows)| <= MAX_COLUMN_BYTES
  }

  /** The dictionary scan: where each entry, prefix included, begins and ends. */
  method RawBounds(dict: seq<byte>) returns (r: Result<seq<(nat, nat)>>)
    ensures r.Ok? <==> RawStrings(dict, 0).Ok?
    ensures r.Ok? ==> BoundsOf(dict, r.value, RawStrings(dict, 0).value)
  {
    hide VarintAt;
    var ranges: seq<(nat, nat)>, pos: nat := [], 0;
    ghost var entries: seq<seq<byte>> := [];
    assert RawStrings(dict, 0).Ok? ==> [] + RawStrings(dict, 0).value == RawStrings(dict, 0).value;
    while pos < |dict|
      invariant pos <= |dict| && BoundsOf(dict, ranges, entries)
      invariant RawStrings(dict, 0).Ok? <==> RawStrings(dict, pos).Ok?
      invariant RawStrings(dict, pos).Ok? ==> RawStrings(dict, 0) == Ok(entries + RawStrings(dict, pos).value)
      decreases |dict| - pos
    {
      var n :- ParseVarint(dict, pos);
      var end := n.1 + n.0;
      if end > |dict| { return Err(Truncated); }
      ghost var rest := RawStrings(dict, end);
      if rest.Ok? {
        assert entries + ([dict[pos..end]] + rest.value) == entries + [dict[pos..end]] + rest.value;
      }
      ranges, entries := ranges + [(pos, end)], entries + [dict[pos..end]];
      pos := end;
    }
    assert entries + [] == entries;
    return Ok(ranges);
  }

  /** `materialize_lc_string`. */
  method MaterializeRaw(dict: seq<byte>, indexes: seq<byte>, width: nat, rows: nat) returns (r: Result<seq<byte>>)
    ensures r.Ok? <==> CanRaw(dict, indexes, width, rows)
    ensures r.Ok? ==> r.value == Lookup(RawStrings(dict, 0).value, indexes, width, rows)
  {
    hide IndexAt, RawStrings, StrictIndex, IndexesThere;
    var ranges :- RawBounds(dict);
    ghost var entries := RawStrings(dict, 0).value;
    var out: seq<byte>, total: nat := [], 0;
    assert IndexesThere(indexes, width, 0) by { NoIndexes(indexes, width); }
    for i := 0 to rows
      invariant IndexesThere(indexes, width, i)
      invariant forall k :: 0 <= k < i ==> IndexAt(indexes, k, width) < |entries|
      invariant out == Lookup(entries, indexes, width, i) && total == |out| <= MAX_COLUMN_BYTES
    {
      StrictIsLenient(indexes, width, i, rows);
      var idx :- StrictIndex(indexes, i, width);
      if idx >= |ranges| { return Err(IndexOutOfBounds); }
      var (start, end) := ranges[idx];
      assert dict[start..end] == entries[idx];
      total := total + (end - start);
      if total > MAX_COLUMN_BYTES {
        ghost var all := forall k :: 0 <= k < rows ==> IndexAt(indexes, k, width) < |entries|;
        if all { LookupGrows(entries, indexes, width, i + 1, rows); }
        return Err(TooLarge);
      }
      out := out + dict[start..end];
    }
    return Ok(out);
  }

  // --------------------------------------------------------------------------
  // Nullable cells
  // --------------------------------------------------------------------------

  /** `fixed_width`. */
  function FixedWidth(t: ColumnType): (w: Option<nat>)
    ensures CellWidth(t).Some? ==> w == CellWidth(t)
  {
    if CellWidth(t).Some? then CellWidth(t)
    else
      match t
      case Decimal(p, _) =>
        if 1 <= p <= 9 then Some(4)
        else if 10 <= p <= 18 then Some(8)
        else if 19 <= p <= 38 then Some(16)
        else if 39 <= p <= 76 then Some(32)
        else None
      case Nothing => Some(0)
      case Point => Some(16)
      case _ => None
  }

  /** `infer_lc_dictionary_rows`: the number of entries is taken from the length. */
  function NullRows(dict: seq<byte>, size: nat): (n: nat)
    ensures n <= |dict|
  {
    |dict| / (size + 1)
  }

  predicate CanNullable(dict: seq<byte>, t: ColumnType, indexes: seq<byte>, width: nat, rows: nat)
  {
    && CellWidth(t).Some?
    && var size := CellWidth(t).value;
       && size + 1 < U64_LIMIT && CanCells(dict[NullRows(dict, size)..], size, indexes, width, rows)
       && rows + rows * size <= MAX_COLUMN_BYTES
       && forall i :: 0 <= i < rows ==> IndexAt(indexes, i, width) < NullRows(dict, size)
  }

  /** The null flags of the entries named by the first `rows` indexes. */
  function Flags(nulls: seq<byte>, indexes: seq<byte>, width: nat, rows: nat): (out: seq<byte>)
    requires forall i :: 0 <= i < rows ==> IndexAt(indexes, i, width) < |nulls|
    ensures |out| == rows
  {
    seq(rows, i requires 0 <= i < rows => nulls[IndexAt(indexes, i, width)])
  }

  // --------------------------------------------------------------------------
  // All inner types
  // --------------------------------------------------------------------------

  predicate CanMaterialize(dict: seq<byte>, t: ColumnType, indexes: seq<byte>, width: nat, rows: nat)
  {
    if CellWidth(t).Some? then CanCells(dict, CellWidth(t).value, indexes, width, rows)
    else if t.String? || t.JSON? || t.Other? then CanRaw(dict, indexes, width, rows)
    else t.Nullable? && CanNullable(dict, t.inner, indexes, width, rows)
  }

  function Materialized(dict: seq<byte>, t: ColumnType, indexes: seq<byte>, width: nat, rows: nat): (out: seq<byte>)
    requires CanMaterialize(dict, t, indexes, width, rows)
  {
    if CellWidth(t).Some? then Expand(dict, CellWidth(t).value, indexes, width, rows)
    else if t.String? || t.JSON? || t.Other? then Lookup(RawStrings(dict, 0).value, indexes, width, rows)
    else
      var size := CellWidth(t.inner).value;
      var n := NullRows(dict, size);
      Flags(dict[..n], indexes, width, rows) + Expand(dict[n..], size, indexes, width, rows)
  }

  lemma MaterializedCases(dict: seq<byte>, t: ColumnType, indexes: seq<byte>, width: nat, rows: nat)
    ensures CellWidth(t).Some? ==>
              (CanMaterialize(dict, t, indexes, width, rows) <==> CanCells(dict, CellWidth(t).value, indexes, width, rows))
    ensures CellWidth(t).Some? && CanMaterialize(dict, t, indexes, width, rows) ==>
              Materialized(dict, t, indexes, width, rows) == Expand(dict, CellWidth(t).value, indexes, width, rows)
    ensures t.String? || t.JSON? || t.Other? ==> CellWidth(t).None?
    ensures t.String? || t.JSON? || t.Other? ==>
              (CanMaterialize(dict, t, indexes, width, rows) <==> CanRaw(dict, indexes, width, rows))
    ensures (t.String? || t.JSON? || t.Other?) && CanMaterialize(dict, t, indexes, width, rows) ==>
              Materialized(dict, t, indexes, width, rows) == Lookup(RawStrings(dict, 0).value, indexes, width, rows)
  {
    hide Expand, Lookup, RawStrings, IndexAt, IndexesThere, HasEntry;
  }

  /** `materialize_low_cardinality_inner`. */
  method Materialize(dict: seq<byte>, t: ColumnType, indexes: seq<byte>, width: nat, rows: nat) returns (r: Result<seq<byte>>)
    ensures r.Ok? <==> CanMaterialize(dict, t, indexes, width, rows)
    ensures r.Ok? ==> r.value == Materialized(dict, t, indexes, width, rows)
    decreases t, 1
  {
    hide CanCells, Expand, CanRaw, Lookup, RawStrings, CellWidth, CanMaterialize, Materialized, CanNullable, IndexAt;
    MaterializedCases(dict, t, indexes, width, rows);
    var w := CellWidth(t);
    if w.Some? {
      r := MaterializeCells(dict, w.value, indexes, width, rows);
    } else if t.String? || t.JSON? || t.Other? {
      r := MaterializeRaw(dict, indexes, width, rows);
    } else if t.Nullable? {
      r := MaterializeNullable(dict, t.inner, indexes, width, rows);
    } else {
      NothingElse(dict, t, indexes, width, rows);
      r := Err(Unsupported);
    }
  }

  lemma NothingElse(dict: seq<byte>, t: ColumnType, indexes: seq<byte>, width: nat, rows: nat)
    requires CellWidth(t).None? && !(t.String? || t.JSON? || t.Other? || t.Nullable?)
    ensures !CanMaterialize(dict, t, indexes, width, rows)
  {
  }

  /** `materialize_lc_nullable`. */
  method MaterializeNullable(dict: seq<byte>, t: ColumnType, indexes: seq<byte>, width: nat, rows: nat)
    returns (r: Result<seq<byte>>)
    ensures r.Ok? <==> CanMaterialize(dict, Nullable(t), indexes, width, rows)
    ensures r.Ok? ==> r.value == Materialized(dict, Nullable(t), indexes, width, rows)
    decreases t, 2
  {
    hide CanCells, Expand, IndexAt, CellWidth, CanMaterialize, Materialized, NullRows, StrictIndex, IndexesThere;
    NullableCases(dict, t, indexes, width, rows);
    var w := FixedWidth(t);
    if w.None? { return Err(Unsupported); }
    var size := w.value;
    if size + 1 >= U64_LIMIT { return Err(Overflow); }
    var n := NullRows(dict, size);
    var nulls := dict[..n];
    var values := Materialize(dict[n..], t, indexes, width, rows);
    if values.Err? { return Err(values.error); }
    if rows + |values.value| > MAX_COLUMN_BYTES { return Err(TooLarge); }
    var out: seq<byte> := [];
    for row := 0 to rows
      invariant forall i :: 0 <= i < row ==> IndexAt(indexes, i, width) < n
      invariant out == Flags(nulls, indexes, width, row)
    {
      StrictIsLenient(indexes, width, row, rows);
      var idx := StrictIndex(indexes, row, width).value;
      if idx >= n { return Err(IndexOutOfBounds); }
      out := out + [nulls[idx]];
    }
    return Ok(out + values.value);
  }

  /** What the expansion of nullable cells comes down to. */
  lemma NullableCases(dict: seq<byte>, t: ColumnType, indexes: seq<byte>, width: nat, rows: nat)
    ensures CanMaterialize(dict, Nullable(t), indexes, width, rows) ==> CellWidth(t).Some?
    ensures FixedWidth(t).Some? ==>
              var size := FixedWidth(t).value;
              var n := NullRows(dict, size);
              && (CanMaterialize(dict[n..], t, indexes, width, rows) ==>
                    && CellWidth(t).Some? && IndexesThere(indexes, width, rows)
                    && |Materialized(dict[n..], t, indexes, width, rows)| == rows * size)
              && (CanMaterialize(dict, Nullable(t), indexes, width, rows) <==>
                    && size + 1 < U64_LIMIT && CanMaterialize(dict[n..], t, indexes, width, rows)
                    && rows + rows * size <= MAX_COLUMN_BYTES
                    && forall i :: 0 <= i < rows ==> IndexAt(indexes, i, width) < n)
              && (CanMaterialize(dict, Nullable(t), indexes, width, rows) ==>
                    Materialized(dict, Nullable(t), indexes, width, rows) ==
                    Flags(dict[..n], indexes, width, rows) + Materialized(dict[n..], t, indexes, width, rows))
  {
    hide Expand, IndexAt, CanCells, NullRows;
    if FixedWidth(t).Some? {
      var size := FixedWidth(t).value;
      var n := NullRows(dict, size);
      if CanMaterialize(dict[n..], t, indexes, width, rows) {
        FixedIsCells(t, dict[n..], indexes, width, rows);
        ExpandIsLookup(dict[n..], size, indexes, width, rows);
      }
    }
  }

  lemma FixedIsCells(t: ColumnType, dict: seq<byte>, indexes: seq<byte>, width: nat, rows: nat)
    requires FixedWidth(t).Some? && CanMaterialize(dict, t, indexes, width, rows)
    ensures CellWidth(t).Some? && CanCells(dict, CellWidth(t).value, indexes, width, rows)
    ensures IndexesThere(indexes, width, rows) && Expandable(dict, CellWidth(t).value, indexes, width, rows)
  {
    hide CanRaw, CanNullable, Expandable, IndexesThere;
  }

  // --------------------------------------------------------------------------
  // Entries with and without their prefixes
  // --------------------------------------------------------------------------

  /** `raw` is the string `s` behind a prefix of any length. */
  predicate RawOf(raw: seq<byte>, s: seq<byte>)
  {
    VarintAt(raw, 0).Ok? && VarintAt(raw, 0).value.0 == |s| && raw == raw[..VarintAt(raw, 0).value.1] + s
  }

  predicate RawsOf(raws: seq<seq<byte>>, entries: seq<seq<byte>>)
  {
    |raws| == |entries| && forall k :: 0 <= k < |raws| ==> RawOf(raws[k], entries[k])
  }

  /** A string stands in any buffer as it stands alone. */
  lemma RawSlice(data: seq<byte>, pos: nat)
    requires VarintAt(data, pos).Ok? && VarintAt(data, pos).value.1 + VarintAt(data, pos).value.0 <= |data|
    ensures var (n, p) := VarintAt(data, pos).value;
            RawOf(data[pos..p + n], data[p..p + n]) && VarintAt(data[pos..p + n], 0) == Ok((n, p - pos))
  {
    hide VarintAt, IsVarint, GroupValue;
    var (n, p) := VarintAt(data, pos).value;
    var raw := data[pos..p + n];
    VarintAtMeaning(data, pos, n, p);
    assert raw[0..p - pos] == data[pos..p];
    VarintAtMeaning(raw, 0, n, p - pos);
  }

  lemma RawThere(data: seq<byte>, pos: nat, raw: seq<byte>, s: seq<byte>)
    requires RawOf(raw, s) && Occurs(data, pos, raw)
    ensures VarintAt(data, pos) == Ok((|s|, pos + |raw| - |s|)) && data[pos + |raw| - |s|..pos + |raw|] == s
  {
    hide VarintAt, IsVarint, GroupValue;
    var (n, p) := VarintAt(raw, 0).value;
    VarintAtMeaning(raw, 0, n, p);
    assert data[pos..pos + |raw|] == raw;
    SubSlice(data, pos, pos + |raw|, 0, p);
    VarintAtMeaning(data, pos, n, pos + p);
    SubSlice(data, pos, pos + |raw|, p, |raw|);
  }

  /** Both scans find the same strings. */
  lemma {:induction false} RawStringsAreStrings(data: seq<byte>, pos: nat)
    requires pos <= |data|
    ensures RawStrings(data, pos).Ok? <==> StringsFrom(data, pos).Ok?
    ensures RawStrings(data, pos).Ok? ==> RawsOf(RawStrings(data, pos).value, StringsFrom(data, pos).value)
    decreases |data| - pos
  {
    hide VarintAt, RawOf;
    if pos < |data| && VarintAt(data, pos).Ok? {
      var (n, p) := VarintAt(data, pos).value;
      if p + n <= |data| {
        RawSlice(data, pos);
        RawStringsAreStrings(data, p + n);
      }
    }
  }

  /** Row by row the expansion holds the strings its indexes name. */
  lemma {:induction false} LookupIsRows(raws: seq<seq<byte>>, entries: seq<seq<byte>>, indexes: seq<byte>, width: nat, rows: nat, tail: seq<byte>)
    requires RawsOf(raws, entries) && forall i :: 0 <= i < rows ==> IndexAt(indexes, i, width) < |raws|
    requires StringsFrom(tail, 0).Ok?
    ensures StringsFrom(Lookup(raws, indexes, width, rows) + tail, 0)
         == Ok(Rows(entries, indexes, width, rows) + StringsFrom(tail, 0).value)
    decreases rows
  {
    hide IndexAt, StringsFrom, RawOf;
    var out := Lookup(raws, indexes, width, rows);
    if rows == 0 {
      assert out + tail == tail;
      assert Rows(entries, indexes, width, rows) + StringsFrom(tail, 0).value == StringsFrom(tail, 0).value;
    } else {
      var k := IndexAt(indexes, rows - 1, width);
      var front := Lookup(raws, indexes, width, rows - 1);
      assert out + tail == front + (raws[k] + tail);
      RawFirst(raws[k], entries[k], tail);
      LookupIsRows(raws, entries, indexes, width, rows - 1, raws[k] + tail);
      assert Rows(entries, indexes, width, rows - 1) + ([entries[k]] + StringsFrom(tail, 0).value)
          == Rows(entries, indexes, width, rows) + StringsFrom(tail, 0).value;
    }
  }

  lemma RawFirst(raw: seq<byte>, s: seq<byte>, tail: seq<byte>)
    requires RawOf(raw, s) && StringsFrom(tail, 0).Ok?
    ensures StringsFrom(raw + tail, 0) == Ok([s] + StringsFrom(tail, 0).value)
  {
    hide VarintAt, RawOf;
    var data := raw + tail;
    assert data[0..|raw|] == raw && data[|raw|..] == tail;
    RawThere(data, 0, raw, s);
    StringsShift(data, |raw|, 0);
  }

  /** Of String columns the two expansions hold the same strings, each of them the entry
      that its index names, though prefixes may be written differently. */
  lemma SameStrings(dict: seq<byte>, indexes: seq<byte>, width: nat, rows: nat)
    requires CanRaw(dict, indexes, width, rows)
    ensures StringsFrom(dict, 0).Ok?
    ensures var raws, entries := RawStrings(dict, 0).value, StringsFrom(dict, 0).value;
            && (forall i :: 0 <= i < rows ==> IndexAt(indexes, i, width) < |entries|)
            && StringsFrom(Lookup(raws, indexes, width, rows), 0) == Ok(Rows(entries, indexes, width, rows))
            && (StringsExpandable(dict, indexes, width, rows) ==>
                  StringsFrom(ExpandStrings(entries, indexes, width, rows), 0) == Ok(Rows(entries, indexes, width, rows)))
  {
    hide IndexAt, StringsFrom, RawStrings, RawOf, Lookup, ExpandStrings, Rows, Payload;
    RawStringsAreStrings(dict, 0);
    NoStrings();
    var raws, entries := RawStrings(dict, 0).value, StringsFrom(dict, 0).value;
    LookupIsRows(raws, entries, indexes, width, rows, []);
    assert Lookup(raws, indexes, width, rows) + [] == Lookup(raws, indexes, width, rows);
    assert Rows(entries, indexes, width, rows) + [] == Rows(entries, indexes, width, rows);
    if StringsExpandable(dict, indexes, width, rows) {
      ExpandStringsIsLookup(entries, indexes, width, rows, []);
      assert ExpandStrings(entries, indexes, width, rows) + [] == ExpandStrings(entries, indexes, width, rows);
    }
  }

  // --------------------------------------------------------------------------
  // The two expansions
  // --------------------------------------------------------------------------

  /** Both succeed with the same bytes, or both fail. */
  ghost predicate SameExpansion(dict: seq<byte>, t: ColumnType, indexes: seq<byte>, width: nat, rows: nat)
  {
    && (CanMaterialize(dict, t, indexes, width, rows) <==> CanExpand(dict, t, indexes, width, rows))
    && (CanMaterialize(dict, t, indexes, width, rows) && CanExpand(dict, t, indexes, width, rows) ==>
          Materialized(dict, t, indexes, width, rows) == Expansion(dict, t, indexes, width, rows))
  }

  lemma SharedTable(t: ColumnType)
    ensures EntriesOf(t).FixedEntries? ==> CellWidth(t) == Some(EntriesOf(t).size)
    ensures EntriesOf(t).StringEntries? <==> t.String? || t.Other?
  {
  }

  lemma CellsAgree(dict: seq<byte>, t: ColumnType, indexes: seq<byte>, width: nat, rows: nat)
    requires EntriesOf(t).FixedEntries? && width in {1, 2, 4, 8}
    ensures SameExpansion(dict, t, indexes, width, rows)
  {
    hide Expand, Expandable, EntriesOf, CellWidth, CanMaterialize, Materialized, CanExpand, Expansion, StringsExpandable;
    SharedTable(t);
    ExpansionCases(dict, t, indexes, width, rows);
    MaterializedCases(dict, t, indexes, width, rows);
  }

  /** A string whose prefix is not the shortest. */
  lemma StringsPart(t: ColumnType)
    requires t.String? || t.Other?
    ensures !SameExpansion([128, 0], t, [0], 1, 1)
  {
    hide EntriesOf, CellWidth, CanMaterialize, Materialized, CanExpand, Expansion;
    SharedTable(t);
    LongPrefix();
    ExpansionCases([128, 0], t, [0], 1, 1);
    MaterializedCases([128, 0], t, [0], 1, 1);
  }

  lemma LongPrefix()
    ensures CanRaw([128, 0], [0], 1, 1) && Lookup(RawStrings([128, 0], 0).value, [0], 1, 1) == [128, 0]
    ensures StringsExpandable([128, 0], [0], 1, 1) && ExpandStrings(StringsFrom([128, 0], 0).value, [0], 1, 1) == [0]
  {
    var dict: seq<byte> := [128, 0];
    assert ReadGroups(dict, 1, 1) == Ok((0, 2));
    assert VarintAt(dict, 0) == Ok((0, 2));
    assert RawStrings(dict, 2) == Ok([]) && StringsFrom(dict, 2) == Ok([]);
    assert dict[0..2] == dict && dict[2..2] == [];
    assert [dict] + [] == [dict] && [dict[2..2]] + [] == [[]];
    assert RawStrings(dict, 0) == Ok([dict]) && StringsFrom(dict, 0) == Ok([[]]);
    FirstIndex();
    assert Lookup([dict], [0], 1, 0) == [] && ExpandStrings([[]], [0], 1, 0) == [] && Payload([[]], [0], 1, 0) == 0;
    assert Packed([]) == [0];
  }

  lemma FirstIndex()
    ensures IndexAt([0], 0, 1) == 0 && IndexesThere([0], 1, 1)
  {
    var indexes: seq<byte> := [0];
    assert indexes[0..1] == [0] && [0][1..] == [];
    assert LeValue([0]) == 0;
  }

  /** No entry at all: refused here, copied there. */
  lemma OthersPart(t: ColumnType)
    requires EntriesOf(t).OpaqueEntries?
    ensures !SameExpansion([], t, [0], 1, 1)
  {
    hide IndexAt, Expansion, Materialized, EntriesOf;
    FirstIndex();
    ExpansionCases([], t, [0], 1, 1);
    NoEntries(t);
  }

  lemma NoEntries(t: ColumnType)
    requires EntriesOf(t).OpaqueEntries? && IndexAt([0], 0, 1) == 0
    ensures !CanMaterialize([], t, [0], 1, 1)
  {
    hide IndexAt;
    if CellWidth(t).Some? {
      WideCells(t);
      NoEntry([], CellWidth(t).value, 0);
    } else if t.JSON? {
      assert RawStrings([], 0) == Ok([]);
    }
  }

  lemma WideCells(t: ColumnType)
    requires EntriesOf(t).OpaqueEntries? && CellWidth(t).Some?
    ensures CellWidth(t).value > 0
  {
  }

  /** The expansion of `src/cursor.rs` is said to mirror this one. It does, on every
      dictionary, exactly for the inner types that it expands as cells. */
  lemma MirrorsExactly(t: ColumnType)
    ensures (forall dict: seq<byte>, indexes: seq<byte>, width: nat, rows: nat ::
               width in {1, 2, 4, 8} && |indexes| == rows * width ==> SameExpansion(dict, t, indexes, width, rows))
       <==> EntriesOf(t).FixedEntries?
  {
    hide SameExpansion, EntriesOf;
    if EntriesOf(t).FixedEntries? {
      forall dict: seq<byte>, indexes: seq<byte>, width: nat, rows: nat | width in {1, 2, 4, 8} && |indexes| == rows * width
        ensures SameExpansion(dict, t, indexes, width, rows)
      {
        CellsAgree(dict, t, indexes, width, rows);
      }
    } else {
      SharedTable(t);
      if EntriesOf(t).StringEntries? {
        StringsPart(t);
        assert !SameExpansion([128, 0], t, [0], 1, 1);
      } else {
        OthersPart(t);
        assert !SameExpansion([], t, [0], 1, 1);
      }
      assert |[0]| == 1 * 1;
    }
  }

  // --------------------------------------------------------------------------
  // The output is a column of the inner type
  // --------------------------------------------------------------------------

  lemma CellsLayout(t: ColumnType)
    requires CellWidth(t).Some?
    ensures IsSimple(t)
    ensures LayoutOf(t) == if CellWidth(t).value == 1 && !t.FixedString? then OneByte else Cells(CellWidth(t).value)
  {
  }

  /** The skipper steps over `rows` cells, wherever they stand. */
  lemma CellsSkipped(buf: seq<byte>, pos: nat, t: ColumnType, rows: nat)
    requires CellWidth(t).Some? && pos <= |buf|
    ensures var end := pos + rows * CellWidth(t).value;
            rows * CellWidth(t).value <= MAX_COLUMN_BYTES && end <= |buf| ==> SkipData(buf, pos, t, rows) == Ok(end)
    ensures SkipData(buf, pos, t, rows).Ok? ==> SkipData(buf, pos, t, rows) == Ok(pos + rows * CellWidth(t).value)
  {
    hide SkipData, LayoutOf, CellWidth;
    CellsLayout(t);
    DiscardColumn.DataCases(buf, pos, t, rows);
    assert rows * 1 == rows;
  }

  lemma SkipRaw(buf: seq<byte>, pos: nat, raw: seq<byte>, s: seq<byte>, more: nat)
    requires Occurs(buf, pos, raw) && RawOf(raw, s) && |s| <= MAX_STRING_BYTES
    ensures SkipStrings(buf, pos, more + 1) == SkipStrings(buf, pos + |raw|, more)
  {
    hide VarintAt, RawOf;
    RawThere(buf, pos, raw, s);
  }

  lemma {:induction false} RawRows(raws: seq<seq<byte>>, entries: seq<seq<byte>>, indexes: seq<byte>, width: nat, rows: nat,
                                   tail: seq<byte>, more: nat)
    requires RawsOf(raws, entries) && forall i :: 0 <= i < rows ==> IndexAt(indexes, i, width) < |raws|
    requires forall k :: 0 <= k < |entries| ==> |entries[k]| <= MAX_STRING_BYTES
    ensures var out := Lookup(raws, indexes, width, rows);
            SkipStrings(out + tail, 0, rows + more) == SkipStrings(out + tail, |out|, more)
    decreases rows
  {
    hide IndexAt, SkipStrings, RawOf;
    if rows > 0 {
      var k := IndexAt(indexes, rows - 1, width);
      var front, out := Lookup(raws, indexes, width, rows - 1), Lookup(raws, indexes, width, rows);
      assert out + tail == front + (raws[k] + tail);
      RawRows(raws, entries, indexes, width, rows - 1, raws[k] + tail, more + 1);
      assert (out + tail)[|front|..|front| + |raws[k]|] == raws[k];
      SkipRaw(out + tail, |front|, raws[k], entries[k], more);
    }
  }

  /** A dictionary that the skipper takes as strings holds that many, none too long. */
  lemma {:induction false} KeysAreEntries(dict: seq<byte>, pos: nat, keys: nat)
    requires pos <= |dict| && SkipStrings(dict, pos, keys) == Ok(|dict|)
    ensures StringsFrom(dict, pos).Ok? && |StringsFrom(dict, pos).value| == keys
    ensures forall k :: 0 <= k < keys ==> |StringsFrom(dict, pos).value[k]| <= MAX_STRING_BYTES
    decreases keys
  {
    hide VarintAt;
    if keys > 0 {
      var (n, p) := VarintAt(dict, pos).value;
      KeysAreEntries(dict, p + n, keys - 1);
    }
  }

  lemma RawIsColumn(dict: seq<byte>, t: ColumnType, keys: nat, indexes: seq<byte>, width: nat, rows: nat)
    requires (t.String? || t.Other?) && SkipStrings(dict, 0, keys) == Ok(|dict|) && CanRaw(dict, indexes, width, rows)
    ensures var out := Lookup(RawStrings(dict, 0).value, indexes, width, rows);
            SkipData(out, 0, t, rows) == Ok(|out|)
  {
    hide RawStrings, StringsFrom, IndexAt, SkipStrings, SkipData, RawOf, LayoutOf;
    KeysAreEntries(dict, 0, keys);
    RawStringsAreStrings(dict, 0);
    var raws, entries := RawStrings(dict, 0).value, StringsFrom(dict, 0).value;
    var out := Lookup(raws, indexes, width, rows);
    RawRows(raws, entries, indexes, width, rows, [], 0);
    assert out + [] == out;
    EmptyStrings(out);
    DiscardColumn.DataCases(out, 0, t, rows);
    TextsLayout(t);
  }

  lemma TextsLayout(t: ColumnType)
    requires t.String? || t.Other?
    ensures IsSimple(t) && LayoutOf(t).Texts?
  {
  }

  lemma NullableIsColumn(dict: seq<byte>, t: ColumnType, indexes: seq<byte>, width: nat, rows: nat)
    requires CanMaterialize(dict, Nullable(t), indexes, width, rows)
    ensures var out := Materialized(dict, Nullable(t), indexes, width, rows);
            |out| == rows + rows * CellWidth(t).value && SkipData(out, 0, Nullable(t), rows) == Ok(|out|)
  {
    hide CellWidth, SkipData, CanMaterialize, Materialized, NullRows, IndexAt;
    NullableCases(dict, t, indexes, width, rows);
    var out := Materialized(dict, Nullable(t), indexes, width, rows);
    DiscardColumn.DataCases(out, 0, Nullable(t), rows);
    if rows > 0 { CellsSkipped(out, rows, t, rows); }
  }

  /** What is kept of a dictionary column is a column of the inner type, as long as its
      dictionary was one. JSON is the exception. */
  lemma MaterializedIsColumn(dict: seq<byte>, t: ColumnType, keys: nat, indexes: seq<byte>, width: nat, rows: nat)
    requires !t.JSON? && SkipData(dict, 0, t, keys) == Ok(|dict|) && CanMaterialize(dict, t, indexes, width, rows)
    ensures var out := Materialized(dict, t, indexes, width, rows);
            SkipData(out, 0, t, rows) == Ok(|out|)
  {
    hide CellWidth, SkipData, CanMaterialize, Materialized, NullRows, IndexAt, SkipStrings, LayoutOf, Expand, Lookup, RawStrings;
    MaterializedCases(dict, t, indexes, width, rows);
    if CellWidth(t).Some? {
      ExpandIsLookup(dict, CellWidth(t).value, indexes, width, rows);
      CellsSkipped(Materialized(dict, t, indexes, width, rows), 0, t, rows);
    } else if t.String? || t.Other? {
      DiscardColumn.DataCases(dict, 0, t, keys);
      TextsLayout(t);
      EmptyStrings(dict);
      RawIsColumn(dict, t, keys, indexes, width, rows);
    } else {
      OnlyNullable(dict, t, indexes, width, rows);
      NullableIsColumn(dict, t.inner, indexes, width, rows);
    }
  }

  lemma OnlyNullable(dict: seq<byte>, t: ColumnType, indexes: seq<byte>, width: nat, rows: nat)
    requires CellWidth(t).None? && !(t.String? || t.JSON? || t.Other?) && CanMaterialize(dict, t, indexes, width, rows)
    ensures t.Nullable?
  {
  }

  // --------------------------------------------------------------------------
  // Nullable entries
  // --------------------------------------------------------------------------

  /** The number of entries taken from the length of a dictionary is its number of keys. */
  lemma NullRowsAreKeys(dict: seq<byte>, t: ColumnType, keys: nat)
    requires CellWidth(t).Some? && SkipData(dict, 0, Nullable(t), keys) == Ok(|dict|)
    ensures NullRows(dict, CellWidth(t).value) == keys
  {
    hide CellWidth, SkipData, NullRows;
    DiscardColumn.DataCases(dict, 0, Nullable(t), keys);
    if keys > 0 { CellsSkipped(dict, keys, t, keys); }
    NullRowsOf(dict, CellWidth(t).value, keys);
  }

  lemma NullRowsOf(dict: seq<byte>, size: nat, keys: nat)
    requires |dict| == keys + keys * size
    ensures NullRows(dict, size) == keys
  {
    assert keys + keys * size == keys * (size + 1);
    Quotient(|dict|, keys, size + 1);
  }

  lemma Quotient(a: nat, n: nat, d: nat)
    requires d > 0 && a == n * d
    ensures a / d == n
  {
    var q := a / d;
    assert d * (n - q) == a % d;
    if n > q {
      AtLeast(d, n - q);
    } else if n < q {
      AtLeast(d, q - n);
    }
  }

  lemma AtLeast(d: nat, k: nat)
    requires k > 0
    ensures d * k >= d
  {
  }

  /** Flag and value of each row are those of the entry its written index names. */
  lemma NullableRowsAreEntries(dict: seq<byte>, t: ColumnType, indexes: seq<byte>, width: nat, rows: nat, i: nat)
    requires CanMaterialize(dict, Nullable(t), indexes, width, rows) && i < rows
    ensures CellWidth(t).Some? && width in {1, 2, 4, 8} && rows * width <= |indexes|
    ensures var size := CellWidth(t).value;
            var n, k := NullRows(dict, size), WrittenIndex(indexes, width, rows, i);
            var out := Materialized(dict, Nullable(t), indexes, width, rows);
            && k < n && out[i] == dict[k]
            && HasEntry(dict[n..], size, k) && (i + 1) * size <= |out[rows..]|
            && CellAt(out[rows..], size, i) == CellAt(dict[n..], size, k)
  {
    hide CellWidth, CellAt, Expand, NullRows, LeValue;
    NullableParts(dict, t, indexes, width, rows);
    var size := CellWidth(t).value;
    var n := NullRows(dict, size);
    FixedRowsAreEntries(dict[n..], size, indexes, width, rows);
    IndexIsWritten(indexes, i, width, rows);
    var out := Materialized(dict, Nullable(t), indexes, width, rows);
    assert out[rows..] == Expand(dict[n..], size, indexes, width, rows);
    assert out[i] == Flags(dict[..n], indexes, width, rows)[i];
  }

  lemma NullableParts(dict: seq<byte>, t: ColumnType, indexes: seq<byte>, width: nat, rows: nat)
    requires CanMaterialize(dict, Nullable(t), indexes, width, rows)
    ensures CellWidth(t).Some? && IndexesThere(indexes, width, rows)
    ensures var n := NullRows(dict, CellWidth(t).value);
            && Expandable(dict[n..], CellWidth(t).value, indexes, width, rows)
            && (forall i :: 0 <= i < rows ==> IndexAt(indexes, i, width) < n)
            && Materialized(dict, Nullable(t), indexes, width, rows)
               == Flags(dict[..n], indexes, width, rows) + Expand(dict[n..], CellWidth(t).value, indexes, width, rows)
  {
    hide Expand, IndexAt, NullRows;
  }

  // --------------------------------------------------------------------------
  // JSON entries
  // --------------------------------------------------------------------------

  /** The entries that the eight bytes of the version are taken for. */
  function VersionEntries(version: nat): (entries: seq<seq<byte>>)
  {
    if version == 1 then [[1, 0], [0], [0], [0], [0], [0], [0]] else [[4, 0, 0, 0, 0], [0], [0], [0]]
  }

  /** A JSON dictionary begins with its version, which the scan takes for entries: index
      7, or 4 under version 4, names the first text. */
  lemma JsonEntriesAreShifted(dict: seq<byte>, keys: nat)
    requires SkipJson(dict, 0, keys) == Ok(|dict|)
    ensures |dict| >= 8 && LeValue(dict[0..8]) in {1, 4} && RawStrings(dict, 8).Ok? && |RawStrings(dict, 8).value| == keys
    ensures RawStrings(dict, 0) == Ok(VersionEntries(LeValue(dict[0..8])) + RawStrings(dict, 8).value)
  {
    hide SkipStrings, RawStrings;
    KeysAreEntries(dict, 8, keys);
    RawStringsAreStrings(dict, 8);
    VersionBytes(dict);
    if LeValue(dict[0..8]) == 1 {
      VersionOne(dict);
    } else {
      VersionFour(dict);
    }
  }

  lemma VersionBytes(dict: seq<byte>)
    requires |dict| >= 8 && LeValue(dict[0..8]) in {1, 4}
    ensures dict[0] == LeValue(dict[0..8]) && forall i :: 1 <= i < 8 ==> dict[i] == 0
  {
    var s := dict[0..8];
    U64BytesOf(s);
    SmallBytes(LeValue(s));
    assert s == [LeValue(s), 0, 0, 0, 0, 0, 0, 0];
    assert forall i :: 0 <= i < 8 ==> dict[i] == s[i];
  }

  lemma SmallBytes(v: nat)
    requires v < 256
    ensures LeBytes(v, 8) == [v, 0, 0, 0, 0, 0, 0, 0]
  {
    assert LeBytes(0, 2) == [0, 0];
    assert LeBytes(0, 4) == [0, 0, 0, 0];
    assert LeBytes(0, 6) == [0, 0, 0, 0, 0, 0];
    assert LeBytes(0, 7) == [0, 0, 0, 0, 0, 0, 0];
  }

  /** A string of `n` bytes behind a one-byte prefix. */
  lemma ShortEntry(dict: seq<byte>, pos: nat, n: nat)
    requires n < 128 && pos + 1 + n <= |dict| && dict[pos] == n && RawStrings(dict, pos + 1 + n).Ok?
    ensures RawStrings(dict, pos) == Ok([dict[pos..pos + 1 + n]] + RawStrings(dict, pos + 1 + n).value)
  {
    assert VarintAt(dict, pos) == Ok((n, pos + 1));
  }

  /** As many empty strings as there are zeros. */
  lemma {:induction false} ZeroEntries(dict: seq<byte>, pos: nat, n: nat)
    requires pos + n <= |dict| && RawStrings(dict, pos + n).Ok? && forall i :: pos <= i < pos + n ==> dict[i] == 0
    ensures RawStrings(dict, pos) == Ok(seq(n, _ => [0]) + RawStrings(dict, pos + n).value)
    decreases n
  {
    hide RawStrings;
    var zeros: seq<seq<byte>> := seq(n, _ => [0]);
    var rest := RawStrings(dict, pos + n).value;
    if n == 0 {
      assert zeros + rest == rest;
    } else {
      ZeroEntries(dict, pos + 1, n - 1);
      ShortEntry(dict, pos, 0);
      assert dict[pos..pos + 1] == [0];
      var fewer: seq<seq<byte>> := seq(n - 1, _ => [0]);
      assert [[0 as byte]] + (fewer + rest) == zeros + rest;
    }
  }

  lemma VersionOne(dict: seq<byte>)
    requires |dict| >= 8 && dict[0] == 1 && (forall i :: 1 <= i < 8 ==> dict[i] == 0) && RawStrings(dict, 8).Ok?
    ensures RawStrings(dict, 0) == Ok(VersionEntries(1) + RawStrings(dict, 8).value)
  {
    hide RawStrings;
    ZeroEntries(dict, 2, 6);
    ShortEntry(dict, 0, 1);
    assert dict[0..2] == [1, 0];
    var zeros: seq<seq<byte>> := seq(6, _ => [0]);
    assert VersionEntries(1) == [[1, 0]] + zeros;
    assert [[1, 0]] + (zeros + RawStrings(dict, 8).value) == VersionEntries(1) + RawStrings(dict, 8).value;
  }

  lemma VersionFour(dict: seq<byte>)
    requires |dict| >= 8 && dict[0] == 4 && (forall i :: 1 <= i < 8 ==> dict[i] == 0) && RawStrings(dict, 8).Ok?
    ensures RawStrings(dict, 0) == Ok(VersionEntries(4) + RawStrings(dict, 8).value)
  {
    hide RawStrings;
    ZeroEntries(dict, 5, 3);
    ShortEntry(dict, 0, 4);
    assert dict[0..5] == [4, 0, 0, 0, 0];
    var zeros: seq<seq<byte>> := seq(3, _ => [0]);
    assert VersionEntries(4) == [[4, 0, 0, 0, 0]] + zeros;
    assert [[4, 0, 0, 0, 0]] + (zeros + RawStrings(dict, 8).value) == VersionEntries(4) + RawStrings(dict, 8).value;
  }
}
