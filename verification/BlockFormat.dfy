/** Native blocks: the writer (`shared/block_writer.rs`) and the walk over a
    buffered block (`src/sync/protocol/response.rs`), which reads the header and
    finds each column's bytes with the skipper. */
module BlockFormat {
  import opened Bytes
  import opened Limits
  import opened Varint
  import Utf8
  import opened ColumnTypes
  import opened TypeText
  import opened SkipSpec
  import opened WireFormat
  import FramingSound
  import FramingComplete
  import Framing
  import opened DiscardColumn
  import opened BufferedDictionary

  datatype ColumnInfo = ColumnInfo(name: string, typeName: string, data: seq<byte>)
  datatype Block = Block(columns: seq<ColumnInfo>, rows: nat)

  // --------------------------------------------------------------------------
  // The format
  // --------------------------------------------------------------------------

  /** `write_string`. */
  function TextBytes(t: string): (s: seq<byte>)
  {
    Encode(|Utf8.Encode(t)|) + Utf8.Encode(t)
  }

  /** Block info: no overflows, bucket -1. */
  const INFO: seq<byte> := [1, 0, 2, 255, 255, 255, 255, 0]

  function ColumnBytes(c: ColumnInfo): (s: seq<byte>)
  {
    TextBytes(c.name) + (TextBytes(c.typeName) + ([0] + c.data))
  }

  function ColumnsBytes(cs: seq<ColumnInfo>): (s: seq<byte>)
  {
    if cs == [] then [] else ColumnBytes(cs[0]) + ColumnsBytes(cs[1..])
  }

  function BlockBytes(b: Block): (s: seq<byte>)
  {
    INFO + (Encode(|b.columns|) + (Encode(b.rows) + ColumnsBytes(b.columns)))
  }

  // --------------------------------------------------------------------------
  // The writer
  // --------------------------------------------------------------------------

  method WriteString(buf: seq<byte>, t: string) returns (out: seq<byte>)
    ensures out == buf + TextBytes(t)
  {
    var bytes := Utf8.Encode(t);
    out := WriteVarint(buf, |bytes|);
    out := out + bytes;
  }

  /** `write_block`. */
  method WriteBlock(buf: seq<byte>, b: Block) returns (out: seq<byte>)
    ensures out == buf + BlockBytes(b)
  {
    hide ColumnBytes, ColumnsBytes, Encode;
    out := WriteInfo(buf);
    out := WriteVarint(out, |b.columns|);
    out := WriteVarint(out, b.rows);
    var head := out;
    NoColumns();
    for i := 0 to |b.columns|
      invariant out == head + ColumnsBytes(b.columns[..i])
    {
      out := WriteColumn(out, b.columns[i]);
      ColumnsSnoc(b.columns[..i], b.columns[i]);
      assert b.columns[..i] + [b.columns[i]] == b.columns[..i + 1];
    }
    assert b.columns[..|b.columns|] == b.columns;
    assert out == buf + BlockBytes(b);
  }

  /** The info in front of every block. */
  method WriteInfo(buf: seq<byte>) returns (out: seq<byte>)
    ensures out == buf + INFO
  {
    out := WriteVarint(buf, 1);
    out := out + [0];
    out := WriteVarint(out, 2);
    out := out + [255, 255, 255, 255];
    out := WriteVarint(out, 0);
  }

  method WriteColumn(buf: seq<byte>, c: ColumnInfo) returns (out: seq<byte>)
    ensures out == buf + ColumnBytes(c)
  {
    hide TextBytes;
    out := WriteString(buf, c.name);
    out := WriteString(out, c.typeName);
    out := out + [0];
    out := out + c.data;
  }

  lemma NoColumns()
    ensures ColumnsBytes([]) == []
  {
  }

  lemma {:induction false} ColumnsSnoc(cs: seq<ColumnInfo>, last: ColumnInfo)
    ensures ColumnsBytes(cs + [last]) == ColumnsBytes(cs) + ColumnBytes(last)
  {
    hide ColumnBytes;
    if cs == [] {
      assert [] + [last] == [last] && [last][1..] == [];
    } else {
      ColumnsSnoc(cs[1..], last);
      assert (cs + [last])[0] == cs[0] && (cs + [last])[1..] == cs[1..] + [last];
    }
  }

  /** `block_capacity`: exactly what `write_block` emits. */
  method BlockCapacity(b: Block) returns (n: nat)
    ensures n == |BlockBytes(b)|
  {
    hide ColumnsBytes;
    var one := VarintLen(1);
    var two := VarintLen(2);
    var zero := VarintLen(0);
    var cols := VarintLen(|b.columns|);
    var rows := VarintLen(b.rows);
    n := one + 1 + two + 4 + zero + cols + rows;
    NoColumns();
    for i := 0 to |b.columns|
      invariant n == 8 + |Encode(|b.columns|)| + |Encode(b.rows)| + |ColumnsBytes(b.columns[..i])|
    {
      var c := b.columns[i];
      var name := VarintLen(|Utf8.Encode(c.name)|);
      var typeName := VarintLen(|Utf8.Encode(c.typeName)|);
      n := n + name + |Utf8.Encode(c.name)| + typeName + |Utf8.Encode(c.typeName)| + 1 + |c.data|;
      ColumnsSnoc(b.columns[..i], c);
      assert b.columns[..i] + [c] == b.columns[..i + 1];
    }
    assert b.columns[..|b.columns|] == b.columns;
  }

  // --------------------------------------------------------------------------
  // The walk
  // --------------------------------------------------------------------------

  /** `parse_string`. */
  function ParseText(data: seq<byte>, pos: nat): (r: Result<(string, nat)>)
    ensures r.Ok? ==> pos <= r.value.1 <= |data|
  {
    var (n, p) :- VarintAt(data, pos);
    var len :- StringLen(n);
    var end :- Advance(data, p, len);
    match Utf8.Decode(data[p..end])
    case None => Err(BadUtf8)
    case Some(t) => Ok((t, end))
  }

  /** `skip_block_info`. */
  function ParseInfo(data: seq<byte>, pos: nat): (r: Result<nat>)
    requires pos <= |data|
    ensures r.Ok? ==> pos <= r.value <= |data|
    decreases |data| - pos
  {
    var (d, p) :- VarintAt(data, pos);
    if d == 1 then
      var q :- Advance(data, p, 1);
      ParseInfo(data, q)
    else if d == 2 then
      var q :- Advance(data, p, 4);
      ParseInfo(data, q)
    else if d == 3 then
      var (_, q) :- VarintAt(data, p);
      ParseInfo(data, q)
    else Ok(p)
  }

  /** `nested_json_below`. */
  predicate NestedJson(t: ColumnType, nested: bool)
    decreases TypeSize(t), 1
  {
    if t.Nullable? || t.Array? || t.LowCardinality? then NestedJson(t.inner, true)
    else if t.Map? then NestedJson(t.key, true) || NestedJson(t.value, true)
    else if t.Tuple? then SomeJson(t.elems)
    else if t.Variant? then SomeJson(t.types)
    else t.JSON? && nested
  }

  predicate SomeJson(ts: seq<ColumnType>)
    decreases TypesSize(ts), 0
  {
    ts != [] && (NestedJson(ts[0], true) || SomeJson(ts[1..]))
  }

  /** Where the bytes of a column end. The entries of a top-level dictionary are
      skipped as a column. */
  function ColumnEnd(data: seq<byte>, pos: nat, t: ColumnType, rows: nat): (r: Result<nat>)
    requires pos <= |data|
    ensures r.Ok? ==> pos <= r.value <= |data|
    ensures r.Ok? && t.JSON? && rows > 0 ==> pos + 8 <= r.value
  {
    if t.LowCardinality? && rows > 0 then DictionaryOf(data, pos, t.inner, rows) else SkipData(data, pos, t, rows)
  }

  /** `materialized_column_data_start`: a JSON column is kept without its version,
      and JSON inside another type is refused. */
  function KeptFrom(t: ColumnType, rows: nat): (r: Result<nat>)
    ensures r.Ok? && r.value != 0 ==> r.value == 8 && t.JSON? && rows > 0
  {
    if t.LowCardinality? || rows == 0 then Ok(0)
    else if NestedJson(t, false) then Err(Unsupported)
    else Ok(if t.JSON? then 8 else 0)
  }

  /** The rows of a dictionary column, if every index names an entry and they are
      within the column cap. */
  function Expanded(dict: seq<byte>, t: ColumnType, indexes: seq<byte>, width: nat, rows: nat): (r: Result<seq<byte>>)
  {
    if CanMaterialize(dict, t, indexes, width, rows) then Ok(Materialized(dict, t, indexes, width, rows))
    else Err(IndexOutOfBounds)
  }

  /** What is kept of a column: a top-level dictionary is replaced by its rows. */
  function KeptData(data: seq<byte>, pos: nat, t: ColumnType, rows: nat): (r: Result<seq<byte>>)
    requires pos <= |data| && ColumnEnd(data, pos, t, rows).Ok?
  {
    var end := ColumnEnd(data, pos, t, rows).value;
    if t.LowCardinality? && rows > 0 then
      var (width, keys, p) := DictionaryHeader(data, pos).value;
      var q := SkipData(data, p, t.inner, keys).value;
      Expanded(data[p..q], t.inner, data[q + 8..end], width, rows)
    else
      var skipped :- KeptFrom(t, rows);
      Ok(data[pos + skipped..end])
  }

  function ParseColumn(data: seq<byte>, pos: nat, rows: nat): (r: Result<(ColumnInfo, nat)>)
    ensures r.Ok? ==> pos <= r.value.1 <= |data|
  {
    var (name, p) :- ParseText(data, pos);
    var (typeName, q) :- ParseText(data, p);
    var start :- Advance(data, q, 1);
    var t :- ParseType(typeName);
    var end :- ColumnEnd(data, start, t, rows);
    var kept :- KeptData(data, start, t, rows);
    Ok((ColumnInfo(name, typeName, kept), end))
  }

  function ParseColumns(data: seq<byte>, pos: nat, n: nat, rows: nat): (r: Result<(seq<ColumnInfo>, nat)>)
    requires pos <= |data|
    ensures r.Ok? ==> pos <= r.value.1 <= |data|
    decreases n
  {
    if n == 0 then Ok(([], pos))
    else
      var (first, p) :- ParseColumn(data, pos, rows);
      var (rest, end) :- ParseColumns(data, p, n - 1, rows);
      Ok(([first] + rest, end))
  }

  /** The block at the start of `data` and the position behind it. */
  function ParseBlock(data: seq<byte>): (r: Result<(Block, nat)>)
  {
    var p :- ParseInfo(data, 0);
    var (cols, q) :- VarintAt(data, p);
    var n :- Capped(cols, MAX_BLOCK_COLUMNS);
    var (rowCount, s) :- VarintAt(data, q);
    var rows :- Capped(rowCount, MAX_BLOCK_ROWS);
    var (columns, end) :- ParseColumns(data, s, n, rows);
    Ok((Block(columns, rows), end))
  }

  method ReadInfo(data: seq<byte>, start: nat) returns (r: Result<nat>)
    requires start <= |data|
    ensures r == ParseInfo(data, start)
  {
    hide VarintAt;
    var pos: nat := start;
    while true
      invariant pos <= |data| && ParseInfo(data, start) == ParseInfo(data, pos)
      decreases |data| - pos
    {
      var d := ParseVarint(data, pos);
      if d.Err? { return Err(d.error); }
      var next: Result<nat> := Ok(d.value.1);
      if d.value.0 == 1 {
        next := Advance(data, d.value.1, 1);
      } else if d.value.0 == 2 {
        next := Advance(data, d.value.1, 4);
      } else if d.value.0 == 3 {
        var skipped := ParseVarint(data, d.value.1);
        next := if skipped.Ok? then Ok(skipped.value.1) else Err(skipped.error);
      } else {
        return next;
      }
      if next.Err? { return Err(next.error); }
      pos := next.value;
    }
  }

  /** The walk over a buffered block, column by column. */
  method ReadBlock(data: seq<byte>) returns (r: Result<(Block, nat)>)
    ensures r == ParseBlock(data)
  {
    hide VarintAt, ParseInfo, ParseColumn;
    var info := ReadInfo(data, 0);
    if info.Err? { return Err(info.error); }
    var cols := ParseVarint(data, info.value);
    if cols.Err? { return Err(cols.error); }
    var n := Capped(cols.value.0, MAX_BLOCK_COLUMNS);
    if n.Err? { return Err(n.error); }
    var rows := ParseVarint(data, cols.value.1);
    if rows.Err? { return Err(rows.error); }
    var m := Capped(rows.value.0, MAX_BLOCK_ROWS);
    if m.Err? { return Err(m.error); }
    var columns := ReadColumns(data, rows.value.1, n.value, m.value);
    if columns.Err? { return Err(columns.error); }
    return Ok((Block(columns.value.0, m.value), columns.value.1));
  }

  method ReadColumns(data: seq<byte>, start: nat, n: nat, rows: nat) returns (r: Result<(seq<ColumnInfo>, nat)>)
    requires start <= |data|
    ensures r == ParseColumns(data, start, n, rows)
  {
    hide ParseColumn;
    var columns: seq<ColumnInfo>, pos: nat := [], start;
    for i := 0 to n
      invariant pos <= |data|
      invariant ParseColumns(data, start, n, rows) == After(columns, ParseColumns(data, pos, n - i, rows))
    {
      var c := ReadColumn(data, pos, rows);
      if c.Err? { return Err(c.error); }
      AfterNext(columns, c.value.0, ParseColumns(data, c.value.1, n - i - 1, rows));
      columns, pos := columns + [c.value.0], c.value.1;
    }
    return Ok((columns, pos));
  }

  method ReadColumn(data: seq<byte>, pos: nat, rows: nat) returns (r: Result<(ColumnInfo, nat)>)
    ensures r == ParseColumn(data, pos, rows)
  {
    hide ParseText, ParseType, ColumnEnd, KeptData, KeptFrom;
    var name :- ParseText(data, pos);
    var typeName :- ParseText(data, name.1);
    var start :- Advance(data, typeName.1, 1);
    var t :- ParseType(typeName.0);
    var end :- ColumnEnd(data, start, t, rows);
    var kept :- ReadData(data, start, t, rows);
    return Ok((ColumnInfo(name.0, typeName.0, kept), end));
  }

  method ReadData(data: seq<byte>, start: nat, t: ColumnType, rows: nat) returns (r: Result<seq<byte>>)
    requires start <= |data| && ColumnEnd(data, start, t, rows).Ok?
    ensures r == KeptData(data, start, t, rows)
  {
    hide SkipData, CanMaterialize, Materialized, KeptFrom, KeptData, DictionaryHeader, DictionaryIndexes, DictionaryOf, Expanded;
    var end := ColumnEnd(data, start, t, rows).value;
    if t.LowCardinality? && rows > 0 {
      DictionarySteps(data, start, t.inner, rows);
      DictionaryKept(data, start, t.inner, rows);
      var (width, keys, p) := DictionaryHeader(data, start).value;
      var q := SkipData(data, p, t.inner, keys).value;
      var out := Materialize(data[p..q], t.inner, data[q + 8..end], width, rows);
      ExpandedIs(data[p..q], t.inner, data[q + 8..end], width, rows);
      if out.Err? { return Err(IndexOutOfBounds); }
      return out;
    }
    PlainKept(data, start, t, rows);
    var skipped :- KeptFrom(t, rows);
    return Ok(data[start + skipped..end]);
  }

  lemma ExpandedIs(dict: seq<byte>, t: ColumnType, indexes: seq<byte>, width: nat, rows: nat)
    ensures CanMaterialize(dict, t, indexes, width, rows) ==>
              Expanded(dict, t, indexes, width, rows) == Ok(Materialized(dict, t, indexes, width, rows))
    ensures !CanMaterialize(dict, t, indexes, width, rows) ==>
              Expanded(dict, t, indexes, width, rows) == Err(IndexOutOfBounds)
  {
    hide CanMaterialize, Materialized;
  }

  /** What is kept of a dictionary. */
  lemma DictionaryKept(data: seq<byte>, pos: nat, t: ColumnType, rows: nat)
    requires pos <= |data| && rows > 0 && DictionaryOf(data, pos, t, rows).Ok? && DictionaryHeader(data, pos).Ok?
    requires var (width, keys, p) := DictionaryHeader(data, pos).value;
             && p <= |data| && SkipData(data, p, t, keys).Ok?
             && SkipData(data, p, t, keys).value + 8 <= DictionaryOf(data, pos, t, rows).value <= |data|
    ensures var (width, keys, p) := DictionaryHeader(data, pos).value;
            var q, end := SkipData(data, p, t, keys).value, DictionaryOf(data, pos, t, rows).value;
            KeptData(data, pos, LowCardinality(t), rows) == Expanded(data[p..q], t, data[q + 8..end], width, rows)
  {
    hide SkipData, DictionaryHeader, DictionaryOf, Expanded;
  }

  /** Columns already read, in front of those still to come. */
  function After(done: seq<ColumnInfo>, r: Result<(seq<ColumnInfo>, nat)>): (s: Result<(seq<ColumnInfo>, nat)>)
    ensures done == [] ==> s == r
    ensures r.Ok? && r.value.0 == [] ==> s == Ok((done, r.value.1))
  {
    if r.Ok? then
      assert done == [] ==> done + r.value.0 == r.value.0;
      assert r.value.0 == [] ==> done + r.value.0 == done;
      Ok((done + r.value.0, r.value.1))
    else r
  }

  lemma AfterNext(done: seq<ColumnInfo>, c: ColumnInfo, r: Result<(seq<ColumnInfo>, nat)>)
    ensures After(done, After([c], r)) == After(done + [c], r)
  {
    if r.Ok? {
      assert done + ([c] + r.value.0) == done + [c] + r.value.0;
    }
  }

  // --------------------------------------------------------------------------
  // Round trip
  // --------------------------------------------------------------------------

  /** Every length fits the 64-bit integer it is written as. */
  predicate Encodable(b: Block)
  {
    |b.columns| < U64_LIMIT && b.rows < U64_LIMIT && forall i :: 0 <= i < |b.columns| ==> NamesEncodable(b.columns[i])
  }

  predicate NamesEncodable(c: ColumnInfo)
  {
    |Utf8.Encode(c.name)| < U64_LIMIT && |Utf8.Encode(c.typeName)| < U64_LIMIT
  }

  /** The column's names are within the string cap, its type name parses, and its
      data is exactly one column of that type, of which the rows can be kept. */
  predicate ColumnOk(c: ColumnInfo, rows: nat)
  {
    && |Utf8.Encode(c.name)| <= MAX_STRING_BYTES && |Utf8.Encode(c.typeName)| <= MAX_STRING_BYTES
    && var t := ParseType(c.typeName);
       t.Ok? && ColumnEnd(c.data, 0, t.value, rows) == Ok(|c.data|) && KeptData(c.data, 0, t.value, rows).Ok?
  }

  predicate ColumnsOk(cs: seq<ColumnInfo>, rows: nat)
  {
    forall i :: 0 <= i < |cs| ==> ColumnOk(cs[i], rows)
  }

  /** The column as the reader stores it. */
  function Stored(c: ColumnInfo, rows: nat): (k: ColumnInfo)
    requires ColumnOk(c, rows)
  {
    c.(data := KeptData(c.data, 0, ParseType(c.typeName).value, rows).value)
  }

  function StoredAll(cs: seq<ColumnInfo>, rows: nat): (ks: seq<ColumnInfo>)
    requires ColumnsOk(cs, rows)
    ensures |ks| == |cs|
  {
    if cs == [] then []
    else
      ColumnsOkStep(cs, rows);
      [Stored(cs[0], rows)] + StoredAll(cs[1..], rows)
  }

  /** No column is a dictionary that the reader expands. */
  predicate Undictionaried(c: ColumnInfo, rows: nat)
  {
    rows > 0 && ParseType(c.typeName).Ok? ==> !ParseType(c.typeName).value.LowCardinality?
  }

  /** No column is JSON whose version the reader drops. */
  predicate Unversioned(c: ColumnInfo, rows: nat)
  {
    rows > 0 && ParseType(c.typeName).Ok? ==> !ParseType(c.typeName).value.JSON?
  }

  /** Each column is read from exactly the bytes the writer took for it. */
  predicate EachRead(data: seq<byte>, pos: nat, cs: seq<ColumnInfo>, rows: nat)
    decreases |cs|
  {
    || cs == []
    || (&& ParseColumn(data, pos, rows).Ok?
        && ParseColumn(data, pos, rows).value.1 == pos + |ColumnBytes(cs[0])|
        && EachRead(data, pos + |ColumnBytes(cs[0])|, cs[1..], rows))
  }

  lemma TextRead(data: seq<byte>, pos: nat, t: string)
    requires Occurs(data, pos, TextBytes(t)) && |Utf8.Encode(t)| < U64_LIMIT
    ensures ParseText(data, pos)
         == if |Utf8.Encode(t)| <= MAX_STRING_BYTES then Ok((t, pos + |TextBytes(t)|)) else Err(TooLarge)
  {
    hide VarintAt, Encode, Utf8.Encode, Utf8.Decode;
    var bytes := Utf8.Encode(t);
    OccursConcat(data, pos, Encode(|bytes|), bytes);
    EncodeDecodes(data, pos, |bytes|);
    Utf8.RoundTrip(t);
  }

  /** The skip by name depends only on the bytes it passes over. */
  lemma ByNameIsLocal(buf: seq<byte>, pos: nat, other: seq<byte>, at: nat, name: string, rows: nat)
    requires pos <= |buf| && SkipByName(buf, pos, name, rows).Ok?
    requires Occurs(other, at, buf[pos..SkipByName(buf, pos, name, rows).value])
    ensures SkipByName(other, at, name, rows) == Ok(at + SkipByName(buf, pos, name, rows).value - pos)
  {
    hide SkipData, SkipStrings, ParseType;
    match ParseType(name)
    case Ok(t) => Framing.SkipIsLocal(buf, pos, other, at, t, rows);
    case Err(_) =>
      var items := FramingSound.StringsSound(buf, pos, rows);
      FramingComplete.StringsComplete(other, at, items);
  }

  /** So does the end of a column, dictionaries included. */
  lemma EndIsLocal(buf: seq<byte>, pos: nat, other: seq<byte>, at: nat, t: ColumnType, rows: nat)
    requires pos <= |buf| && ColumnEnd(buf, pos, t, rows).Ok?
    requires Occurs(other, at, buf[pos..ColumnEnd(buf, pos, t, rows).value])
    ensures ColumnEnd(other, at, t, rows) == Ok(at + ColumnEnd(buf, pos, t, rows).value - pos)
  {
    hide SkipData, DictionaryOf;
    if t.LowCardinality? && rows > 0 {
      DictionaryIsLocal(buf, pos, other, at, t.inner, rows);
    } else {
      Framing.SkipIsLocal(buf, pos, other, at, t, rows);
    }
  }

  lemma DictionaryIsLocal(buf: seq<byte>, pos: nat, other: seq<byte>, at: nat, t: ColumnType, rows: nat)
    requires pos <= |buf| && DictionaryOf(buf, pos, t, rows).Ok?
    requires Occurs(other, at, buf[pos..DictionaryOf(buf, pos, t, rows).value])
    ensures DictionaryOf(other, at, t, rows) == Ok(at + DictionaryOf(buf, pos, t, rows).value - pos)
  {
    hide SkipData, DictionaryHeader, DictionaryIndexes;
    var end := DictionaryOf(buf, pos, t, rows).value;
    var (width, keys, p) := DictionaryHeader(buf, pos).value;
    var q := SkipData(buf, p, t, keys).value;
    PieceThere(buf, pos, end, other, at, 0, 24);
    HeaderIsLocal(buf, pos, other, at);
    PieceThere(buf, pos, end, other, at, 24, q - pos);
    Framing.SkipIsLocal(buf, p, other, at + 24, t, keys);
    PieceThere(buf, pos, end, other, at, q - pos, end - pos);
    IndexesAreLocal(buf, q, other, at + q - pos, width, rows);
  }

  /** A piece of what stands in both buffers. */
  lemma PieceThere(buf: seq<byte>, pos: nat, end: nat, other: seq<byte>, at: nat, i: nat, j: nat)
    requires pos <= end <= |buf| && i <= j <= end - pos && Occurs(other, at, buf[pos..end])
    ensures Occurs(other, at + i, buf[pos + i..pos + j])
  {
    SubSlice(buf, pos, end, i, j);
    SubSlice(other, at, at + end - pos, i, j);
  }

  lemma HeaderIsLocal(buf: seq<byte>, pos: nat, other: seq<byte>, at: nat)
    requires pos + 24 <= |buf| && Occurs(other, at, buf[pos..pos + 24]) && DictionaryHeader(buf, pos).Ok?
    ensures DictionaryHeader(other, at)
         == Ok((DictionaryHeader(buf, pos).value.0, DictionaryHeader(buf, pos).value.1, at + 24))
  {
    hide LeValue;
    PieceThere(buf, pos, pos + 24, other, at, 0, 8);
    PieceThere(buf, pos, pos + 24, other, at, 8, 16);
    PieceThere(buf, pos, pos + 24, other, at, 16, 24);
  }

  lemma IndexesAreLocal(buf: seq<byte>, pos: nat, other: seq<byte>, at: nat, width: nat, rows: nat)
    requires pos <= |buf| && DictionaryIndexes(buf, pos, width, rows).Ok?
    requires Occurs(other, at, buf[pos..DictionaryIndexes(buf, pos, width, rows).value])
    ensures DictionaryIndexes(other, at, width, rows) == Ok(at + DictionaryIndexes(buf, pos, width, rows).value - pos)
  {
    hide LeValue;
    PieceThere(buf, pos, DictionaryIndexes(buf, pos, width, rows).value, other, at, 0, 8);
  }

  /** And so does what is kept of it. */
  lemma KeptIsLocal(buf: seq<byte>, pos: nat, other: seq<byte>, at: nat, t: ColumnType, rows: nat)
    requires pos <= |buf| && ColumnEnd(buf, pos, t, rows).Ok?
    requires Occurs(other, at, buf[pos..ColumnEnd(buf, pos, t, rows).value])
    ensures ColumnEnd(other, at, t, rows).Ok? && KeptData(other, at, t, rows) == KeptData(buf, pos, t, rows)
  {
    hide SkipData, DictionaryOf, KeptData;
    EndIsLocal(buf, pos, other, at, t, rows);
    if t.LowCardinality? && rows > 0 {
      RowsAreLocal(buf, pos, other, at, t.inner, rows);
    } else {
      SliceIsLocal(buf, pos, other, at, t, rows);
    }
  }

  lemma PlainKept(data: seq<byte>, pos: nat, t: ColumnType, rows: nat)
    requires pos <= |data| && ColumnEnd(data, pos, t, rows).Ok? && !(t.LowCardinality? && rows > 0)
    ensures KeptFrom(t, rows).Err? ==> KeptData(data, pos, t, rows) == Err(KeptFrom(t, rows).error)
    ensures KeptFrom(t, rows).Ok? ==>
              var start, end := pos + KeptFrom(t, rows).value, ColumnEnd(data, pos, t, rows).value;
              start <= end && KeptData(data, pos, t, rows) == Ok(data[start..end])
  {
    hide ColumnEnd, KeptFrom, Expanded;
  }

  lemma SliceIsLocal(buf: seq<byte>, pos: nat, other: seq<byte>, at: nat, t: ColumnType, rows: nat)
    requires pos <= |buf| && ColumnEnd(buf, pos, t, rows).Ok? && !(t.LowCardinality? && rows > 0)
    requires Occurs(other, at, buf[pos..ColumnEnd(buf, pos, t, rows).value])
    requires ColumnEnd(other, at, t, rows) == Ok(at + ColumnEnd(buf, pos, t, rows).value - pos)
    ensures KeptData(other, at, t, rows) == KeptData(buf, pos, t, rows)
  {
    hide ColumnEnd, KeptFrom, KeptData, Occurs;
    PlainKept(buf, pos, t, rows);
    PlainKept(other, at, t, rows);
    var end := ColumnEnd(buf, pos, t, rows).value;
    if KeptFrom(t, rows).Ok? {
      PieceThere(buf, pos, end, other, at, KeptFrom(t, rows).value, end - pos);
      SliceThere(other, at + KeptFrom(t, rows).value, buf[pos + KeptFrom(t, rows).value..end]);
    }
  }

  /** The parts of a dictionary. */
  lemma DictionarySteps(buf: seq<byte>, pos: nat, t: ColumnType, rows: nat)
    requires pos <= |buf| && DictionaryOf(buf, pos, t, rows).Ok?
    ensures DictionaryHeader(buf, pos).Ok?
    ensures var (width, keys, p) := DictionaryHeader(buf, pos).value;
            && p == pos + 24 && SkipData(buf, p, t, keys).Ok?
            && var q, end := SkipData(buf, p, t, keys).value, DictionaryOf(buf, pos, t, rows).value;
               p <= q && DictionaryIndexes(buf, q, width, rows) == Ok(end) && q + 8 <= end <= |buf|
  {
    hide SkipData, LeValue;
  }

  lemma RowsAreLocal(buf: seq<byte>, pos: nat, other: seq<byte>, at: nat, t: ColumnType, rows: nat)
    requires pos <= |buf| && DictionaryOf(buf, pos, t, rows).Ok? && rows > 0
    requires Occurs(other, at, buf[pos..DictionaryOf(buf, pos, t, rows).value])
    requires DictionaryOf(other, at, t, rows) == Ok(at + DictionaryOf(buf, pos, t, rows).value - pos)
    ensures KeptData(other, at, LowCardinality(t), rows) == KeptData(buf, pos, LowCardinality(t), rows)
  {
    hide SkipData, DictionaryHeader, DictionaryIndexes, DictionaryOf, Expanded;
    DictionarySteps(buf, pos, t, rows);
    DictionarySteps(other, at, t, rows);
    var end := DictionaryOf(buf, pos, t, rows).value;
    var (width, keys, p) := DictionaryHeader(buf, pos).value;
    var q := SkipData(buf, p, t, keys).value;
    PieceThere(buf, pos, end, other, at, 0, 24);
    HeaderIsLocal(buf, pos, other, at);
    PieceThere(buf, pos, end, other, at, 24, q - pos);
    Framing.SkipIsLocal(buf, p, other, at + 24, t, keys);
    PieceThere(buf, pos, end, other, at, q + 8 - pos, end - pos);
  }

  /** The column's data where it stands ends as it does on its own. */
  lemma DataInPlace(data: seq<byte>, at: nat, c: ColumnInfo, t: ColumnType, rows: nat)
    requires Occurs(data, at, c.data)
    ensures ColumnEnd(data, at, t, rows) == Ok(at + |c.data|) <==> ColumnEnd(c.data, 0, t, rows) == Ok(|c.data|)
    ensures ColumnEnd(c.data, 0, t, rows) == Ok(|c.data|) ==> KeptData(data, at, t, rows) == KeptData(c.data, 0, t, rows)
  {
    hide ColumnEnd, KeptData;
    assert c.data[0..|c.data|] == c.data;
    if ColumnEnd(c.data, 0, t, rows) == Ok(|c.data|) {
      EndIsLocal(c.data, 0, data, at, t, rows);
      KeptIsLocal(c.data, 0, data, at, t, rows);
    }
    if ColumnEnd(data, at, t, rows) == Ok(at + |c.data|) {
      EndIsLocal(data, at, c.data, 0, t, rows);
    }
  }

  lemma ColumnParts(data: seq<byte>, pos: nat, c: ColumnInfo)
    requires Occurs(data, pos, ColumnBytes(c))
    ensures Occurs(data, pos, TextBytes(c.name))
    ensures var p := pos + |TextBytes(c.name)|;
            var q := p + |TextBytes(c.typeName)|;
            && Occurs(data, p, TextBytes(c.typeName)) && q < |data| && data[q] == 0 && Occurs(data, q + 1, c.data)
            && pos + |ColumnBytes(c)| == q + 1 + |c.data|
  {
    hide TextBytes;
    var p := pos + |TextBytes(c.name)|;
    var q := p + |TextBytes(c.typeName)|;
    OccursConcat(data, pos, TextBytes(c.name), TextBytes(c.typeName) + ([0] + c.data));
    OccursConcat(data, p, TextBytes(c.typeName), [0] + c.data);
    OccursConcat(data, q, [0], c.data);
  }

  lemma ColumnRead(data: seq<byte>, pos: nat, c: ColumnInfo, rows: nat)
    requires Occurs(data, pos, ColumnBytes(c)) && NamesEncodable(c)
    ensures ParseColumn(data, pos, rows).Ok? && ParseColumn(data, pos, rows).value.1 == pos + |ColumnBytes(c)|
       <==> ColumnOk(c, rows)
    ensures ColumnOk(c, rows) ==> ParseColumn(data, pos, rows) == Ok((Stored(c, rows), pos + |ColumnBytes(c)|))
  {
    hide ParseText, ColumnEnd, KeptData, TextBytes, ColumnBytes, Occurs, Utf8.Encode, ParseType;
    ColumnParts(data, pos, c);
    TextRead(data, pos, c.name);
    var p := pos + |TextBytes(c.name)|;
    TextRead(data, p, c.typeName);
    var start := p + |TextBytes(c.typeName)| + 1;
    var t := ParseType(c.typeName);
    if t.Ok? {
      DataInPlace(data, start, c, t.value, rows);
    }
  }

  /** Without dictionaries and JSON a column is stored as it is. */
  lemma StoredAsIs(c: ColumnInfo, rows: nat)
    requires ColumnOk(c, rows) && Undictionaried(c, rows)
    ensures Stored(c, rows) == c <==> Unversioned(c, rows)
  {
    hide ColumnEnd, Utf8.Encode, ParseType, NestedJson;
    assert c.data[0..|c.data|] == c.data;
  }

  lemma SliceThere(data: seq<byte>, at: nat, s: seq<byte>)
    requires Occurs(data, at, s)
    ensures at + |s| <= |data| && data[at..at + |s|] == s
  {
  }

  /** No name, column or list of columns is read from fewer bytes than the writer
      takes for it. */
  lemma TextLower(data: seq<byte>, pos: nat)
    requires ParseText(data, pos).Ok?
    ensures ParseText(data, pos).value.1 >= pos + |TextBytes(ParseText(data, pos).value.0)|
  {
    hide VarintAt, Encode, Utf8.Encode, Utf8.Decode;
    var (n, p) := VarintAt(data, pos).value;
    var (t, end) := ParseText(data, pos).value;
    VarintAtMeaning(data, pos, n, p);
    EncodeShortest(n, data[pos..p]);
    Utf8.ExactText(data[p..end], t);
  }

  lemma ColumnLower(data: seq<byte>, pos: nat, rows: nat)
    requires ParseColumn(data, pos, rows).Ok? && Undictionaried(ParseColumn(data, pos, rows).value.0, rows)
    ensures ParseColumn(data, pos, rows).value.1 >= pos + |ColumnBytes(ParseColumn(data, pos, rows).value.0)|
  {
    hide ParseText, ColumnEnd, KeptFrom, TextBytes, ParseType;
    TextLower(data, pos);
    TextLower(data, ParseText(data, pos).value.1);
  }

  lemma {:induction false} ColumnsLower(data: seq<byte>, pos: nat, n: nat, rows: nat)
    requires pos <= |data| && ParseColumns(data, pos, n, rows).Ok?
    requires AllUndictionaried(ParseColumns(data, pos, n, rows).value.0, rows)
    ensures ParseColumns(data, pos, n, rows).value.1 >= pos + |ColumnsBytes(ParseColumns(data, pos, n, rows).value.0)|
    decreases n
  {
    hide ParseColumn, ColumnBytes, Undictionaried;
    if n > 0 {
      var (first, p) := ParseColumn(data, pos, rows).value;
      var rest := ParseColumns(data, p, n - 1, rows).value.0;
      assert ([first] + rest)[0] == first && ([first] + rest)[1..] == rest;
      ColumnLower(data, pos, rows);
      ColumnsLower(data, p, n - 1, rows);
    }
  }

  predicate AllUndictionaried(cs: seq<ColumnInfo>, rows: nat)
  {
    cs == [] || (Undictionaried(cs[0], rows) && AllUndictionaried(cs[1..], rows))
  }

  predicate AllUnversioned(cs: seq<ColumnInfo>, rows: nat)
  {
    cs == [] || (Unversioned(cs[0], rows) && AllUnversioned(cs[1..], rows))
  }

  lemma {:induction false} ColumnsRead(data: seq<byte>, pos: nat, cs: seq<ColumnInfo>, rows: nat)
    requires Occurs(data, pos, ColumnsBytes(cs)) && forall i :: 0 <= i < |cs| ==> NamesEncodable(cs[i])
    ensures EachRead(data, pos, cs, rows) <==> ColumnsOk(cs, rows)
    ensures ColumnsOk(cs, rows) ==>
              ParseColumns(data, pos, |cs|, rows) == Ok((StoredAll(cs, rows), pos + |ColumnsBytes(cs)|))
    decreases |cs|
  {
    hide ParseColumn, ColumnBytes, Occurs, ColumnOk, NamesEncodable, Stored;
    if cs != [] {
      var c, rest := cs[0], cs[1..];
      OccursConcat(data, pos, ColumnBytes(c), ColumnsBytes(rest));
      ColumnRead(data, pos, c, rows);
      ColumnsRead(data, pos + |ColumnBytes(c)|, rest, rows);
      ColumnsOkStep(cs, rows);
    }
  }

  /** Where nothing is expanded, columns that come back unchanged, and end where they
      were written to, are each read from their own bytes. */
  lemma {:induction false} UnchangedIsEach(data: seq<byte>, pos: nat, cs: seq<ColumnInfo>, rows: nat)
    requires Occurs(data, pos, ColumnsBytes(cs)) && AllUndictionaried(cs, rows)
    requires ParseColumns(data, pos, |cs|, rows) == Ok((cs, pos + |ColumnsBytes(cs)|))
    ensures EachRead(data, pos, cs, rows)
    decreases |cs|
  {
    hide ParseColumn, ColumnBytes, Occurs, Undictionaried;
    if cs != [] {
      var c, rest := cs[0], cs[1..];
      OccursConcat(data, pos, ColumnBytes(c), ColumnsBytes(rest));
      var (first, p) := ParseColumn(data, pos, rows).value;
      var others := ParseColumns(data, p, |rest|, rows).value.0;
      assert ([first] + others)[0] == first && ([first] + others)[1..] == others;
      ColumnLower(data, pos, rows);
      ColumnsLower(data, p, |rest|, rows);
      UnchangedIsEach(data, p, rest, rows);
    }
  }

  lemma {:induction false} StoredAllAsIs(cs: seq<ColumnInfo>, rows: nat)
    requires ColumnsOk(cs, rows) && AllUndictionaried(cs, rows)
    ensures StoredAll(cs, rows) == cs <==> AllUnversioned(cs, rows)
    decreases |cs|
  {
    hide ColumnOk, Stored, Undictionaried, Unversioned;
    if cs != [] {
      ColumnsOkStep(cs, rows);
      StoredAsIs(cs[0], rows);
      StoredAllAsIs(cs[1..], rows);
      var ks := StoredAll(cs, rows);
      assert ks[0] == Stored(cs[0], rows) && ks[1..] == StoredAll(cs[1..], rows);
      assert [cs[0]] + cs[1..] == cs;
    }
  }

  lemma ColumnsOkStep(cs: seq<ColumnInfo>, rows: nat)
    requires cs != []
    ensures ColumnsOk(cs, rows) <==> ColumnOk(cs[0], rows) && ColumnsOk(cs[1..], rows)
  {
    hide ColumnOk;
    assert forall i :: 0 < i < |cs| ==> cs[i] == cs[1..][i - 1];
    assert forall i :: 0 <= i < |cs[1..]| ==> cs[1..][i] == cs[i + 1];
  }

  lemma InfoRead(data: seq<byte>)
    requires Occurs(data, 0, INFO)
    ensures ParseInfo(data, 0) == Ok(8)
  {
    assert data[..8] == INFO;
    assert data[0] == 1 && data[1] == 0 && data[2] == 2 && data[7] == 0;
    assert VarintAt(data, 0) == Ok((1, 1)) && VarintAt(data, 2) == Ok((2, 3)) && VarintAt(data, 7) == Ok((0, 8));
    assert ParseInfo(data, 7) == Ok(8);
    assert ParseInfo(data, 2) == Ok(8);
  }

  predicate WithinCaps(b: Block)
  {
    |b.columns| <= MAX_BLOCK_COLUMNS && b.rows <= MAX_BLOCK_ROWS
  }

  /** Where the columns of a written block begin. */
  function HeadLen(b: Block): (n: nat)
  {
    |INFO| + |Encode(|b.columns|)| + |Encode(b.rows)|
  }

  /** What the reader finds before the columns. */
  lemma HeadRead(b: Block, data: seq<byte>)
    requires Encodable(b) && Occurs(data, 0, BlockBytes(b))
    ensures Occurs(data, HeadLen(b), ColumnsBytes(b.columns))
    ensures HeadLen(b) + |ColumnsBytes(b.columns)| == |BlockBytes(b)|
    ensures WithinCaps(b) ==>
              var r := ParseColumns(data, HeadLen(b), |b.columns|, b.rows);
              ParseBlock(data) == if r.Err? then Err(r.error) else Ok((Block(r.value.0, b.rows), r.value.1))
    ensures !WithinCaps(b) ==> ParseBlock(data).Err?
  {
    hide VarintAt, Encode, Occurs, ParseInfo, ParseColumns, ColumnsBytes, NamesEncodable;
    var n, rows, cols := Encode(|b.columns|), Encode(b.rows), ColumnsBytes(b.columns);
    OccursConcat(data, 0, INFO, n + (rows + cols));
    OccursConcat(data, 8, n, rows + cols);
    OccursConcat(data, 8 + |n|, rows, cols);
    InfoRead(data);
    EncodeDecodes(data, 8, |b.columns|);
    EncodeDecodes(data, 8 + |n|, b.rows);
  }

  /** A written block, followed by anything: each column is read from its own bytes
      exactly when the block is within the caps and every column's data is well formed
      for the type the column names, its dictionary entries included. Then the reader
      returns the block with dictionaries expanded and without JSON versions. Where no
      dictionary is expanded, the block comes back unchanged exactly when moreover no
      column with rows is JSON. */
  lemma BlockRoundTrip(b: Block, rest: seq<byte>)
    requires Encodable(b)
    ensures ParseBlock(BlockBytes(b) + rest).Ok? && EachRead(BlockBytes(b) + rest, HeadLen(b), b.columns, b.rows)
       <==> WithinCaps(b) && ColumnsOk(b.columns, b.rows)
    ensures WithinCaps(b) && ColumnsOk(b.columns, b.rows) ==>
              ParseBlock(BlockBytes(b) + rest) == Ok((Block(StoredAll(b.columns, b.rows), b.rows), |BlockBytes(b)|))
    ensures AllUndictionaried(b.columns, b.rows) ==>
              (ParseBlock(BlockBytes(b) + rest) == Ok((b, |BlockBytes(b)|)) <==>
                 WithinCaps(b) && ColumnsOk(b.columns, b.rows) && AllUnversioned(b.columns, b.rows))
  {
    hide Occurs, ParseBlock, ParseColumns, ColumnsBytes, BlockBytes, NamesEncodable, ColumnsOk, EachRead, HeadLen;
    hide AllUndictionaried, AllUnversioned, StoredAll;
    var data := BlockBytes(b) + rest;
    OccursThere(data, BlockBytes(b), rest);
    HeadRead(b, data);
    ColumnsRead(data, HeadLen(b), b.columns, b.rows);
    if AllUndictionaried(b.columns, b.rows) {
      if ParseBlock(data) == Ok((b, |BlockBytes(b)|)) {
        UnchangedIsEach(data, HeadLen(b), b.columns, b.rows);
      }
      if ColumnsOk(b.columns, b.rows) {
        StoredAllAsIs(b.columns, b.rows);
      }
    }
  }

  /** One row of LowCardinality(UInt8) whose dictionary is the number 7: the reader
      stores the byte 7 and not the column. */
  lemma DictionaryIsRewritten()
    ensures var data := DictionarySeven();
            && ColumnEnd(data, 0, LowCardinality(UInt8), 1) == Ok(|data|)
            && KeptData(data, 0, LowCardinality(UInt8), 1) == Ok([7])
  {
    hide U64Bytes, LeValue, SkipData;
    var data := DictionarySeven();
    var tail: seq<byte> := U64Bytes(1) + [0];
    assert data[0..24] == HeaderWire(0x200, 1) && data[24..25] == [7] && data[25..33] == U64Bytes(1) && data[33..34] == [0];
    FramingComplete.HeaderComplete(data, 0, 0x200, 1);
    assert IndexWidth(1, 0x200) == Ok(1);
    CellsSkipped(data, 24, UInt8, 1);
    FramingComplete.U64Complete(data, 25, 1);
    assert DictionaryIndexes(data, 25, 1, 1) == Ok(34);
    assert DictionaryOf(data, 0, UInt8, 1) == Ok(34);
    SevenExpanded();
  }

  function DictionarySeven(): (data: seq<byte>)
    ensures |data| == 34
  {
    HeaderWire(0x200, 1) + [7] + U64Bytes(1) + [0]
  }

  lemma SevenExpanded()
    ensures Expanded([7], UInt8, [0], 1, 1) == Ok([7])
  {
    hide LowCardinality.IndexAt;
    var dict: seq<byte>, indexes: seq<byte> := [7], [0];
    FirstIndex();
    assert LowCardinality.HasEntry(dict, 1, LowCardinality.IndexAt(indexes, 0, 1));
    assert CanMaterialize(dict, UInt8, indexes, 1, 1);
    assert LowCardinality.Expand(dict, 1, indexes, 1, 0) == [];
    assert dict[0..1] == [7];
    assert LowCardinality.Expand(dict, 1, indexes, 1, 1) == [7];
  }

  /** What is stored for a dictionary column is a column of the inner type. */
  lemma StoredDictionary(c: ColumnInfo, rows: nat)
    requires ColumnOk(c, rows) && rows > 0
    requires ParseType(c.typeName).value.LowCardinality? && !ParseType(c.typeName).value.inner.JSON?
    ensures var out := Stored(c, rows).data;
            SkipData(out, 0, ParseType(c.typeName).value.inner, rows) == Ok(|out|)
  {
    hide SkipData, ParseType, Utf8.Encode, CanMaterialize, Materialized, DictionaryHeader, DictionaryIndexes, DictionaryOf;
    var t := ParseType(c.typeName).value.inner;
    DictionarySteps(c.data, 0, t, rows);
    var (width, keys, p) := DictionaryHeader(c.data, 0).value;
    var q := SkipData(c.data, p, t, keys).value;
    var dict := c.data[p..q];
    assert Occurs(dict, 0, dict) by { assert dict[0..|dict|] == dict; }
    Framing.SkipIsLocal(c.data, p, dict, 0, t, keys);
    MaterializedIsColumn(dict, t, keys, c.data[q + 8..|c.data|], width, rows);
  }

  lemma OccursThere(data: seq<byte>, a: seq<byte>, b: seq<byte>)
    requires data == a + b
    ensures Occurs(data, 0, a)
  {
  }

  /** Of a top-level JSON column the slice without its first eight bytes is the
      text of the rows. */
  lemma JsonSliceIsText(data: seq<byte>, rows: nat)
    requires rows > 0 && SkipData(data, 0, JSON, rows) == Ok(|data|)
    ensures |data| >= 8 && SkipStrings(data[8..], 0, rows) == Ok(|data| - 8)
  {
    hide SkipStrings;
    JsonSkip(data, rows);
    var items := FramingSound.StringsSound(data, 8, rows);
    assert data[8..] == StrsWire(items);
    OccursThere(data[8..], StrsWire(items), []);
    FramingComplete.StringsComplete(data[8..], 0, items);
  }

  lemma JsonSkip(data: seq<byte>, rows: nat)
    requires rows > 0 && SkipData(data, 0, JSON, rows) == Ok(|data|)
    ensures |data| >= 8 && SkipStrings(data, 8, rows) == Ok(|data|)
  {
    hide SkipStrings, LeValue;
  }
}
