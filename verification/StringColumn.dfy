/** The streaming reader of length-prefixed strings
    (`read_string_column_with_prefixes`, src/connection/io.rs): it writes each string
    behind its shortest prefix and charges what it writes against the column cap. */
module StringColumn {
  import opened Bytes
  import opened Limits
  import opened Varint
  import opened SkipSpec

  /** A string as it is written: shortest length, then the bytes. */
  function Packed(s: seq<byte>): (out: seq<byte>)
  {
    Encode(|s|) + s
  }

  function Pack(items: seq<seq<byte>>): (out: seq<byte>)
  {
    if items == [] then [] else Packed(items[0]) + Pack(items[1..])
  }

  /** The strings at `pos`, as far as they can be read. */
  function StringsAt(buf: seq<byte>, pos: nat, rows: nat): (items: seq<seq<byte>>)
    requires pos <= |buf|
    ensures |items| <= rows
    decreases rows
  {
    if rows == 0 then []
    else
      match VarintAt(buf, pos)
      case Err(_) => []
      case Ok((n, p)) =>
        if n > MAX_STRING_BYTES || p + n > |buf| then [] else [buf[p..p + n]] + StringsAt(buf, p + n, rows - 1)
  }

  /** What the strings at `pos` take up when they are written again. */
  function PackedSize(buf: seq<byte>, pos: nat, rows: nat): (n: nat)
    requires pos <= |buf|
  {
    |Pack(StringsAt(buf, pos, rows))|
  }

  /** Strings whose prefixes and bytes add up to at most a column. */
  function CappedStrings(buf: seq<byte>, pos: nat, rows: nat, total: nat): (r: Result<nat>)
    requires pos <= |buf|
    ensures r.Ok? ==> pos <= r.value <= |buf|
    decreases rows
  {
    if rows == 0 then Ok(pos)
    else
      var (n, p) :- VarintAt(buf, pos);
      var len :- StringLen(n);
      var sum :- Capped(total + |Encode(len)| + len, MAX_COLUMN_BYTES);
      var q :- Advance(buf, p, len);
      CappedStrings(buf, q, rows - 1, sum)
  }

  // --------------------------------------------------------------------------
  // What the cap is about
  // --------------------------------------------------------------------------

  /** One string further. */
  lemma StringStep(buf: seq<byte>, pos: nat, rows: nat, total: nat)
    requires pos <= |buf| && rows > 0
    ensures match VarintAt(buf, pos)
            case Err(_) => SkipStrings(buf, pos, rows).Err? && CappedStrings(buf, pos, rows, total).Err?
            case Ok((n, p)) =>
              if n > MAX_STRING_BYTES || p + n > |buf| then
                SkipStrings(buf, pos, rows).Err? && CappedStrings(buf, pos, rows, total).Err?
              else
                && SkipStrings(buf, pos, rows) == SkipStrings(buf, p + n, rows - 1)
                && PackedSize(buf, pos, rows) == |Encode(n)| + n + PackedSize(buf, p + n, rows - 1)
                && Pack(StringsAt(buf, pos, rows)) == Packed(buf[p..p + n]) + Pack(StringsAt(buf, p + n, rows - 1))
                && (if total + |Encode(n)| + n > MAX_COLUMN_BYTES then CappedStrings(buf, pos, rows, total).Err?
                    else CappedStrings(buf, pos, rows, total) == CappedStrings(buf, p + n, rows - 1, total + |Encode(n)| + n))
  {
    hide VarintAt, Encode;
    match VarintAt(buf, pos)
    case Err(_) =>
    case Ok((n, p)) =>
      if n <= MAX_STRING_BYTES && p + n <= |buf| {
        var first, rest := buf[p..p + n], StringsAt(buf, p + n, rows - 1);
        assert ([first] + rest)[1..] == rest;
      }
  }

  /** The reader takes the strings exactly when they are there and, written again, take
      no more than a column. */
  lemma {:induction false} CappedExactly(buf: seq<byte>, pos: nat, rows: nat, total: nat)
    requires pos <= |buf| && total <= MAX_COLUMN_BYTES
    ensures CappedStrings(buf, pos, rows, total).Ok?
       <==> SkipStrings(buf, pos, rows).Ok? && total + PackedSize(buf, pos, rows) <= MAX_COLUMN_BYTES
    ensures CappedStrings(buf, pos, rows, total).Ok? ==>
              CappedStrings(buf, pos, rows, total) == SkipStrings(buf, pos, rows)
    decreases rows
  {
    hide VarintAt, Encode, PackedSize, SkipStrings, CappedStrings;
    if rows == 0 {
      NoStringsLeft(buf, pos, total);
    } else {
      StringStep(buf, pos, rows, total);
      match VarintAt(buf, pos)
      case Err(_) =>
      case Ok((n, p)) =>
        if n <= MAX_STRING_BYTES && p + n <= |buf| && total + |Encode(n)| + n <= MAX_COLUMN_BYTES {
          CappedExactly(buf, p + n, rows - 1, total + |Encode(n)| + n);
        }
    }
  }

  lemma NoStringsLeft(buf: seq<byte>, pos: nat, total: nat)
    requires pos <= |buf|
    ensures SkipStrings(buf, pos, 0) == Ok(pos) && CappedStrings(buf, pos, 0, total) == Ok(pos)
    ensures PackedSize(buf, pos, 0) == 0 && Pack(StringsAt(buf, pos, 0)) == []
  {
  }

  /** No prefix on the wire is shorter than the one written. */
  lemma {:induction false} SizeConsumes(buf: seq<byte>, pos: nat, rows: nat)
    requires pos <= |buf| && SkipStrings(buf, pos, rows).Ok?
    ensures SkipStrings(buf, pos, rows).value >= pos + PackedSize(buf, pos, rows)
    decreases rows
  {
    hide VarintAt, Encode, PackedSize, SkipStrings;
    if rows == 0 {
      NoStringsLeft(buf, pos, 0);
    } else {
      StringStep(buf, pos, rows, 0);
      var (n, p) := VarintAt(buf, pos).value;
      VarintAtMeaning(buf, pos, n, p);
      EncodeShortest(n, buf[pos..p]);
      SizeConsumes(buf, p + n, rows - 1);
    }
  }

  /** What is written is a column of the same strings. */
  lemma {:induction false} PackIsColumn(items: seq<seq<byte>>, buf: seq<byte>, pos: nat)
    requires forall i :: 0 <= i < |items| ==> |items[i]| <= MAX_STRING_BYTES
    requires Occurs(buf, pos, Pack(items))
    ensures SkipStrings(buf, pos, |items|) == Ok(pos + |Pack(items)|) && StringsAt(buf, pos, |items|) == items
    ensures PackedSize(buf, pos, |items|) == |Pack(items)|
    decreases |items|
  {
    hide VarintAt, Encode;
    if items != [] {
      var s, rest := items[0], items[1..];
      OccursConcat(buf, pos, Packed(s), Pack(rest));
      OccursConcat(buf, pos, Encode(|s|), s);
      EncodeDecodes(buf, pos, |s|);
      PackIsColumn(rest, buf, pos + |Packed(s)|);
      assert [s] + rest == items;
    }
  }

  // --------------------------------------------------------------------------
  // The reader
  // --------------------------------------------------------------------------

  const MERGED_MAX: nat := 4096

  lemma FirstByte(buf: seq<byte>, at: nat)
    requires 0 < at <= |buf|
    ensures var first := buf[at - 1];
            VarintAt(buf, at - 1) == if first < 128 then Ok((first, at)) else Above(ReadGroups(buf, at, 1), first % 128, 7)
  {
    hide ReadGroups, Above;
    AboveNone(VarintAt(buf, at - 1));
    assert Shl(buf[at - 1] % 128, 0) == buf[at - 1] % 128;
    if buf[at - 1] < 128 {
      AboveLast(buf, at - 1, 0, 0);
    } else {
      AboveStep(buf, at - 1, 0, 0);
    }
  }

  /** The rest of a varint whose first byte is read already. */
  method ReadVarintRest(buf: seq<byte>, at: nat, first: byte) returns (r: Result<(nat, nat)>)
    requires 0 < at <= |buf| && buf[at - 1] == first
    ensures r.Ok? <==> VarintAt(buf, at - 1).Ok?
    ensures r.Ok? ==> r == VarintAt(buf, at - 1)
  {
    hide VarintAt, ReadGroups, Above, Shl;
    FirstByte(buf, at);
    if first < 128 {
      return Ok((first, at));
    }
    var value: nat, shift: nat, pos: nat := first % 128, 7, at;
    ghost var k := 1;
    while true
      invariant 1 <= k <= MAX_VARINT_BYTES && shift == 7 * k && pos <= |buf|
      invariant VarintAt(buf, at - 1) == Above(ReadGroups(buf, pos, k), value, shift)
      decreases MAX_VARINT_BYTES - k
    {
      AboveStops(buf, pos, k, value, shift);
      if shift >= 64 { return Err(VarintOverflow); }
      if pos >= |buf| { return Err(Truncated); }
      var b := buf[pos];
      if shift == 63 && b % 128 > 1 { return Err(VarintOverflow); }
      if b < 128 {
        AboveLast(buf, pos, k, value);
        return Ok((value + Shl(b % 128, shift), pos + 1));
      }
      AboveStep(buf, pos, k, value);
      value, shift, pos := value + Shl(b % 128, shift), shift + 7, pos + 1;
      k := k + 1;
    }
  }

  /** `read_string_column_with_prefixes`. A short string is read together with the first
      byte of the next prefix, which then is pending. */
  method ReadStringColumn(buf: seq<byte>, start: nat, rows: nat) returns (r: Result<(seq<byte>, nat)>)
    requires start <= |buf|
    ensures r.Ok? <==> CappedStrings(buf, start, rows, 0).Ok?
    ensures r.Ok? ==> r.value == (Pack(StringsAt(buf, start, rows)), CappedStrings(buf, start, rows, 0).value)
  {
    hide VarintAt, CappedStrings, StringsAt, Pack, Encode, PackedSize;
    var data: seq<byte>, total: nat, at: nat, pending: Option<byte> := [], 0, start, None;
    ghost var pos: nat := start;
    for i := 0 to rows
      invariant pos <= |buf| && Ahead(buf, pos, at, pending) && (i == rows ==> pending.None?)
      invariant CappedStrings(buf, start, rows, 0) == CappedStrings(buf, pos, rows - i, total)
      invariant Pack(StringsAt(buf, start, rows)) == data + Pack(StringsAt(buf, pos, rows - i))
    {
      StringStep(buf, pos, rows - i, total);
      var first: byte;
      if pending.Some? {
        first := pending.value;
      } else {
        if at >= |buf| {
          NoVarint(buf, pos);
          return Err(Truncated);
        }
        first, at := buf[at], at + 1;
      }
      pending := None;
      var v := ReadVarintRest(buf, at, first);
      if v.Err? { return Err(v.error); }
      var len :- StringLen(v.value.0);
      var prefix := VarintLen(len);
      total :- Capped(total + prefix + len, MAX_COLUMN_BYTES);
      data := WriteVarint(data, len);
      at := v.value.1;
      var last := i + 1 == rows;
      var n := if len > MERGED_MAX || last then len else len + 1;
      if at + n > |buf| {
        if at + len == |buf| { Nothing(buf, rows - i - 1, total); }
        return Err(Truncated);
      }
      data := data + buf[at..at + len];
      if n > len { pending := Some(buf[at + len]); }
      pos := at + len;
      at := at + n;
    }
    NoStringsLeft(buf, pos, total);
    assert data + [] == data;
    return Ok((data, at));
  }

  /** The stream is at the next string, or one byte ahead of it. */
  ghost predicate Ahead(buf: seq<byte>, pos: nat, at: nat, pending: Option<byte>)
  {
    && at <= |buf|
    && if pending.None? then at == pos else at == pos + 1 && buf[pos] == pending.value
  }

  lemma NoVarint(buf: seq<byte>, pos: nat)
    requires pos == |buf|
    ensures VarintAt(buf, pos).Err?
  {
  }

  lemma Nothing(buf: seq<byte>, rows: nat, total: nat)
    requires rows > 0
    ensures CappedStrings(buf, |buf|, rows, total).Err?
  {
    NoVarint(buf, |buf|);
  }
}
