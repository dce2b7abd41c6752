/** Unsigned LEB128 integers (section 7.6 of DWARF Version 5), limited to
    `u64`: one declarative description of the accepted byte strings, one
    reference reader, and the separately written encoders and decoders of the
    original, each proved to agree with the reference. */
module Varint {
  import opened Bytes

  const MAX_VARINT_BYTES: nat := 10

  /** Continuation bits set on every byte but the last. */
  ghost predicate Terminated(s: seq<byte>)
  {
    |s| > 0 && s[|s| - 1] < 128 && forall i :: 0 <= i < |s| - 1 ==> s[i] >= 128
  }

  /** The number whose base-128 digits, lowest first, are the payloads of `s`. */
  function GroupValue(s: seq<byte>): (v: nat)
  {
    if s == [] then 0 else s[0] % 128 + 128 * GroupValue(s[1..])
  }

  /** The language of varints: terminated, at most ten bytes, fits a `u64`. */
  ghost predicate IsVarint(s: seq<byte>)
  {
    Terminated(s) && |s| <= MAX_VARINT_BYTES && GroupValue(s) < U64_LIMIT
  }

  /** What the payload bits above position `7 * k` may amount to in a `u64`. */
  function Room(k: nat): (c: nat)
    requires k < MAX_VARINT_BYTES
    ensures c >= 2
    decreases MAX_VARINT_BYTES - k
  {
    if k == 9 then 2 else 128 * Room(k + 1)
  }

  lemma RoomIsU64()
    ensures Room(0) == U64_LIMIT
  {
    assert Room(8) == 0x100;
    assert Room(6) == 0x40_0000;
    assert Room(4) == 0x10_0000_0000;
    assert Room(2) == 0x4_0000_0000_0000;
  }

  /** Reads the remaining groups of a varint of which `k` groups are behind. */
  function ReadGroups(buf: seq<byte>, pos: nat, k: nat): (r: Result<(nat, nat)>)
    requires k <= MAX_VARINT_BYTES
    ensures r.Ok? ==> pos < r.value.1 <= |buf|
    decreases MAX_VARINT_BYTES - k
  {
    if pos >= |buf| then Err(Truncated)
    else if k == MAX_VARINT_BYTES || (k == 9 && buf[pos] % 128 > 1) then Err(VarintOverflow)
    else if buf[pos] < 128 then Ok((buf[pos], pos + 1))
    else
      var (rest, end) :- ReadGroups(buf, pos + 1, k + 1);
      Ok((buf[pos] % 128 + 128 * rest, end))
  }

  /** The varint standing at `pos`: its value and the position behind it. */
  function VarintAt(buf: seq<byte>, pos: nat): (r: Result<(nat, nat)>)
    ensures r.Ok? ==> pos < r.value.1 <= |buf|
  {
    ReadGroups(buf, pos, 0)
  }

  // --------------------------------------------------------------------------
  // The reader accepts exactly the language
  // --------------------------------------------------------------------------

  lemma TerminatedTail(buf: seq<byte>, pos: nat, end: nat)
    requires pos + 1 < end <= |buf| && buf[pos] >= 128
    ensures Terminated(buf[pos..end]) <==> Terminated(buf[pos + 1..end])
    ensures GroupValue(buf[pos..end]) == buf[pos] % 128 + 128 * GroupValue(buf[pos + 1..end])
  {
    var s, t := buf[pos..end], buf[pos + 1..end];
    assert s[1..] == t;
    if Terminated(t) {
      forall i | 0 <= i < |s| - 1 ensures s[i] >= 128 {
        if i > 0 { assert s[i] == t[i - 1]; }
      }
    }
  }

  lemma {:induction false} GroupsSound(buf: seq<byte>, pos: nat, k: nat)
    requires k < MAX_VARINT_BYTES && ReadGroups(buf, pos, k).Ok?
    ensures var (v, end) := ReadGroups(buf, pos, k).value;
            && Terminated(buf[pos..end]) && end - pos + k <= MAX_VARINT_BYTES
            && GroupValue(buf[pos..end]) == v < Room(k)
    decreases MAX_VARINT_BYTES - k
  {
    var (v, end) := ReadGroups(buf, pos, k).value;
    if buf[pos] < 128 {
      var s := buf[pos..end];
      assert s == [buf[pos]] && s[1..] == [];
      assert GroupValue(s) == s[0] % 128 + 128 * GroupValue([]);
    } else {
      GroupsSound(buf, pos + 1, k + 1);
      TerminatedTail(buf, pos, end);
    }
  }

  lemma {:induction false} GroupsComplete(buf: seq<byte>, pos: nat, k: nat, end: nat)
    requires k < MAX_VARINT_BYTES && pos < end <= |buf|
    requires Terminated(buf[pos..end]) && end - pos + k <= MAX_VARINT_BYTES
    requires GroupValue(buf[pos..end]) < Room(k)
    ensures ReadGroups(buf, pos, k) == Ok((GroupValue(buf[pos..end]), end))
    decreases MAX_VARINT_BYTES - k
  {
    var s := buf[pos..end];
    if end == pos + 1 {
      assert s[1..] == [];
    } else {
      assert s[0] >= 128;
      TerminatedTail(buf, pos, end);
      GroupsComplete(buf, pos + 1, k + 1, end);
    }
  }

  /** The reader returns `v` and stops at `end` exactly when the bytes up to
      `end` are a varint and `v` is the number they denote: nothing longer
      than ten bytes, and no payload bit lost. */
  lemma VarintAtMeaning(buf: seq<byte>, pos: nat, v: nat, end: nat)
    ensures VarintAt(buf, pos) == Ok((v, end)) <==>
            pos < end <= |buf| && IsVarint(buf[pos..end]) && GroupValue(buf[pos..end]) == v
  {
    RoomIsU64();
    if VarintAt(buf, pos) == Ok((v, end)) {
      GroupsSound(buf, pos, 0);
    }
    if pos < end <= |buf| && IsVarint(buf[pos..end]) {
      GroupsComplete(buf, pos, 0, end);
    }
  }

  lemma VarintOccurs(buf: seq<byte>, pos: nat, s: seq<byte>)
    requires IsVarint(s) && Occurs(buf, pos, s)
    ensures VarintAt(buf, pos) == Ok((GroupValue(s), pos + |s|))
  {
    VarintAtMeaning(buf, pos, GroupValue(s), pos + |s|);
  }

  lemma VarintRead(buf: seq<byte>, pos: nat)
    requires VarintAt(buf, pos).Ok?
    ensures var (v, end) := VarintAt(buf, pos).value;
            && IsVarint(buf[pos..end]) && GroupValue(buf[pos..end]) == v < U64_LIMIT
            && Occurs(buf, pos, buf[pos..end])
  {
    var (v, end) := VarintAt(buf, pos).value;
    VarintAtMeaning(buf, pos, v, end);
  }

  // --------------------------------------------------------------------------
  // The canonical encoding
  // --------------------------------------------------------------------------

  function Encode(v: nat): (s: seq<byte>)
    ensures |s| >= 1
  {
    if v < 128 then [v] else [128 + v % 128] + Encode(v / 128)
  }

  lemma GroupCons(b: byte, t: seq<byte>)
    requires b >= 128 && Terminated(t)
    ensures Terminated([b] + t) && GroupValue([b] + t) == b % 128 + 128 * GroupValue(t)
  {
    var s := [b] + t;
    assert s[1..] == t;
    forall i | 0 <= i < |s| - 1 ensures s[i] >= 128 {
      if i > 0 { assert s[i] == t[i - 1]; }
    }
  }

  lemma {:induction false} EncodeGroups(v: nat)
    ensures Terminated(Encode(v)) && GroupValue(Encode(v)) == v
  {
    if v < 128 {
      assert Encode(v)[1..] == [];
    } else {
      EncodeGroups(v / 128);
      GroupCons(128 + v % 128, Encode(v / 128));
    }
  }

  lemma {:induction false} EncodeLength(v: nat, k: nat)
    requires k < MAX_VARINT_BYTES && v < Room(k)
    ensures |Encode(v)| + k <= MAX_VARINT_BYTES
    decreases MAX_VARINT_BYTES - k
  {
    if v >= 128 {
      EncodeLength(v / 128, k + 1);
    }
  }

  /** Round trip: every `u64`, followed by anything, is read back and exactly
      its own bytes, at most ten, are consumed. */
  lemma EncodeDecodes(buf: seq<byte>, pos: nat, v: nat)
    requires v < U64_LIMIT && Occurs(buf, pos, Encode(v))
    ensures IsVarint(Encode(v)) && |Encode(v)| <= MAX_VARINT_BYTES
    ensures VarintAt(buf, pos) == Ok((v, pos + |Encode(v)|))
  {
    RoomIsU64();
    EncodeGroups(v);
    EncodeLength(v, 0);
    VarintOccurs(buf, pos, Encode(v));
  }

  /** No varint of the same value is shorter than the canonical one. */
  lemma {:induction false} EncodeShortest(v: nat, s: seq<byte>)
    requires Terminated(s) && GroupValue(s) == v
    ensures |Encode(v)| <= |s|
  {
    if |s| == 1 {
      assert s[1..] == [];
    } else if v >= 128 {
      var t := s[1..];
      assert GroupValue(s) == s[0] % 128 + 128 * GroupValue(t);
      EncodeShortest(v / 128, t);
    }
  }

  // --------------------------------------------------------------------------
  // The encoders
  // --------------------------------------------------------------------------

  /** `write_varint`: masks, shifts, then decides on the continuation bit. */
  method WriteVarint(buf: seq<byte>, value: nat) returns (out: seq<byte>)
    ensures out == buf + Encode(value)
  {
    out := buf;
    var v := value;
    var more := true;
    while more
      invariant more ==> out + Encode(v) == buf + Encode(value)
      invariant !more ==> out == buf + Encode(value)
      decreases more, v
    {
      var b: byte := v % 128;
      var rest := v / 128;
      if rest != 0 {
        b := b + 128;
      }
      assert out + Encode(v) == if rest != 0 then (out + [b]) + Encode(rest) else out + [b];
      out := out + [b];
      v := rest;
      more := rest != 0;
    }
  }

  /** `encode_varint_to`: decides on the continuation bit before shifting. */
  method EncodeVarintTo(buf: seq<byte>, value: nat) returns (out: seq<byte>)
    ensures out == buf + Encode(value)
  {
    out := buf;
    var v := value;
    var more := true;
    while more
      invariant more ==> out + Encode(v) == buf + Encode(value)
      invariant !more ==> out == buf + Encode(value)
      decreases more, v
    {
      var b: byte := v % 128 + (if v > 127 then 128 else 0);
      assert out + Encode(v) == if v > 127 then (out + [b]) + Encode(v / 128) else out + [b];
      out := out + [b];
      more := v / 128 != 0;
      v := v / 128;
    }
  }

  /** `varint_len`: the length without the bytes. */
  method VarintLen(value: nat) returns (len: nat)
    ensures len == |Encode(value)|
  {
    len := 1;
    var v := value;
    while v >= 128
      invariant len + |Encode(v)| == |Encode(value)| + 1
    {
      v := v / 128;
      len := len + 1;
    }
  }

  // --------------------------------------------------------------------------
  // The decoders
  // --------------------------------------------------------------------------

  function Pow2(n: nat): (p: nat)
  {
    if n == 0 then 1 else 2 * Pow2(n - 1)
  }

  /** `x << shift` on an integer wide enough to hold the result. */
  function Shl(x: nat, shift: nat): (r: nat)
  {
    Pow2(shift) * x
  }

  /** Puts the groups read so far under the ones still to come. */
  ghost function Above(r: Result<(nat, nat)>, low: nat, shift: nat): (s: Result<(nat, nat)>)
  {
    if r.Ok? then Ok((low + Shl(r.value.0, shift), r.value.1)) else r
  }

  lemma ShlGroup(d: nat, v: nat, shift: nat)
    ensures Shl(d + 128 * v, shift) == Shl(d, shift) + Shl(v, shift + 7)
  {
    var p := Pow2(shift);
    assert Pow2(shift + 2) == 4 * p;
    assert Pow2(shift + 4) == 16 * p;
    assert Pow2(shift + 6) == 64 * p;
    assert Pow2(shift + 7) == 128 * p;
    assert p * (d + 128 * v) == p * d + (128 * p) * v;
  }

  lemma AboveStep(buf: seq<byte>, pos: nat, k: nat, low: nat)
    requires k < MAX_VARINT_BYTES && pos < |buf| && buf[pos] >= 128
    requires !(k == 9 && buf[pos] % 128 > 1)
    ensures Above(ReadGroups(buf, pos, k), low, 7 * k)
         == Above(ReadGroups(buf, pos + 1, k + 1), low + Shl(buf[pos] % 128, 7 * k), 7 * k + 7)
  {
    var rest := ReadGroups(buf, pos + 1, k + 1);
    if rest.Ok? {
      ShlGroup(buf[pos] % 128, rest.value.0, 7 * k);
    }
  }

  lemma AboveLast(buf: seq<byte>, pos: nat, k: nat, low: nat)
    requires k < MAX_VARINT_BYTES && pos < |buf| && buf[pos] < 128
    requires !(k == 9 && buf[pos] % 128 > 1)
    ensures Above(ReadGroups(buf, pos, k), low, 7 * k) == Ok((low + Shl(buf[pos] % 128, 7 * k), pos + 1))
  {
    assert buf[pos] % 128 == buf[pos];
  }

  /** Where the slice reader gives up there is no varint. */
  lemma AboveStops(buf: seq<byte>, pos: nat, k: nat, low: nat, shift: nat)
    requires k <= MAX_VARINT_BYTES && pos <= |buf|
    ensures pos == |buf| || k == MAX_VARINT_BYTES || (k == 9 && buf[pos] % 128 > 1) ==>
              Above(ReadGroups(buf, pos, k), low, shift).Err?
  {
  }

  lemma AboveNone(r: Result<(nat, nat)>)
    ensures Above(r, 0, 0) == r
  {
  }

  /** `parse_varint`: loops until a terminator, checking after each byte. */
  method ParseVarint(buf: seq<byte>, start: nat) returns (r: Result<(nat, nat)>)
    ensures r == VarintAt(buf, start)
  {
    var value: nat, shift: nat, pos: nat := 0, 0, start;
    ghost var k := 0;
    AboveNone(VarintAt(buf, start));
    while true
      invariant k <= MAX_VARINT_BYTES && shift == 7 * k
      invariant VarintAt(buf, start) == Above(ReadGroups(buf, pos, k), value, shift)
      decreases MAX_VARINT_BYTES - k
    {
      if pos >= |buf| {
        return Err(Truncated);
      }
      var b := buf[pos];
      if shift > 63 {
        return Err(VarintOverflow);
      }
      if shift == 63 && b % 128 > 1 {
        return Err(VarintOverflow);
      }
      if b < 128 {
        AboveLast(buf, pos, k, value);
        return Ok((value + Shl(b % 128, shift), pos + 1));
      }
      AboveStep(buf, pos, k, value);
      value, shift, pos := value + Shl(b % 128, shift), shift + 7, pos + 1;
      k := k + 1;
    }
  }

  /** `read_varint`: tests the shift before asking the reader for a byte, so it
      reports an overflow where `parse_varint` would first want another byte. */
  method ReadVarint(buf: seq<byte>, start: nat) returns (r: Result<(nat, nat)>)
    ensures r.Ok? <==> VarintAt(buf, start).Ok?
    ensures r.Ok? ==> r == VarintAt(buf, start)
  {
    var value: nat, shift: nat, pos: nat := 0, 0, start;
    ghost var k := 0;
    AboveNone(VarintAt(buf, start));
    while true
      invariant k <= MAX_VARINT_BYTES && shift == 7 * k
      invariant VarintAt(buf, start) == Above(ReadGroups(buf, pos, k), value, shift)
      decreases MAX_VARINT_BYTES - k
    {
      if shift >= 64 {
        return Err(VarintOverflow);
      }
      if pos >= |buf| {
        return Err(Truncated);
      }
      var b := buf[pos];
      if shift == 63 && b % 128 > 1 {
        return Err(VarintOverflow);
      }
      if b < 128 {
        AboveLast(buf, pos, k, value);
        return Ok((value + Shl(b % 128, shift), pos + 1));
      }
      AboveStep(buf, pos, k, value);
      value, shift, pos := value + Shl(b % 128, shift), shift + 7, pos + 1;
      k := k + 1;
    }
  }

  /** `VarintAt`, but ten bytes without a terminator are too long even when the
      buffer ends behind them. */
  function CheckedVarintAt(buf: seq<byte>, pos: nat): (r: Result<(nat, nat)>)
    ensures r.Ok? <==> VarintAt(buf, pos).Ok?
    ensures r.Ok? ==> r == VarintAt(buf, pos)
  {
    var r := VarintAt(buf, pos);
    if r.Err? && pos + MAX_VARINT_BYTES <= |buf| then Err(VarintOverflow) else r
  }

  lemma NoGroup(buf: seq<byte>, pos: nat, k: nat)
    requires k <= MAX_VARINT_BYTES
    ensures pos >= |buf| ==> ReadGroups(buf, pos, k) == Err(Truncated)
    ensures pos < |buf| && k == 9 && buf[pos] % 128 > 1 ==> ReadGroups(buf, pos, k) == Err(VarintOverflow)
    ensures k == MAX_VARINT_BYTES ==> ReadGroups(buf, pos, k).Err?
  {
  }

  lemma VarintIsGroups(buf: seq<byte>, pos: nat)
    ensures VarintAt(buf, pos) == ReadGroups(buf, pos, 0)
  {
  }

  /** `parse_varint_checked`: a counted loop over at most ten bytes. */
  method ParseVarintChecked(buf: seq<byte>, start: nat) returns (r: Result<(nat, nat)>)
    ensures r == CheckedVarintAt(buf, start)
  {
    hide ReadGroups, Shl, VarintAt;
    var value: nat, shift: nat, pos: nat := 0, 0, start;
    VarintIsGroups(buf, start);
    AboveNone(VarintAt(buf, start));
    for k := 0 to MAX_VARINT_BYTES
      invariant shift == 7 * k && pos == start + k && (pos <= |buf| || k == 0)
      invariant VarintAt(buf, start) == Above(ReadGroups(buf, pos, k), value, shift)
    {
      NoGroup(buf, pos, k);
      if pos >= |buf| {
        return Err(Truncated);
      }
      var b := buf[pos];
      if shift == 63 && b % 128 > 1 {
        return Err(VarintOverflow);
      }
      if b < 128 {
        AboveLast(buf, pos, k, value);
        return Ok((value + Shl(b % 128, shift), pos + 1));
      }
      AboveStep(buf, pos, k, value);
      value, shift, pos := value + Shl(b % 128, shift), shift + 7, pos + 1;
    }
    NoGroup(buf, pos, MAX_VARINT_BYTES);
    return Err(VarintOverflow);
  }

  /** `read_varint_bytes`: iterates over a whole slice and returns how many
      bytes it consumed instead of a position. */
  method ReadVarintBytes(data: seq<byte>) returns (r: Result<(nat, nat)>)
    ensures r.Ok? <==> VarintAt(data, 0).Ok?
    ensures r.Ok? ==> r == VarintAt(data, 0)
  {
    hide ReadGroups, Shl, VarintAt, Above;
    var value: nat, shift: nat := 0, 0;
    VarintIsGroups(data, 0);
    AboveNone(VarintAt(data, 0));
    for i := 0 to |data|
      invariant i <= MAX_VARINT_BYTES && shift == 7 * i
      invariant VarintAt(data, 0) == Above(ReadGroups(data, i, i), value, shift)
    {
      var b := data[i];
      AboveStops(data, i, i, value, shift);
      if shift > 63 || (shift == 63 && b % 128 > 1) {
        return Err(VarintOverflow);
      }
      if b < 128 {
        AboveLast(data, i, i, value);
        return Ok((value + Shl(b % 128, shift), i + 1));
      }
      AboveStep(data, i, i, value);
      value, shift := value + Shl(b % 128, shift), shift + 7;
    }
    AboveStops(data, |data|, |data|, value, shift);
    return Err(Truncated);
  }
}
