/** Bytes, results and little-endian integers: the vocabulary shared by every
    other module. Bit operations of the original are written as arithmetic:
    `b & 0x7F` is `b % 128`, `b & 0x80 == 0` is `b < 128`, and an OR of
    disjoint bit ranges is a sum. */
module Bytes {

  type byte = x: int | 0 <= x < 256

  const U64_LIMIT: nat := 0x1_0000_0000_0000_0000
  const U32_LIMIT: nat := 0x1_0000_0000

  type u64 = x: nat | x < U64_LIMIT
  type u32 = x: nat | x < U32_LIMIT

  datatype Option<+T> = None | Some(value: T)

  /** Why a parser gave up. The original reports all of these as
      `Error::Protocol` with a message; the constructor names the message. */
  datatype Error =
    | Truncated
    | VarintOverflow
    | TooLarge
    | OffsetDecreased
    | UnknownVersion
    | BadTypeName
    | BadUtf8
    | BadDiscriminator
    | CountMismatch
    | MissingState
    | Unsupported
    | RowOutOfBounds
    | IndexOutOfBounds
    | Overflow
    | BadChecksum
    | BadFrame
    | ConnectionClosed

  datatype Result<+T> = Ok(value: T) | Err(error: Error) {
    predicate IsFailure() {
      Err?
    }

    function PropagateFailure<U>(): Result<U>
      requires Err?
    {
      Err(error)
    }

    function Extract(): T
      requires Ok?
    {
      value
    }
  }

  function Min(a: nat, b: nat): (m: nat)
  {
    if a <= b then a else b
  }

  // --------------------------------------------------------------------------
  // Little-endian integers
  // --------------------------------------------------------------------------

  function Pow256(n: nat): (p: nat)
    ensures p >= 1
  {
    if n == 0 then 1 else 256 * Pow256(n - 1)
  }

  function LeValue(s: seq<byte>): (v: nat)
  {
    if s == [] then 0 else s[0] + 256 * LeValue(s[1..])
  }

  function LeBytes(v: nat, n: nat): (s: seq<byte>)
    ensures |s| == n
  {
    if n == 0 then [] else [v % 256] + LeBytes(v / 256, n - 1)
  }

  lemma {:induction false} LeValueBound(s: seq<byte>)
    ensures LeValue(s) < Pow256(|s|)
  {
    if s != [] {
      LeValueBound(s[1..]);
    }
  }

  lemma {:induction false} LeRoundTrip(v: nat, n: nat)
    requires v < Pow256(n)
    ensures LeValue(LeBytes(v, n)) == v
  {
    if n > 0 {
      LeRoundTrip(v / 256, n - 1);
      var s := LeBytes(v, n);
      assert s[1..] == LeBytes(v / 256, n - 1);
    }
  }

  lemma {:induction false} LeCanonical(s: seq<byte>)
    ensures LeBytes(LeValue(s), |s|) == s
  {
    if s != [] {
      LeCanonical(s[1..]);
      var v := LeValue(s);
      assert v % 256 == s[0] && v / 256 == LeValue(s[1..]);
    }
  }

  lemma PowersOf256()
    ensures Pow256(1) == 256
    ensures Pow256(2) == 0x1_0000
    ensures Pow256(4) == U32_LIMIT
    ensures Pow256(8) == U64_LIMIT
  {
    assert Pow256(4) == 256 * Pow256(3);
    assert Pow256(5) == 256 * Pow256(4);
    assert Pow256(6) == 256 * Pow256(5);
    assert Pow256(7) == 256 * Pow256(6);
    assert Pow256(8) == 256 * Pow256(7);
  }

  /** The eight bytes of a little-endian `u64`. */
  function U64Bytes(v: nat): (s: seq<byte>)
    ensures |s| == 8
    ensures v < U64_LIMIT ==> LeValue(s) == v
  {
    PowersOf256();
    if v < U64_LIMIT then LeRoundTrip(v, 8); LeBytes(v, 8) else LeBytes(v, 8)
  }

  lemma U64BytesOf(s: seq<byte>)
    requires |s| == 8
    ensures LeValue(s) < U64_LIMIT
    ensures U64Bytes(LeValue(s)) == s
  {
    LeValueBound(s);
    PowersOf256();
    LeCanonical(s);
  }

  function Zeros(n: nat): (z: seq<byte>)
    ensures |z| == n && forall i :: 0 <= i < n ==> z[i] == 0
  {
    seq(n, i => 0)
  }

  lemma {:induction false} ZeroValue(s: seq<byte>)
    requires forall i :: 0 <= i < |s| ==> s[i] == 0
    ensures LeValue(s) == 0
  {
    if s != [] {
      ZeroValue(s[1..]);
    }
  }

  // --------------------------------------------------------------------------
  // Occurrence of a byte string inside a buffer
  // --------------------------------------------------------------------------

  /** `s` stands in `buf` at position `pos`. */
  ghost predicate Occurs(buf: seq<byte>, pos: nat, s: seq<byte>): (b: bool)
    ensures b ==> pos + |s| <= |buf|
  {
    pos + |s| <= |buf| && buf[pos..pos + |s|] == s
  }

  lemma OccursConcat(buf: seq<byte>, pos: nat, a: seq<byte>, b: seq<byte>)
    ensures Occurs(buf, pos, a + b) <==> Occurs(buf, pos, a) && Occurs(buf, pos + |a|, b)
  {
    var n := pos + |a| + |b|;
    if n <= |buf| {
      assert buf[pos..n] == buf[pos..pos + |a|] + buf[pos + |a|..n];
      if Occurs(buf, pos, a + b) {
        assert buf[pos..pos + |a|] == (a + b)[..|a|];
        assert buf[pos + |a|..n] == (a + b)[|a|..];
      }
    }
  }

  /** A slice of a slice. */
  lemma SubSlice(data: seq<byte>, start: nat, end: nat, i: nat, j: nat)
    requires start <= end <= |data| && i <= j <= end - start
    ensures data[start..end][i..j] == data[start + i..start + j]
  {
    assert forall k :: 0 <= k < j - i ==> data[start..end][i..j][k] == data[start + i + k];
  }
}
