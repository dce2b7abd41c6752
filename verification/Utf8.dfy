/** UTF-8 as `str::from_utf8` accepts it (Table 3-7 of the Unicode Standard):
    no overlong forms, no surrogates, nothing above U+10FFFF. */
module Utf8 {
  import opened Bytes

  predicate Continuation(b: byte)
  {
    0x80 <= b <= 0xBF
  }

  /** Appends the six payload bits of a continuation byte. */
  function Push6(high: int, b: int): (v: int)
  {
    64 * high + (b - 0x80)
  }

  /** The scalar value at the head of `s` and the number of bytes it takes. */
  function Scalar(s: seq<byte>): (r: Option<(char, nat)>)
    ensures r.Some? ==> 0 < r.value.1 <= |s|
  {
    if s == [] then None
    else
      var b: int := s[0];
      if b < 0x80 then Some((b as char, 1))
      else if 0xC2 <= b <= 0xDF then
        if |s| >= 2 && Continuation(s[1]) then
          Some((Push6(b - 0xC0, s[1]) as char, 2))
        else None
      else if 0xE0 <= b <= 0xEF then
        if |s| >= 3 && Continuation(s[1]) && Continuation(s[2])
           && (b == 0xE0 ==> s[1] >= 0xA0) && (b == 0xED ==> s[1] <= 0x9F) then
          Some((Push6(Push6(b - 0xE0, s[1]), s[2]) as char, 3))
        else None
      else if 0xF0 <= b <= 0xF4 then
        if |s| >= 4 && Continuation(s[1]) && Continuation(s[2]) && Continuation(s[3])
           && (b == 0xF0 ==> s[1] >= 0x90) && (b == 0xF4 ==> s[1] <= 0x8F) then
          Some((Push6(Push6(Push6(b - 0xF0, s[1]), s[2]), s[3]) as char, 4))
        else None
      else None
  }

  /** `from_utf8`: the text of a byte string, or nothing if it is malformed. */
  function Decode(s: seq<byte>): (r: Option<string>)
    decreases |s|
  {
    if s == [] then Some("")
    else
      match Scalar(s)
      case None => None
      case Some((c, n)) =>
        match Decode(s[n..])
        case None => None
        case Some(rest) => Some([c] + rest)
  }

  function EncodeScalar(c: char): (s: seq<byte>)
    ensures |s| > 0
  {
    var v := c as int;
    var w := v / 64;
    var x := w / 64;
    if v < 0x80 then [v]
    else if v < 0x800 then [0xC0 + w, 0x80 + v % 64]
    else if v < 0x10000 then [0xE0 + x, 0x80 + w % 64, 0x80 + v % 64]
    else [0xF0 + x / 64, 0x80 + x % 64, 0x80 + w % 64, 0x80 + v % 64]
  }

  /** The bytes a Rust `str` holding this text is made of. */
  function Encode(t: string): (s: seq<byte>)
  {
    if t == "" then [] else EncodeScalar(t[0]) + Encode(t[1..])
  }

  lemma TwoBytes(c: char, s: seq<byte>)
    requires 0x80 <= c as int < 0x800
    requires |s| >= 2 && EncodeScalar(c) == s[..2]
    ensures Scalar(s) == Some((c, 2))
  {
    var v := c as int;
    assert s[0] == s[..2][0] && s[1] == s[..2][1];
    assert Push6(v / 64, 0x80 + v % 64) == v;
  }

  lemma ThreeBytes(c: char, s: seq<byte>)
    requires 0x800 <= c as int < 0x10000
    requires |s| >= 3 && EncodeScalar(c) == s[..3]
    ensures Scalar(s) == Some((c, 3))
  {
    var v := c as int;
    var w := v / 64;
    assert s[0] == s[..3][0] && s[1] == s[..3][1] && s[2] == s[..3][2];
    assert Push6(w / 64, 0x80 + w % 64) == w;
    assert Push6(w, 0x80 + v % 64) == v;
  }

  lemma FourBytes(c: char, s: seq<byte>)
    requires 0x10000 <= c as int
    requires |s| >= 4 && EncodeScalar(c) == s[..4]
    ensures Scalar(s) == Some((c, 4))
  {
    var v := c as int;
    var w := v / 64;
    var x := w / 64;
    assert s[0] == s[..4][0] && s[1] == s[..4][1] && s[2] == s[..4][2] && s[3] == s[..4][3];
    assert Push6(x / 64, 0x80 + x % 64) == x;
    assert Push6(x, 0x80 + w % 64) == w;
    assert Push6(w, 0x80 + v % 64) == v;
  }

  lemma ScalarRoundTrip(c: char, rest: seq<byte>)
    ensures Scalar(EncodeScalar(c) + rest) == Some((c, |EncodeScalar(c)|))
  {
    var v := c as int;
    var e := EncodeScalar(c);
    var s := e + rest;
    assert s[..|e|] == e;
    if 0x80 <= v < 0x800 {
      TwoBytes(c, s);
    } else if 0x800 <= v < 0x10000 {
      ThreeBytes(c, s);
    } else if 0x10000 <= v {
      FourBytes(c, s);
    }
  }

  /** Every text survives encoding and decoding. */
  lemma {:induction false} RoundTrip(t: string)
    ensures Decode(Encode(t)) == Some(t)
  {
    if t != "" {
      var head, rest := EncodeScalar(t[0]), Encode(t[1..]);
      ScalarRoundTrip(t[0], rest);
      assert (head + rest)[|head|..] == rest;
      RoundTrip(t[1..]);
      assert [t[0]] + t[1..] == t;
    }
  }

  lemma TwoBytesBack(s: seq<byte>)
    requires |s| >= 2 && 0xC2 <= s[0] <= 0xDF && Scalar(s).Some?
    ensures Scalar(s).value.1 == 2 && EncodeScalar(Scalar(s).value.0) == s[..2]
  {
    var v := Push6(s[0] - 0xC0, s[1]);
    assert v / 64 == s[0] - 0xC0 && v % 64 == s[1] - 0x80;
  }

  lemma ThreeBytesBack(s: seq<byte>)
    requires |s| >= 3 && 0xE0 <= s[0] <= 0xEF && Scalar(s).Some?
    ensures Scalar(s).value.1 == 3 && EncodeScalar(Scalar(s).value.0) == s[..3]
  {
    var w := Push6(s[0] - 0xE0, s[1]);
    var v := Push6(w, s[2]);
    assert w / 64 == s[0] - 0xE0 && w % 64 == s[1] - 0x80;
    assert v / 64 == w && v % 64 == s[2] - 0x80;
  }

  lemma FourBytesBack(s: seq<byte>)
    requires |s| >= 4 && 0xF0 <= s[0] <= 0xF4 && Scalar(s).Some?
    ensures Scalar(s).value.1 == 4 && EncodeScalar(Scalar(s).value.0) == s[..4]
  {
    var x := Push6(s[0] - 0xF0, s[1]);
    var w := Push6(x, s[2]);
    var v := Push6(w, s[3]);
    assert x / 64 == s[0] - 0xF0 && x % 64 == s[1] - 0x80;
    assert w / 64 == x && w % 64 == s[2] - 0x80;
    assert v / 64 == w && v % 64 == s[3] - 0x80;
  }

  lemma ScalarBack(s: seq<byte>)
    requires Scalar(s).Some?
    ensures EncodeScalar(Scalar(s).value.0) == s[..Scalar(s).value.1]
  {
    if 0xC2 <= s[0] <= 0xDF {
      TwoBytesBack(s);
    } else if 0xE0 <= s[0] <= 0xEF {
      ThreeBytesBack(s);
    } else if 0xF0 <= s[0] <= 0xF4 {
      FourBytesBack(s);
    }
  }

  /** A byte string decodes to a text exactly when it is the encoding of the text:
      no other bytes are accepted. */
  lemma {:induction false} ExactText(s: seq<byte>, t: string)
    ensures Decode(s) == Some(t) <==> s == Encode(t)
    decreases |s|
  {
    hide Scalar, EncodeScalar;
    RoundTrip(t);
    if Decode(s) == Some(t) && s != [] {
      var (c, n) := Scalar(s).value;
      ScalarBack(s);
      ExactText(s[n..], Decode(s[n..]).value);
      assert t[0] == c && t[1..] == Decode(s[n..]).value;
      assert s == s[..n] + s[n..];
    }
  }
}
