/** Compression frames (`src/compression/mod.rs`): a 16-byte checksum, a 9-byte
    header and a body. The compressors and the hash are parameters. */
module Compression {
  import opened Bytes
  import opened Limits

  const CHECKSUM_LEN: nat := 16
  const HEADER_LEN: nat := 9
  const FRAME_HEADER_TOTAL: nat := 25

  datatype Method = Stored | Lz4 | Zstd

  function MethodByte(m: Method): (b: byte)
  {
    match m
    case Stored => 0x02
    case Lz4 => 0x82
    case Zstd => 0x90
  }

  function MethodOf(b: byte): (m: Option<Method>)
    ensures forall k: Method :: m == Some(k) <==> MethodByte(k) == b
  {
    if b == 0x02 then Some(Stored) else if b == 0x82 then Some(Lz4) else if b == 0x90 then Some(Zstd) else None
  }

  /** The foreign compressors and CityHash128. `expand` is given the declared
      length of the result. */
  datatype Codec = Codec(
    shrink: (Method, seq<byte>) -> seq<byte>,
    expand: (Method, seq<byte>, nat) -> Option<seq<byte>>,
    hash: seq<byte> -> seq<byte>)

  /** Expanding undoes shrinking, and a hash has 16 bytes. */
  ghost predicate Sound(codec: Codec)
  {
    && (forall m, x :: codec.expand(m, codec.shrink(m, x), |x|) == Some(x))
    && (forall x :: |codec.hash(x)| == CHECKSUM_LEN)
  }

  function Shrunk(codec: Codec, m: Method, x: seq<byte>): (body: seq<byte>)
  {
    if m == Stored then x else codec.shrink(m, x)
  }

  /** The checksummed part of a frame. */
  function HeaderAndBody(m: Method, size: nat, body: seq<byte>): (s: seq<byte>)
    ensures |s| == HEADER_LEN + |body|
  {
    [MethodByte(m)] + (LeBytes(HEADER_LEN + |body|, 4) + (LeBytes(size, 4) + body))
  }

  /** `encode_frame`: refuses only what the 32-bit size fields cannot say. */
  function EncodeFrame(codec: Codec, m: Method, x: seq<byte>): (r: Result<seq<byte>>)
  {
    var body := Shrunk(codec, m, x);
    if HEADER_LEN + |body| >= U32_LIMIT || |x| >= U32_LIMIT then Err(TooLarge)
    else
      var s := HeaderAndBody(m, |x|, body);
      Ok(codec.hash(s) + s)
  }

  function CompressedSize(data: seq<byte>, pos: nat): (n: nat)
    requires pos + FRAME_HEADER_TOTAL <= |data|
  {
    LeValue(data[pos + 17..pos + 21])
  }

  function PlainSize(data: seq<byte>, pos: nat): (n: nat)
    requires pos + FRAME_HEADER_TOTAL <= |data|
  {
    LeValue(data[pos + 21..pos + 25])
  }

  function Expanded(codec: Codec, m: Method, body: seq<byte>, size: nat): (x: Option<seq<byte>>)
  {
    if m == Stored then Some(body) else codec.expand(m, body, size)
  }

  /** Where the frame at `pos` ends, by its own header. */
  function FrameEnd(data: seq<byte>, pos: nat): (r: Result<nat>)
    ensures r.Ok? ==> pos + FRAME_HEADER_TOTAL <= r.value <= |data|
  {
    if pos + FRAME_HEADER_TOTAL > |data| then Err(Truncated)
    else
      var n := CompressedSize(data, pos);
      if n < HEADER_LEN then Err(BadFrame)
      else if n > MAX_FRAME_SIZE then Err(TooLarge)
      else if pos + CHECKSUM_LEN + n > |data| then Err(Truncated)
      else Ok(pos + CHECKSUM_LEN + n)
  }

  /** `decode_frame`: the content of the frame at `pos` and the position behind
      it. */
  function DecodeFrame(codec: Codec, data: seq<byte>, pos: nat): (r: Result<(seq<byte>, nat)>)
    ensures r.Ok? ==> FrameEnd(data, pos) == Ok(r.value.1) && |r.value.0| <= MAX_FRAME_SIZE
  {
    if pos + FRAME_HEADER_TOTAL > |data| then Err(Truncated)
    else
      var m, n, size := MethodOf(data[pos + CHECKSUM_LEN]), CompressedSize(data, pos), PlainSize(data, pos);
      var end := pos + CHECKSUM_LEN + n;
      if m.None? then Err(Unsupported)
      else if n < HEADER_LEN then Err(BadFrame)
      else if n > MAX_FRAME_SIZE || size > MAX_FRAME_SIZE then Err(TooLarge)
      else if end > |data| then Err(Truncated)
      else if codec.hash(data[pos + CHECKSUM_LEN..end]) != data[pos..pos + CHECKSUM_LEN] then Err(BadChecksum)
      else
        var x := Expanded(codec, m.value, data[pos + FRAME_HEADER_TOTAL..end], size);
        if x.None? || |x.value| != size then Err(BadFrame) else Ok((x.value, end))
  }

  // --------------------------------------------------------------------------
  // Round trip of one frame
  // --------------------------------------------------------------------------

  /** The bytes behind the checksum of a frame at `pos`. */
  lemma HeaderOccurs(data: seq<byte>, pos: nat, sum: seq<byte>, m: Method, size: nat, body: seq<byte>)
    requires |sum| == CHECKSUM_LEN && Occurs(data, pos, sum + HeaderAndBody(m, size, body))
    ensures pos + FRAME_HEADER_TOTAL + |body| <= |data| && data[pos..pos + CHECKSUM_LEN] == sum
    ensures data[pos + 16] == MethodByte(m)
    ensures data[pos + 17..pos + 21] == LeBytes(HEADER_LEN + |body|, 4) && data[pos + 21..pos + 25] == LeBytes(size, 4)
    ensures data[pos + 25..pos + 25 + |body|] == body
    ensures data[pos + 16..pos + 25 + |body|] == HeaderAndBody(m, size, body)
  {
    hide LeBytes;
    var sizes := LeBytes(HEADER_LEN + |body|, 4) + (LeBytes(size, 4) + body);
    OccursConcat(data, pos, sum, HeaderAndBody(m, size, body));
    OccursConcat(data, pos + 16, [MethodByte(m)], sizes);
    OccursConcat(data, pos + 17, LeBytes(HEADER_LEN + |body|, 4), LeBytes(size, 4) + body);
    OccursConcat(data, pos + 21, LeBytes(size, 4), body);
  }

  /** An encoded frame, whatever stands around it, decodes to its content
      exactly when both of its sizes are within the frame cap. */
  lemma FrameRoundTrip(codec: Codec, m: Method, x: seq<byte>, data: seq<byte>, pos: nat)
    requires Sound(codec) && EncodeFrame(codec, m, x).Ok? && Occurs(data, pos, EncodeFrame(codec, m, x).value)
    ensures DecodeFrame(codec, data, pos) == Ok((x, pos + |EncodeFrame(codec, m, x).value|))
       <==> HEADER_LEN + |Shrunk(codec, m, x)| <= MAX_FRAME_SIZE && |x| <= MAX_FRAME_SIZE
  {
    hide LeBytes, LeValue, HeaderAndBody, Occurs;
    var body := Shrunk(codec, m, x);
    var s := HeaderAndBody(m, |x|, body);
    HeaderOccurs(data, pos, codec.hash(s), m, |x|, body);
    PowersOf256();
    LeRoundTrip(HEADER_LEN + |body|, 4);
    LeRoundTrip(|x|, 4);
    assert Expanded(codec, m, body, |x|) == Some(x);
  }

  // --------------------------------------------------------------------------
  // Sequences of frames
  // --------------------------------------------------------------------------

  /** The content of the whole frames that fill `data` from `pos` to `end`. */
  function DecodeFrames(codec: Codec, data: seq<byte>, pos: nat, end: nat): (r: Result<seq<byte>>)
    requires end <= |data|
    decreases if pos < end then end - pos else 0
  {
    if pos == end then Ok([])
    else if pos > end then Err(Truncated)
    else
      var (x, next) :- DecodeFrame(codec, data, pos);
      var rest :- DecodeFrames(codec, data, next, end);
      Ok(x + rest)
  }

  lemma {:induction false} FramesAppend(codec: Codec, data: seq<byte>, pos: nat, mid: nat)
    requires mid <= |data| && DecodeFrames(codec, data, pos, mid).Ok? && DecodeFrame(codec, data, mid).Ok?
    ensures var (x, end) := DecodeFrame(codec, data, mid).value;
            DecodeFrames(codec, data, pos, end) == Ok(DecodeFrames(codec, data, pos, mid).value + x)
    decreases if pos < mid then mid - pos else 0
  {
    hide DecodeFrame;
    var (x, end) := DecodeFrame(codec, data, mid).value;
    if pos < mid {
      var (first, next) := DecodeFrame(codec, data, pos).value;
      FramesAppend(codec, data, next, mid);
      var rest := DecodeFrames(codec, data, next, mid).value;
      assert first + (rest + x) == first + rest + x;
    } else {
      assert DecodeFrames(codec, data, end, end) == Ok([]);
      assert x + [] == x && [] + x == x;
    }
  }

  /** A body split into frames, each with its own method. */
  datatype Part = Part(m: Method, content: seq<byte>)

  function Body(parts: seq<Part>): (s: seq<byte>)
  {
    if parts == [] then [] else parts[0].content + Body(parts[1..])
  }

  /** Each part is not empty and its frame is within the cap. */
  ghost predicate Framed(codec: Codec, parts: seq<Part>)
  {
    forall i :: 0 <= i < |parts| ==>
      && 0 < |parts[i].content| <= MAX_FRAME_SIZE
      && HEADER_LEN + |Shrunk(codec, parts[i].m, parts[i].content)| <= MAX_FRAME_SIZE
  }

  function Frame(codec: Codec, p: Part): (s: seq<byte>)
  {
    var r := EncodeFrame(codec, p.m, p.content);
    if r.Ok? then r.value else []
  }

  function FramesWire(codec: Codec, parts: seq<Part>): (s: seq<byte>)
  {
    if parts == [] then [] else Frame(codec, parts[0]) + FramesWire(codec, parts[1..])
  }

  lemma FirstFrame(codec: Codec, parts: seq<Part>, data: seq<byte>, pos: nat)
    requires Sound(codec) && parts != [] && Framed(codec, parts) && Occurs(data, pos, FramesWire(codec, parts))
    ensures DecodeFrame(codec, data, pos) == Ok((parts[0].content, pos + |Frame(codec, parts[0])|))
    ensures Occurs(data, pos + |Frame(codec, parts[0])|, FramesWire(codec, parts[1..])) && Framed(codec, parts[1..])
    ensures |Frame(codec, parts[0])| >= FRAME_HEADER_TOTAL
  {
    hide DecodeFrame, Occurs, HeaderAndBody;
    var p := parts[0];
    assert EncodeFrame(codec, p.m, p.content).Ok?;
    OccursConcat(data, pos, Frame(codec, p), FramesWire(codec, parts[1..]));
    FrameRoundTrip(codec, p.m, p.content, data, pos);
  }

  /** Where whole frames have been taken off a split body, what they held is
      the body of the same number of leading parts, or begins with all of it. */
  lemma {:induction false} FramesTaken(codec: Codec, parts: seq<Part>, data: seq<byte>, pos: nat, end: nat) returns (k: nat)
    requires Sound(codec) && Framed(codec, parts) && Occurs(data, pos, FramesWire(codec, parts))
    requires pos <= end <= |data| && DecodeFrames(codec, data, pos, end).Ok?
    ensures k <= |parts| && pos + |FramesWire(codec, parts[..k])| <= end
    ensures k < |parts| ==> end == pos + |FramesWire(codec, parts[..k])|
    ensures if end == pos + |FramesWire(codec, parts[..k])|
            then DecodeFrames(codec, data, pos, end).value == Body(parts[..k])
            else Body(parts) <= DecodeFrames(codec, data, pos, end).value
    decreases |parts|
  {
    hide DecodeFrame, Frame, Framed, Occurs;
    if parts == [] || pos == end {
      k := 0;
    } else {
      FirstFrame(codec, parts, data, pos);
      var next := pos + |Frame(codec, parts[0])|;
      var j := FramesTaken(codec, parts[1..], data, next, end);
      k := j + 1;
      assert parts[..k][0] == parts[0] && parts[..k][1..] == parts[1..][..j];
    }
  }

  lemma {:induction false} BodySplit(parts: seq<Part>, k: nat)
    requires k <= |parts|
    ensures Body(parts) == Body(parts[..k]) + Body(parts[k..])
    decreases |parts|
  {
    if k > 0 {
      BodySplit(parts[1..], k - 1);
      assert parts[..k][0] == parts[0] && parts[..k][1..] == parts[1..][..k - 1] && parts[1..][k - 1..] == parts[k..];
    } else {
      assert parts[k..] == parts;
    }
  }

  lemma {:induction false} WireSplit(codec: Codec, parts: seq<Part>, k: nat)
    requires k <= |parts|
    ensures FramesWire(codec, parts) == FramesWire(codec, parts[..k]) + FramesWire(codec, parts[k..])
    decreases |parts|
  {
    hide Frame;
    if k > 0 {
      WireSplit(codec, parts[1..], k - 1);
      assert parts[..k][0] == parts[0] && parts[..k][1..] == parts[1..][..k - 1] && parts[1..][k - 1..] == parts[k..];
    } else {
      assert parts[k..] == parts;
    }
  }

  /** The frame behind the first `k` parts. */
  lemma FrameAfter(codec: Codec, parts: seq<Part>, k: nat, data: seq<byte>, pos: nat)
    requires Sound(codec) && Framed(codec, parts) && Occurs(data, pos, FramesWire(codec, parts)) && k < |parts|
    ensures DecodeFrame(codec, data, pos + |FramesWire(codec, parts[..k])|)
         == Ok((parts[k].content, pos + |FramesWire(codec, parts[..k + 1])|))
    ensures pos + |FramesWire(codec, parts[..k + 1])| <= pos + |FramesWire(codec, parts)|
    ensures Body(parts[..k + 1]) == Body(parts[..k]) + parts[k].content
  {
    hide DecodeFrame, Frame, Framed, Occurs;
    var at := pos + |FramesWire(codec, parts[..k])|;
    WireSplit(codec, parts, k);
    OccursConcat(data, pos, FramesWire(codec, parts[..k]), FramesWire(codec, parts[k..]));
    FramedTail(codec, parts, k);
    FirstFrame(codec, parts[k..], data, at);
    WireSplit(codec, parts, k + 1);
    WireSplit(codec, parts[..k + 1], k);
    BodySplit(parts[..k + 1], k);
    assert parts[..k + 1][..k] == parts[..k] && parts[..k + 1][k..] == [parts[k]];
    assert [parts[k]][1..] == [];
  }

  lemma FramedTail(codec: Codec, parts: seq<Part>, k: nat)
    requires Framed(codec, parts) && k <= |parts|
    ensures Framed(codec, parts[k..])
  {
  }

  /** Fewer parts hold fewer bytes. */
  lemma {:induction false} BodyGrows(codec: Codec, parts: seq<Part>, k: nat)
    requires Framed(codec, parts) && k < |parts|
    ensures |Body(parts[..k])| < |Body(parts)|
  {
    BodySplit(parts, k);
  }

  // --------------------------------------------------------------------------
  // Decoding as it is carried out
  // --------------------------------------------------------------------------

  /** `decode_frame_bytes`, reading the frame part by part. */
  method ReadFrame(codec: Codec, data: seq<byte>) returns (r: Result<seq<byte>>)
    ensures DecodeFrame(codec, data, 0).Ok? ==> r == Ok(DecodeFrame(codec, data, 0).value.0)
    ensures DecodeFrame(codec, data, 0).Err? ==> r == Err(DecodeFrame(codec, data, 0).error)
  {
    hide MethodOf;
    if |data| < FRAME_HEADER_TOTAL { return Err(Truncated); }
    var checksum, header := data[..CHECKSUM_LEN], data[CHECKSUM_LEN..FRAME_HEADER_TOTAL];
    var m := MethodOf(header[0]);
    if m.None? { return Err(Unsupported); }
    SubSlice(data, CHECKSUM_LEN, FRAME_HEADER_TOTAL, 1, 5);
    SubSlice(data, CHECKSUM_LEN, FRAME_HEADER_TOTAL, 5, 9);
    var compressed, size := LeValue(header[1..5]), LeValue(header[5..9]);
    if compressed < HEADER_LEN { return Err(BadFrame); }
    if compressed > MAX_FRAME_SIZE || size > MAX_FRAME_SIZE { return Err(TooLarge); }
    if CHECKSUM_LEN + compressed > |data| { return Err(Truncated); }
    var frame := data[..CHECKSUM_LEN + compressed];
    assert frame[CHECKSUM_LEN..] == data[CHECKSUM_LEN..CHECKSUM_LEN + compressed];
    if codec.hash(frame[CHECKSUM_LEN..]) != checksum { return Err(BadChecksum); }
    assert frame[FRAME_HEADER_TOTAL..] == data[FRAME_HEADER_TOTAL..CHECKSUM_LEN + compressed];
    var x := Expanded(codec, m.value, frame[FRAME_HEADER_TOTAL..], size);
    if x.None? || |x.value| != size { return Err(BadFrame); }
    return Ok(x.value);
  }
}
