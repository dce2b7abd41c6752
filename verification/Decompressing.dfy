/** The decompressing view over one Data-packet body
    (`src/connection/block_reader.rs`): frames are pulled from the inner stream
    one at a time, across any schedule of partial reads and pending polls. */
module Decompressing {
  import opened Bytes
  import opened Limits
  import opened Compression
  import opened Sockets

  /** `frame[..got]` are the last `got` bytes read, and belong to one frame of
      `len` bytes; 0 stands for a length not known yet. */
  ghost predicate PartOk(data: seq<byte>, at: nat, frame: seq<byte>, got: nat, len: nat)
  {
    && got <= |frame| && got <= at <= |data| && frame[..got] == data[at - got..at]
    && (if len == 0 then |frame| <= FRAME_HEADER_TOTAL
        else
          && FRAME_HEADER_TOTAL <= got <= |frame| <= len <= CHECKSUM_LEN + MAX_FRAME_SIZE
          && len == CHECKSUM_LEN + CompressedSize(frame[..got], 0))
  }

  /** The frame buffer after more bytes were read into it. */
  function Grown(frame: seq<byte>, got: nat, more: seq<byte>, target: nat): (r: seq<byte>)
    requires got + |more| <= target
  {
    Resized(frame, target)[..got] + more + Resized(frame, target)[got + |more|..]
  }

  lemma PartGrows(data: seq<byte>, at: nat, frame: seq<byte>, got: nat, len: nat, more: seq<byte>, target: nat)
    requires PartOk(data, at, frame, got, len) && got + |more| <= target
    requires target == if len == 0 then FRAME_HEADER_TOTAL else len
    requires at + |more| <= |data| && more == data[at..at + |more|]
    ensures PartOk(data, at + |more|, Grown(frame, got, more, target), got + |more|, len)
  {
    hide CompressedSize;
    var grown := Grown(frame, got, more, target);
    assert Resized(frame, target)[..got] == frame[..got];
    assert grown[..got + |more|] == frame[..got] + more;
    if len != 0 {
      SameHeader(frame[..got], grown[..got + |more|]);
    }
  }

  /** A frame read to its end decodes as it would where it came from. */
  lemma FrameWhole(codec: Codec, data: seq<byte>, at: nat, frame: seq<byte>, len: nat)
    requires PartOk(data, at, frame, len, len) && len != 0
    ensures var here, there := DecodeFrame(codec, frame, 0), DecodeFrame(codec, data, at - len);
            && here.Ok? == there.Ok?
            && (here.Ok? ==> here.value == (there.value.0, len) && there.value.1 == at)
  {
    hide MethodOf, LeValue;
    var start := at - len;
    assert frame == data[start..at];
    SubSlice(data, start, at, 17, 21);
    SubSlice(data, start, at, 21, 25);
    SubSlice(data, start, at, 16, len);
    SubSlice(data, start, at, 0, 16);
    SubSlice(data, start, at, 25, len);
  }

  lemma KnownLength(data: seq<byte>, at: nat, frame: seq<byte>)
    requires PartOk(data, at, frame, FRAME_HEADER_TOTAL, 0)
    requires HEADER_LEN <= CompressedSize(frame, 0) <= MAX_FRAME_SIZE
    ensures PartOk(data, at, frame, FRAME_HEADER_TOTAL, CHECKSUM_LEN + CompressedSize(frame, 0))
  {
    assert frame[..FRAME_HEADER_TOTAL] == frame;
  }

  lemma SameHeader(a: seq<byte>, b: seq<byte>)
    requires FRAME_HEADER_TOTAL <= |a| && a <= b
    ensures CompressedSize(a, 0) == CompressedSize(b, 0)
  {
    assert a[17..21] == b[17..21];
  }

  /** What the frames between `origin` and `edge` held is what was served and
      what is buffered; `buf` is the content of the frame at `lastStart`. */
  ghost predicate Accounts(codec: Codec, data: seq<byte>, origin: nat, edge: nat, buf: seq<byte>, lastStart: nat, before: seq<byte>)
  {
    && edge <= |data| && DecodeFrames(codec, data, origin, edge) == Ok(before + buf)
    && (buf != [] ==>
          && lastStart <= edge && DecodeFrames(codec, data, origin, lastStart) == Ok(before)
          && DecodeFrame(codec, data, lastStart) == Ok((buf, edge)))
  }

  /** Behind the frames that held `served` stands a frame that does not decode
      or that takes the body over the block budget. */
  ghost predicate Refused(codec: Codec, data: seq<byte>, origin: nat, served: seq<byte>)
  {
    exists edge: nat ::
      && origin <= edge <= |data| && DecodeFrames(codec, data, origin, edge) == Ok(served)
      && (DecodeFrame(codec, data, edge).Err? || |served| + |DecodeFrame(codec, data, edge).value.0| > MAX_BLOCK_BYTES)
  }

  /** The number of bytes that the header of the frame at `pos` announces. */
  function Announced(data: seq<byte>, pos: nat): (n: Option<nat>)
  {
    if pos + FRAME_HEADER_TOTAL <= |data| then Some(PlainSize(data, pos)) else None
  }

  lemma FreshIffAnnounced(codec: Codec, data: seq<byte>, pos: nat)
    requires DecodeFrame(codec, data, pos).Ok?
    ensures Announced(data, pos).Some? && (DecodeFrame(codec, data, pos).value.0 != [] <==> Announced(data, pos).value > 0)
  {
    hide LeValue, MethodOf;
  }

  /** A frame that is pulled and leaves no fresh bytes: the frame of no content. */
  lemma EmptyFrameIsNotFresh(codec: Codec)
    requires Sound(codec)
    ensures var frame := EncodeFrame(codec, Stored, []);
            && frame.Ok? && DecodeFrame(codec, frame.value, 0) == Ok(([], |frame.value|))
            && Announced(frame.value, 0) == Some(0)
  {
    hide LeBytes, LeValue;
    var frame := EncodeFrame(codec, Stored, []).value;
    assert Occurs(frame, 0, frame) by { assert frame[0..|frame|] == frame; }
    FrameRoundTrip(codec, Stored, [], frame, 0);
    FreshIffAnnounced(codec, frame, 0);
  }

  class Stream {
    const codec: Codec
    const inner: Socket
    const plain: bool
    var buf: seq<byte>
    var pos: nat
    var produced: nat
    var frame: seq<byte>
    var frameGot: nat
    var frameLen: nat
    /** Where the body starts in the inner stream. */
    ghost const origin: nat
    /** Everything handed out so far. */
    ghost var served: seq<byte>
    /** Where the frame whose content is in `buf` starts, and what the frames
        before it held. */
    ghost var lastStart: nat
    ghost var before: seq<byte>
    /** A frame was refused; nothing is promised about what follows. */
    ghost var failed: bool

    /** The end of the frames that have been taken whole. */
    ghost function Edge(): (edge: int)
      reads this, inner
    {
      inner.at - frameGot
    }

    ghost predicate Valid()
      reads this, inner
    {
      && inner.Valid() && origin <= inner.at && pos <= |buf| && produced <= MAX_BLOCK_BYTES
      && (plain ==> served + buf[pos..] == inner.data[origin..inner.at])
      && (!plain ==> FrameValid())
    }

    ghost predicate FrameValid()
      requires pos <= |buf|
      reads this, inner
    {
      && PartOk(inner.data, inner.at, frame, frameGot, frameLen) && origin <= Edge()
      && (pos < |buf| ==> frameGot == 0 && frameLen == 0)
      && (!failed ==>
            && served == before + buf[..pos] && produced == |before| + |buf|
            && Accounts(codec, inner.data, origin, Edge(), buf, lastStart, before))
    }

    /** A body that is not framed: the sniffed bytes are served first. */
    constructor MakePlain(codec: Codec, inner: Socket, prefix: seq<byte>, ghost origin: nat)
      requires inner.Valid() && origin <= inner.at && prefix == inner.data[origin..inner.at]
      ensures Valid() && plain && !failed && this.inner == inner && this.codec == codec
      ensures this.origin == origin && served == []
    {
      this.codec, this.inner, plain := codec, inner, true;
      buf, pos, produced, frame, frameGot, frameLen := prefix, 0, 0, [], 0, 0;
      this.origin, served, lastStart, before, failed := origin, [], 0, [], false;
    }

    /** A framed body whose first frame header has been read. */
    constructor MakeFramed(codec: Codec, inner: Socket, header: seq<byte>)
      requires inner.Valid() && |header| == FRAME_HEADER_TOTAL <= inner.at
      requires header == inner.data[inner.at - FRAME_HEADER_TOTAL..inner.at]
      requires HEADER_LEN <= CompressedSize(header, 0) <= MAX_FRAME_SIZE
      ensures Valid() && !plain && !failed && this.inner == inner && this.codec == codec
      ensures this.origin == inner.at - FRAME_HEADER_TOTAL && served == []
    {
      this.codec, this.inner, plain := codec, inner, false;
      buf, pos, produced := [], 0, 0;
      frame, frameGot, frameLen := header, FRAME_HEADER_TOTAL, CHECKSUM_LEN + CompressedSize(header, 0);
      origin, served, lastStart, before, failed := inner.at - FRAME_HEADER_TOTAL, [], 0, [], false;
      new;
      assert header[..FRAME_HEADER_TOTAL] == header;
    }

    /** The read loops of `poll_pull_frame`: go on to `target` bytes of the
        frame, resuming where the last poll left off. */
    method FillTo(target: nat) returns (p: Poll)
      requires Valid() && !plain && pos == |buf| && frameGot <= target
      requires target == if frameLen == 0 then FRAME_HEADER_TOTAL else frameLen
      modifies this`frame, this`frameGot, inner
      ensures Valid() && frameGot <= target && Edge() == old(Edge())
      ensures p == Ready ==> frameGot == target
    {
      hide PartOk, Accounts, Grown;
      while frameGot < target
        invariant Valid() && frameGot <= target && Edge() == old(Edge())
        decreases target - frameGot
      {
        var got;
        p, got := inner.PollRead(target - frameGot);
        if p != Ready { return; }
        if got == [] { return Broken; }
        PartGrows(inner.data, inner.at - |got|, frame, frameGot, frameLen, got, target);
        frame := Grown(frame, frameGot, got, target);
        frameGot := frameGot + |got|;
      }
      p := Ready;
    }

    /** `poll_pull_frame`: take exactly one frame off the inner stream and put
        its content into the serving buffer. There are fresh bytes in it exactly
        when the header of the frame says so. */
    method PullFrame() returns (p: Poll)
      requires Valid() && !plain && pos == |buf|
      modifies this, inner
      ensures Valid() && served == old(served) && (old(failed) ==> failed)
      ensures failed && !old(failed) ==> Refused(codec, inner.data, origin, served)
      ensures p == Ready ==> pos == 0 && frameGot == 0 && Edge() > old(Edge()) && failed == old(failed)
      ensures p == Ready ==> DecodeFrame(codec, inner.data, old(Edge())) == Ok((buf, Edge()))
      ensures p == Ready ==> Announced(inner.data, old(Edge())).Some?
                             && (buf != [] <==> Announced(inner.data, old(Edge())).value > 0)
      ensures p == Pending ==> failed == old(failed) && pos == |buf|
    {
      hide PartOk, Accounts;
      if frameLen == 0 {
        HeaderRoom(inner.data, inner.at, frame, frameGot);
        p := FillTo(FRAME_HEADER_TOTAL);
        if p != Ready { return; }
        HeaderRoom(inner.data, inner.at, frame, frameGot);
        var compressed := CompressedSize(frame, 0);
        if compressed < HEADER_LEN { return Broken; }
        if compressed > MAX_FRAME_SIZE { return Broken; }
        KnownLength(inner.data, inner.at, frame);
        frameLen := CHECKSUM_LEN + compressed;
      }
      BodyRoom(inner.data, inner.at, frame, frameGot, frameLen);
      p := FillTo(frameLen);
      if p != Ready { return; }
      FrameWhole(codec, inner.data, inner.at, frame, frameLen);
      p := AcceptFrame();
      if p == Ready { FreshIffAnnounced(codec, inner.data, old(Edge())); }
    }

    /** The last phase: verify, charge the block budget, swap buffers. */
    method AcceptFrame() returns (p: Poll)
      requires Valid() && !plain && pos == |buf| && frameLen != 0 && frameGot == frameLen
      modifies this
      ensures Valid() && served == old(served) && (old(failed) ==> failed)
      ensures failed && !old(failed) ==> Refused(codec, inner.data, origin, served)
      ensures p == Ready ==> pos == 0 && frameGot == 0 && Edge() > old(Edge()) && failed == old(failed)
      ensures p == Ready ==> DecodeFrame(codec, inner.data, old(Edge())) == Ok((buf, Edge()))
      ensures p != Ready ==> p == Broken
    {
      hide PartOk, Accounts, DecodeFrame, DecodeFrames, Refused;
      FrameWhole(codec, inner.data, inner.at, frame, frameLen);
      BodyRoom(inner.data, inner.at, frame, frameGot, frameLen);
      ghost var start := Edge();
      var x := ReadFrame(codec, frame);
      frame, frameGot, frameLen := [], 0, 0;
      NoPart(inner.data, inner.at);
      if x.Err? || produced + |x.value| > MAX_BLOCK_BYTES {
        assert buf[..pos] == buf;
        if !failed { RefusedAt(codec, inner.data, origin, start, buf, lastStart, before); }
        failed := true;
        return Broken;
      }
      if !failed {
        NextFrame(codec, inner.data, origin, start, buf, lastStart, before, x.value, inner.at);
      }
      produced := produced + |x.value|;
      before := before + buf;
      lastStart, buf, pos := start, x.value, 0;
      p := Ready;
    }

    method ServeBuffered(cap: nat) returns (out: seq<byte>)
      requires Valid() && pos < |buf|
      modifies this`pos, this`served
      ensures Valid() && |out| <= cap && served == old(served) + out
      ensures (cap > 0 ==> out != []) && (out != [] ==> pos > 0)
      ensures !plain ==> frameGot == 0
    {
      hide PartOk, Accounts;
      var n := Min(cap, |buf| - pos);
      out := buf[pos..pos + n];
      ServeStep(served, before, buf, pos, n);
      pos, served := pos + n, served + out;
    }

    method PassThrough(cap: nat) returns (p: Poll, out: seq<byte>)
      requires Valid() && plain && pos == |buf|
      modifies this`served, inner
      ensures Valid() && |out| <= cap && served == old(served) + out && (p != Ready ==> out == [])
    {
      p, out := inner.PollRead(cap);
      assert inner.data[origin..inner.at] == inner.data[origin..inner.at - |out|] + out;
      served := served + out;
    }

    /** `poll_read`. */
    method PollRead(cap: nat) returns (p: Poll, out: seq<byte>)
      requires Valid()
      modifies this, inner
      ensures Valid() && |out| <= cap && served == old(served) + out && (old(failed) ==> failed)
      ensures p != Ready ==> out == []
      ensures !plain && out != [] ==> pos > 0 && frameGot == 0
      ensures !plain && p == Ready && cap > 0 ==> out != []
      ensures plain || p != Broken ==> failed == old(failed)
      ensures failed && !old(failed) ==> Refused(codec, inner.data, origin, served)
    {
      hide PartOk, Accounts;
      while true
        invariant Valid() && served == old(served) && failed == old(failed)
        decreases |inner.data| - Edge()
      {
        if pos < |buf| {
          out := ServeBuffered(cap);
          return Ready, out;
        }
        if cap == 0 { return Ready, []; }
        if plain {
          p, out := PassThrough(cap);
          return;
        }
        p := PullFrame();
        if p != Ready { return p, []; }
      }
    }
  }

  lemma RefusedAt(codec: Codec, data: seq<byte>, origin: nat, edge: nat, buf: seq<byte>, lastStart: nat, before: seq<byte>)
    requires origin <= edge && Accounts(codec, data, origin, edge, buf, lastStart, before)
    requires DecodeFrame(codec, data, edge).Err?
          || |before + buf| + |DecodeFrame(codec, data, edge).value.0| > MAX_BLOCK_BYTES
    ensures Refused(codec, data, origin, before + buf)
  {
    hide DecodeFrame, DecodeFrames;
  }

  /** The sniffing constructor, once its 17 bytes have arrived. */
  method Open(codec: Codec, inner: Socket) returns (r: Result<Stream>)
    requires inner.Valid()
    modifies inner
    ensures inner.Valid()
    ensures r.Ok? ==>
              && fresh(r.value) && r.value.Valid() && !r.value.failed && r.value.served == []
              && r.value.inner == inner && r.value.codec == codec && r.value.origin == old(inner.at)
    ensures r.Ok? && LooksFramed(inner.data, old(inner.at)) ==> !r.value.plain
  {
    ghost var origin := inner.at;
    var sniff := inner.ReadExact(METHOD_OFFSET + 1);
    if sniff.Err? { return Err(sniff.error); }
    if MethodOf(sniff.value[METHOD_OFFSET]).None? {
      var s := new Stream.MakePlain(codec, inner, sniff.value, origin);
      return Ok(s);
    }
    var rest := inner.ReadExact(FRAME_HEADER_TOTAL - METHOD_OFFSET - 1);
    if rest.Err? { return Err(rest.error); }
    var frame := sniff.value + rest.value;
    assert frame == inner.data[origin..origin + FRAME_HEADER_TOTAL];
    HeaderOf(inner.data, origin, frame);
    var compressed := CompressedSize(frame, 0);
    if compressed < HEADER_LEN {
      var s := new Stream.MakePlain(codec, inner, frame, origin);
      return Ok(s);
    }
    if compressed > MAX_FRAME_SIZE { return Err(TooLarge); }
    var s := new Stream.MakeFramed(codec, inner, frame);
    return Ok(s);
  }

  const METHOD_OFFSET: nat := 16

  /** The bytes at `pos` could be a frame. */
  predicate LooksFramed(data: seq<byte>, pos: nat)
  {
    && pos + FRAME_HEADER_TOTAL <= |data| && MethodOf(data[pos + METHOD_OFFSET]).Some?
    && CompressedSize(data, pos) >= HEADER_LEN
  }

  lemma FramesLookFramed(codec: Codec, parts: seq<Part>, data: seq<byte>, pos: nat)
    requires Sound(codec) && parts != [] && Framed(codec, parts) && Occurs(data, pos, FramesWire(codec, parts))
    ensures LooksFramed(data, pos)
  {
    hide Framed, Occurs, FramesWire, Sound;
    FirstFrame(codec, parts, data, pos);
  }

  // --------------------------------------------------------------------------
  // Transparency
  // --------------------------------------------------------------------------

  /** The inner stream carries the frames of a body split into `parts`. */
  ghost predicate Carries(s: Stream, parts: seq<Part>)
  {
    && Sound(s.codec) && Framed(s.codec, parts)
    && Occurs(s.inner.data, s.origin, FramesWire(s.codec, parts))
  }

  /** A framed stream that has refused no frame. */
  ghost predicate Healthy(s: Stream)
    reads s, s.inner
  {
    s.Valid() && !s.plain && !s.failed
  }

  /** Two byte sequences of which one begins with the other. */
  predicate Agree(a: seq<byte>, b: seq<byte>)
  {
    a <= b || b <= a
  }

  /** At every moment the bytes served agree with the body from its start. */
  lemma ServedAgrees(s: Stream, parts: seq<Part>)
    requires Healthy(s) && Carries(s, parts)
    ensures Agree(s.served, Body(parts)) && |s.served| <= MAX_BLOCK_BYTES
  {
    hide Sound, Framed, Occurs, DecodeFrame, DecodeFrames, PartOk, Body, FramesWire;
    var k := FramesTaken(s.codec, parts, s.inner.data, s.origin, s.Edge());
    BodySplit(parts, k);
    var pulled := s.before + s.buf;
    assert s.served == pulled[..|s.served|];
    assert pulled <= Body(parts) || Body(parts) <= pulled;
  }

  /** While some of the body is still to be served, the inner stream has been
      read no further than the end of one frame of the body, and not before that
      frame's start. */
  lemma WithinFrame(s: Stream, parts: seq<Part>) returns (k: nat)
    requires Healthy(s) && Carries(s, parts) && |s.served| < |Body(parts)|
    ensures k < |parts|
    ensures s.origin + |FramesWire(s.codec, parts[..k])| <= s.inner.at
         <= s.origin + |FramesWire(s.codec, parts[..k + 1])|
  {
    hide Sound, Framed, Occurs, DecodeFrame, DecodeFrames, PartOk, Body, FramesWire;
    var data, origin := s.inner.data, s.origin;
    if s.pos == |s.buf| {
      k := FramesTaken(s.codec, parts, data, origin, s.Edge());
      assert s.buf[..s.pos] == s.buf;
      WholeBody(parts, k);
      FrameAfter(s.codec, parts, k, data, origin);
      PartWithin(data, s.inner.at, s.frame, s.frameGot, s.frameLen, s.codec);
    } else {
      k := LastPart(s, parts);
    }
  }

  lemma WholeBody(parts: seq<Part>, k: nat)
    requires k <= |parts|
    ensures k == |parts| ==> Body(parts[..k]) == Body(parts)
  {
    if k == |parts| {
      assert parts[..k] == parts;
    }
  }

  /** A frame being pulled has been read no further than it goes. */
  lemma PartWithin(data: seq<byte>, at: nat, frame: seq<byte>, got: nat, len: nat, codec: Codec)
    requires PartOk(data, at, frame, got, len) && DecodeFrame(codec, data, at - got).Ok?
    ensures at <= DecodeFrame(codec, data, at - got).value.1
  {
    hide DecodeFrame, CompressedSize;
    var start := at - got;
    if len != 0 {
      SubSlice(data, start, at, 0, FRAME_HEADER_TOTAL);
      HeaderOf(data, start, frame[..got]);
    }
  }

  lemma HeaderOf(data: seq<byte>, start: nat, part: seq<byte>)
    requires FRAME_HEADER_TOTAL <= |part| && start + |part| <= |data| && part == data[start..start + |part|]
    ensures CompressedSize(part, 0) == CompressedSize(data, start)
  {
    SubSlice(data, start, start + |part|, 17, 21);
  }

  /** While buffered bytes begin before the end of the body, they are the content
      of one of its parts, and the inner stream stands at that part's end. */
  lemma LastPart(s: Stream, parts: seq<Part>) returns (k: nat)
    requires Healthy(s) && Carries(s, parts) && s.buf != [] && |s.before| < |Body(parts)|
    ensures k < |parts| && s.before == Body(parts[..k]) && s.buf == parts[k].content
    ensures s.Edge() == s.origin + |FramesWire(s.codec, parts[..k + 1])|
    ensures s.Edge() >= s.origin + |FramesWire(s.codec, parts[..k])|
  {
    hide Sound, Framed, Occurs, DecodeFrame, DecodeFrames, PartOk, Body, FramesWire;
    StartsAfter(s.codec, s.inner.data, s.origin, s.lastStart);
    k := FramesTaken(s.codec, parts, s.inner.data, s.origin, s.lastStart);
    WholeBody(parts, k);
    FrameAfter(s.codec, parts, k, s.inner.data, s.origin);
  }

  lemma {:induction false} StartsAfter(codec: Codec, data: seq<byte>, pos: nat, end: nat)
    requires end <= |data| && DecodeFrames(codec, data, pos, end).Ok?
    ensures pos <= end
  {
    hide DecodeFrame;
  }

  /** Once the body has been served to its last byte, and no read was asked for
      since, exactly its frames have been taken off the inner stream. */
  lemma ExactlyConsumed(s: Stream, parts: seq<Part>)
    requires Healthy(s) && Carries(s, parts) && s.served == Body(parts) && s.pos > 0 && s.frameGot == 0
    ensures s.inner.at == s.origin + |FramesWire(s.codec, parts)|
  {
    hide Sound, Occurs, DecodeFrame, DecodeFrames, PartOk, Body, FramesWire, Framed;
    var k := LastPart(s, parts);
    FrameAfter(s.codec, parts, k, s.inner.data, s.origin);
    if k + 1 < |parts| {
      BodyGrows(s.codec, parts, k + 1);
    } else {
      assert parts[..k + 1] == parts;
    }
  }

  /** No frame of a body within the block budget is refused. */
  lemma NeverRefused(codec: Codec, parts: seq<Part>, data: seq<byte>, origin: nat, served: seq<byte>)
    requires Sound(codec) && Framed(codec, parts) && Occurs(data, origin, FramesWire(codec, parts))
    requires |served| < |Body(parts)| <= MAX_BLOCK_BYTES
    ensures !Refused(codec, data, origin, served)
  {
    hide Sound, Occurs, DecodeFrame, DecodeFrames, Body, FramesWire, Framed;
    if Refused(codec, data, origin, served) {
      var edge: nat :|
        && origin <= edge <= |data| && DecodeFrames(codec, data, origin, edge) == Ok(served)
        && (DecodeFrame(codec, data, edge).Err? || |served| + |DecodeFrame(codec, data, edge).value.0| > MAX_BLOCK_BYTES);
      var k := FramesTaken(codec, parts, data, origin, edge);
      WholeBody(parts, k);
      FrameAfter(codec, parts, k, data, origin);
      BodySplit(parts, k + 1);
    }
  }

  /** A whole run: any sequence of reads against any schedule. */
  method Run(s: Stream, caps: seq<nat>, ghost parts: seq<Part>) returns (out: seq<byte>, broken: bool)
    requires Healthy(s) && s.served == [] && Carries(s, parts) && |Body(parts)| <= MAX_BLOCK_BYTES
    modifies s, s.inner
    ensures s.Valid() && out == s.served && Agree(out, Body(parts))
    ensures |out| < |Body(parts)| ==> !s.failed && out <= Body(parts)
  {
    hide Carries, Framed, Occurs, Body, FramesWire, Refused;
    out, broken := [], false;
    var i := 0;
    while i < |caps| && !broken
      invariant s.Valid() && !s.plain && out == s.served && i <= |caps|
      invariant !broken ==> !s.failed
      invariant s.failed ==> |out| >= |Body(parts)|
      invariant Agree(out, Body(parts))
    {
      var p, more := s.PollRead(caps[i]);
      out, i := out + more, i + 1;
      broken := p == Broken;
      if s.failed && |s.served| < |Body(parts)| {
        assert Refused(s.codec, s.inner.data, s.origin, s.served);
        CarriesNeverRefused(s, parts);
      }
      if s.failed {
        assert more == [];
      } else {
        ServedAgrees(s, parts);
      }
    }
  }

  lemma CarriesNeverRefused(s: Stream, parts: seq<Part>)
    requires Carries(s, parts) && |s.served| < |Body(parts)| <= MAX_BLOCK_BYTES
    ensures !Refused(s.codec, s.inner.data, s.origin, s.served)
  {
    hide Refused, Body, FramesWire, Framed, Occurs, Sound;
    NeverRefused(s.codec, parts, s.inner.data, s.origin, s.served);
  }

  lemma HeaderRoom(data: seq<byte>, at: nat, frame: seq<byte>, got: nat)
    requires PartOk(data, at, frame, got, 0)
    ensures got <= |frame| <= FRAME_HEADER_TOTAL
  {
  }

  lemma BodyRoom(data: seq<byte>, at: nat, frame: seq<byte>, got: nat, len: nat)
    requires PartOk(data, at, frame, got, len) && len != 0
    ensures FRAME_HEADER_TOTAL <= got <= |frame| <= len
  {
  }

  lemma NoPart(data: seq<byte>, at: nat)
    requires at <= |data|
    ensures PartOk(data, at, [], 0, 0)
  {
  }

  lemma NextFrame(codec: Codec, data: seq<byte>, origin: nat, edge: nat, buf: seq<byte>, lastStart: nat, before: seq<byte>, x: seq<byte>, end: nat)
    requires Accounts(codec, data, origin, edge, buf, lastStart, before) && DecodeFrame(codec, data, edge) == Ok((x, end))
    ensures Accounts(codec, data, origin, end, x, edge, before + buf)
  {
    hide DecodeFrame;
    FramesAppend(codec, data, origin, edge);
  }

  lemma ServeStep(served: seq<byte>, before: seq<byte>, buf: seq<byte>, pos: nat, n: nat)
    requires pos + n <= |buf|
    ensures served == before + buf[..pos] ==> served + buf[pos..pos + n] == before + buf[..pos + n]
    ensures served + buf[pos..pos + n] + buf[pos + n..] == served + buf[pos..]
  {
    assert buf[..pos] + buf[pos..pos + n] == buf[..pos + n];
    assert buf[pos..pos + n] + buf[pos + n..] == buf[pos..];
  }
}
