/** The transport wrapper of `src/pool.rs`: in chunked mode reads strip chunk
    headers, in raw mode they go through a prefetch buffer. */
module Transport {
  import opened Bytes
  import opened Limits
  import opened Sockets

  const READ_BUF_CAP: nat := 8192

  // --------------------------------------------------------------------------
  // The chunked byte stream
  // --------------------------------------------------------------------------

  function LengthAt(data: seq<byte>, pos: nat): (n: nat)
    requires pos + 4 <= |data|
  {
    LeValue(data[pos..pos + 4])
  }

  /** The payload of the chunks from `pos` on: of the last one as much as there
      is, and nothing from a chunk that is too long. */
  function Payload(data: seq<byte>, pos: nat): (s: seq<byte>)
    decreases |data| - pos
  {
    if pos + 4 > |data| || LengthAt(data, pos) > MAX_CHUNK_LEN then []
    else if pos + 4 + LengthAt(data, pos) > |data| then data[pos + 4..]
    else data[pos + 4..pos + 4 + LengthAt(data, pos)] + Payload(data, pos + 4 + LengthAt(data, pos))
  }

  /** The chunks that fill `data` from `pos` to `end` hold `s`. */
  ghost predicate Chunked(data: seq<byte>, pos: nat, end: nat, s: seq<byte>)
    decreases |data| - pos
  {
    if pos + 4 > |data| || LengthAt(data, pos) > MAX_CHUNK_LEN || pos + 4 + LengthAt(data, pos) > |data| then
      pos == end && s == []
    else
      || (pos == end && s == [])
      || (var next := pos + 4 + LengthAt(data, pos);
          data[pos + 4..next] <= s && Chunked(data, next, end, s[next - pos - 4..]))
  }

  lemma {:induction false} ChunkedPayload(data: seq<byte>, pos: nat, end: nat, s: seq<byte>)
    requires Chunked(data, pos, end, s)
    ensures Payload(data, pos) == s + Payload(data, end)
    decreases |data| - pos
  {
    hide LengthAt, Payload, Chunked;
    if pos == end && s == [] {
      assert [] + Payload(data, end) == Payload(data, end);
    } else {
      var first := FirstChunk(data, pos, end, s);
      var rest := s[|first|..];
      ChunkedPayload(data, pos + 4 + |first|, end, rest);
      assert s == first + rest;
      assert first + (rest + Payload(data, end)) == (first + rest) + Payload(data, end);
    }
  }

  /** The first of several chunks, in both descriptions. */
  lemma FirstChunk(data: seq<byte>, pos: nat, end: nat, s: seq<byte>) returns (first: seq<byte>)
    requires Chunked(data, pos, end, s) && !(pos == end && s == [])
    ensures pos + 4 + |first| <= |data| && first == data[pos + 4..pos + 4 + |first|] && LengthAt(data, pos) == |first|
    ensures |first| <= MAX_CHUNK_LEN && first <= s && Chunked(data, pos + 4 + |first|, end, s[|first|..])
    ensures Payload(data, pos) == first + Payload(data, pos + 4 + |first|)
  {
    hide LengthAt;
    first := data[pos + 4..pos + 4 + LengthAt(data, pos)];
  }

  lemma {:induction false} ChunkedAppend(data: seq<byte>, pos: nat, end: nat, s: seq<byte>)
    requires Chunked(data, pos, end, s) && end + 4 <= |data| && LengthAt(data, end) <= MAX_CHUNK_LEN
    requires end + 4 + LengthAt(data, end) <= |data|
    ensures var next := end + 4 + LengthAt(data, end);
            Chunked(data, pos, next, s + data[end + 4..next])
    decreases |data| - pos
  {
    hide LengthAt, Chunked;
    var next := end + 4 + LengthAt(data, end);
    var last := data[end + 4..next];
    if pos == end && s == [] {
      assert (s + last)[|last|..] == [];
      NoChunk(data, next);
      MoreChunks(data, pos, next, s + last, last);
    } else {
      var first := FirstChunk(data, pos, end, s);
      ChunkedAppend(data, pos + 4 + |first|, end, s[|first|..]);
      assert s[|first|..] + last == (s + last)[|first|..];
      MoreChunks(data, pos, next, s + last, first);
    }
  }

  lemma NoChunk(data: seq<byte>, pos: nat)
    ensures Chunked(data, pos, pos, [])
  {
  }

  lemma MoreChunks(data: seq<byte>, pos: nat, end: nat, s: seq<byte>, first: seq<byte>)
    requires pos + 4 + |first| <= |data| && first == data[pos + 4..pos + 4 + |first|] && LengthAt(data, pos) == |first|
    requires |first| <= MAX_CHUNK_LEN && first <= s && Chunked(data, pos + 4 + |first|, end, s[|first|..])
    ensures Chunked(data, pos, end, s)
  {
    hide LengthAt;
  }

  // --------------------------------------------------------------------------
  // Packets
  // --------------------------------------------------------------------------

  /** `write_packet` in chunked mode: the packet as one chunk and a zero-length
      chunk behind it. */
  function PacketWire(pkt: seq<byte>): (s: seq<byte>)
    ensures |s| == |pkt| + 8
  {
    LeBytes(|pkt|, 4) + (pkt + LeBytes(0, 4))
  }

  function PacketsWire(packets: seq<seq<byte>>): (s: seq<byte>)
  {
    if packets == [] then [] else PacketWire(packets[0]) + PacketsWire(packets[1..])
  }

  function Concat(packets: seq<seq<byte>>): (s: seq<byte>)
  {
    if packets == [] then [] else packets[0] + Concat(packets[1..])
  }

  /** One packet is read back exactly when it is no longer than a chunk may be. */
  lemma PacketRoundTrip(data: seq<byte>, pos: nat, pkt: seq<byte>)
    requires Occurs(data, pos, PacketWire(pkt)) && |pkt| < U32_LIMIT
    ensures Payload(data, pos) == pkt + Payload(data, pos + |PacketWire(pkt)|) <==> |pkt| <= MAX_CHUNK_LEN
  {
    hide Payload, Occurs, LengthAt, PacketWire;
    PacketParts(data, pos, pkt);
    if |pkt| <= MAX_CHUNK_LEN {
      var after := pos + 4 + |pkt|;
      ChunkThere(data, pos, pkt);
      NothingOccurs(data, after + 4);
      ChunkThere(data, after, []);
      assert [] + Payload(data, after + 4) == Payload(data, after + 4);
    } else {
      TooLong(data, pos);
    }
  }

  lemma PacketParts(data: seq<byte>, pos: nat, pkt: seq<byte>)
    requires Occurs(data, pos, PacketWire(pkt)) && |pkt| < U32_LIMIT
    ensures pos + |pkt| + 8 <= |data| && LengthAt(data, pos) == |pkt| && Occurs(data, pos + 4, pkt)
    ensures LengthAt(data, pos + 4 + |pkt|) == 0
  {
    hide LeBytes, LengthAt, Occurs;
    OccursConcat(data, pos, LeBytes(|pkt|, 4), pkt + LeBytes(0, 4));
    OccursConcat(data, pos + 4, pkt, LeBytes(0, 4));
    LengthIs(data, pos, |pkt|);
    LengthIs(data, pos + 4 + |pkt|, 0);
  }

  lemma TooLong(data: seq<byte>, pos: nat)
    requires pos + 4 <= |data| && LengthAt(data, pos) > MAX_CHUNK_LEN
    ensures Payload(data, pos) == []
  {
  }

  lemma NothingOccurs(data: seq<byte>, pos: nat)
    requires pos <= |data|
    ensures Occurs(data, pos, [])
  {
  }

  lemma LengthIs(data: seq<byte>, pos: nat, n: nat)
    requires n < U32_LIMIT && Occurs(data, pos, LeBytes(n, 4))
    ensures pos + 4 <= |data| && LengthAt(data, pos) == n
  {
    hide LeBytes, LeValue;
    PowersOf256();
    LeRoundTrip(n, 4);
  }

  lemma ChunkThere(data: seq<byte>, pos: nat, pkt: seq<byte>)
    requires pos + 4 <= |data| && LengthAt(data, pos) == |pkt| <= MAX_CHUNK_LEN && Occurs(data, pos + 4, pkt)
    ensures Payload(data, pos) == pkt + Payload(data, pos + 4 + |pkt|)
  {
    hide LengthAt;
  }

  /** Packets within the chunk cap are read back as their concatenation. */
  lemma {:induction false} PacketsRoundTrip(data: seq<byte>, pos: nat, packets: seq<seq<byte>>)
    requires Occurs(data, pos, PacketsWire(packets))
    requires forall i :: 0 <= i < |packets| ==> |packets[i]| <= MAX_CHUNK_LEN
    ensures Payload(data, pos) == Concat(packets) + Payload(data, pos + |PacketsWire(packets)|)
    decreases |packets|
  {
    hide Payload, PacketWire, Occurs;
    if packets == [] {
      assert [] + Payload(data, pos) == Payload(data, pos);
    } else {
      var first, rest := PacketWire(packets[0]), PacketsWire(packets[1..]);
      OccursConcat(data, pos, first, rest);
      PacketRoundTrip(data, pos, packets[0]);
      PacketsRoundTrip(data, pos + |first|, packets[1..]);
      var tail := Payload(data, pos + |first| + |rest|);
      assert packets[0] + (Concat(packets[1..]) + tail) == packets[0] + Concat(packets[1..]) + tail;
    }
  }

  // --------------------------------------------------------------------------
  // The wrapper
  // --------------------------------------------------------------------------

  class StreamWrapper {
    const inner: Socket
    const chunkedRecv: bool
    const chunkedSend: bool
    var chunk: seq<byte>
    var chunkPos: nat
    var chunkFill: nat
    var lenBuf: seq<byte>
    var lenPos: nat
    const rdBuf: array<byte>
    var rdPos: nat
    var rdFill: nat
    /** What was written to the socket. */
    var sent: seq<byte>
    ghost const origin: nat
    ghost var served: seq<byte>
    /** The payload of the chunks that have been read and handed out whole. */
    ghost var before: seq<byte>
    /** A chunk length was refused; nothing is promised about what follows. */
    ghost var failed: bool

    /** Where the chunk in progress starts, its length bytes included. */
    ghost function Start(): (start: int)
      reads this, inner
    {
      inner.at - lenPos - if chunk == [] then 0 else 4 + chunkFill
    }

    ghost predicate Valid()
      reads this, inner, rdBuf
    {
      && inner.Valid() && origin <= inner.at && rdBuf.Length == READ_BUF_CAP && |lenBuf| == 4
      && (chunkedRecv && !failed ==> ChunkValid())
      && (!chunkedRecv ==> RawValid())
    }

    /** Bytes read are bytes served and the prefetched rest. */
    ghost predicate RawValid()
      reads this, inner, rdBuf
    {
      && rdPos <= rdFill <= rdBuf.Length && origin <= inner.at <= |inner.data|
      && served + rdBuf[rdPos..rdFill] == inner.data[origin..inner.at]
    }

    /** Only received bytes of the chunk in progress are served, behind the whole
        chunks before it. */
    ghost predicate ChunkValid()
      reads this, inner
    {
      && lenPos <= 4 == |lenBuf| && chunkPos <= chunkFill <= |chunk|
      && (if chunk == [] then HeaderPart(inner.data, inner.at, lenBuf, lenPos)
          else lenPos == 0 && ChunkPart(inner.data, inner.at, chunk, chunkFill))
      && origin <= Start() && Chunked(inner.data, origin, Start(), before)
      && served == before + chunk[..chunkPos]
    }

    constructor (inner: Socket, chunkedRecv: bool, chunkedSend: bool)
      requires inner.Valid()
      ensures Valid() && this.inner == inner && this.chunkedRecv == chunkedRecv && this.chunkedSend == chunkedSend
      ensures served == [] && sent == [] && origin == inner.at && !failed && fresh(rdBuf)
    {
      this.inner, this.chunkedRecv, this.chunkedSend := inner, chunkedRecv, chunkedSend;
      chunk, chunkPos, chunkFill, lenBuf, lenPos := [], 0, 0, [0, 0, 0, 0], 0;
      rdBuf, rdPos, rdFill := new byte[READ_BUF_CAP](_ => 0), 0, 0;
      sent, origin, served, before, failed := [], inner.at, [], [], false;
    }

    /** `read_buffered`. */
    method ReadBuffered(cap: nat) returns (p: Poll, out: seq<byte>)
      requires Valid() && !chunkedRecv
      modifies this`rdPos, this`rdFill, this`served, inner, rdBuf
      ensures Valid() && |out| <= cap && served == old(served) + out
      ensures p != Ready ==> out == []
      ensures p == Ready && out == [] && cap > 0 ==> inner.at == |inner.data| && rdPos == rdFill
    {
      if rdPos == rdFill && cap >= READ_BUF_CAP {
        p, out := inner.PollRead(cap);
        assert inner.data[origin..inner.at] == inner.data[origin..inner.at - |out|] + out;
        served := served + out;
        return;
      }
      while true
        invariant Valid() && served == old(served)
        decreases rdPos == rdFill
      {
        if rdPos < rdFill {
          out := ServePrefetched(cap);
          return Ready, out;
        }
        p := Refill();
        if p != Ready || rdFill == 0 { return p, []; }
      }
    }

    method ServePrefetched(cap: nat) returns (out: seq<byte>)
      requires Valid() && !chunkedRecv && rdPos < rdFill
      modifies this`rdPos, this`served
      ensures Valid() && |out| <= cap && served == old(served) + out && (cap > 0 ==> out != [])
    {
      var n := Min(cap, rdFill - rdPos);
      out := rdBuf[rdPos..rdPos + n];
      assert out + rdBuf[rdPos + n..rdFill] == rdBuf[rdPos..rdFill];
      assert served + out + rdBuf[rdPos + n..rdFill] == served + rdBuf[rdPos..rdFill];
      rdPos, served := rdPos + n, served + out;
    }

    /** Read ahead. The positions change only with a read that succeeded. */
    method Refill() returns (p: Poll)
      requires Valid() && !chunkedRecv && rdPos == rdFill
      modifies this`rdPos, this`rdFill, inner, rdBuf
      ensures Valid() && (p == Ready ==> rdPos == 0) && (p != Ready ==> rdPos == rdFill)
      ensures p == Ready && rdFill == 0 ==> inner.at == |inner.data|
    {
      var got;
      p, got := inner.PollRead(rdBuf.Length);
      if p != Ready { return; }
      CopyIn(got);
      rdPos, rdFill := 0, |got|;
      assert rdBuf[0..|got|] == got;
      assert inner.data[origin..inner.at] == inner.data[origin..inner.at - |got|] + got;
    }

    /** `poll_read`. */
    method PollRead(cap: nat) returns (p: Poll, out: seq<byte>)
      requires Valid() && !failed
      modifies this, inner, rdBuf
      ensures Valid() && |out| <= cap && served == old(served) + out && sent == old(sent)
      ensures p != Ready ==> out == []
      ensures failed ==> chunkedRecv && p == Broken && Oversized(inner.data, origin, served)
    {
      if chunkedRecv {
        p, out := ReadChunked(cap);
      } else {
        p, out := ReadBuffered(cap);
      }
    }

    /** `write_packet`, the writes completing. */
    method WritePacket(pkt: seq<byte>) returns (r: Result<()>)
      requires Valid()
      modifies this`sent
      ensures Valid()
      ensures r.Ok? <==> !chunkedSend || |pkt| < U32_LIMIT
      ensures sent == old(sent) + if r.Err? then [] else if chunkedSend then PacketWire(pkt) else pkt
    {
      hide Chunked, HeaderPart, ChunkPart;
      if chunkedSend {
        if |pkt| >= U32_LIMIT {
          assert sent + [] == sent;
          return Err(TooLarge);
        }
        var was := sent;
        sent := sent + LeBytes(|pkt|, 4);
        sent := sent + pkt;
        sent := sent + LeBytes(0, 4);
        assert sent == was + PacketWire(pkt);
      } else {
        sent := sent + pkt;
      }
      r := Ok(());
    }

    /** `poll_read` in chunked mode. */
    method ReadChunked(cap: nat) returns (p: Poll, out: seq<byte>)
      requires Valid() && chunkedRecv && !failed
      modifies this, inner
      ensures Valid() && |out| <= cap && served == old(served) + out && sent == old(sent)
      ensures p != Ready ==> out == []
      ensures p == Ready && cap > 0 ==> out != []
      ensures failed ==> p == Broken && Oversized(inner.data, origin, served)
    {
      hide ChunkValid;
      while true
        invariant Valid() && !failed && served == old(served) && sent == old(sent)
        decreases |inner.data| - inner.at + lenPos
      {
        ChunkBounds();
        if chunkPos < chunkFill {
          out := ServeChunk(cap);
          return Ready, out;
        }
        if chunk != [] && chunkFill == |chunk| {
          FinishChunk();
        }
        if chunk == [] {
          p := ReadLength();
          if p != Ready { return p, []; }
          var len := LeValue(lenBuf);
          if len > MAX_CHUNK_LEN {
            OversizedHere();
            lenPos, failed := 0, true;
            return Broken, [];
          }
          StartChunk(len);
          if len == 0 { continue; }
        }
        p := FillChunk();
        if p != Ready { return p, []; }
      }
    }

    lemma ChunkBounds()
      requires Valid() && chunkedRecv && !failed
      ensures chunkPos <= chunkFill <= |chunk| && lenPos <= 4 && (chunk != [] ==> lenPos == 0)
    {
    }

    method ServeChunk(cap: nat) returns (out: seq<byte>)
      requires Valid() && chunkedRecv && !failed && chunkPos < chunkFill
      modifies this`chunkPos, this`served
      ensures Valid() && |out| <= cap && served == old(served) + out && (cap > 0 ==> out != [])
    {
      hide Chunked, LengthAt, HeaderPart, ChunkPart;
      var n := Min(cap, chunkFill - chunkPos);
      out := chunk[chunkPos..chunkPos + n];
      assert chunk[..chunkPos] + out == chunk[..chunkPos + n];
      chunkPos, served := chunkPos + n, served + out;
    }

    /** A chunk received and handed out whole makes room for the next. */
    method FinishChunk()
      requires Valid() && chunkedRecv && !failed && chunk != [] && chunkPos == chunkFill == |chunk|
      modifies this`chunk, this`chunkPos, this`chunkFill, this`before
      ensures Valid() && chunk == [] && chunkPos == chunkFill == 0
    {
      hide Chunked;
      assert chunk[..chunkPos] == chunk && chunk[..chunkFill] == chunk;
      ChunkedAppend(inner.data, origin, Start(), before);
      before := before + chunk;
      chunk, chunkPos, chunkFill := [], 0, 0;
    }

    /** Complete the four length bytes, resuming across polls. */
    method ReadLength() returns (p: Poll)
      requires Valid() && chunkedRecv && !failed && chunk == []
      modifies this`lenBuf, this`lenPos, inner
      ensures Valid() && old(inner.at) <= inner.at && Start() == old(Start())
      ensures p == Ready ==> lenPos == 4
    {
      hide Chunked, HeaderPart, ChunkPart;
      while lenPos < 4
        invariant Valid() && old(inner.at) <= inner.at && Start() == old(Start())
        decreases 4 - lenPos
      {
        var got;
        p, got := inner.PollRead(4 - lenPos);
        if p != Ready { return; }
        if got == [] { return Broken; }
        HeaderGrows(inner.data, inner.at - |got|, lenBuf, lenPos, got);
        lenBuf, lenPos := lenBuf[..lenPos] + got + lenBuf[lenPos + |got|..], lenPos + |got|;
      }
      p := Ready;
    }

    /** Take a chunk of `len` bytes in hand, or step over an empty one. */
    method StartChunk(len: nat)
      requires Valid() && chunkedRecv && !failed && chunk == [] && lenPos == 4
      requires len == LeValue(lenBuf) <= MAX_CHUNK_LEN
      modifies this`chunk, this`chunkPos, this`chunkFill, this`lenPos
      ensures Valid() && |chunk| == len && chunkPos == chunkFill == lenPos == 0
    {
      hide Chunked;
      assert lenBuf[..4] == lenBuf;
      assert LengthAt(inner.data, Start()) == len;
      if len == 0 {
        ChunkedAppend(inner.data, origin, Start(), before);
        assert before + [] == before;
      }
      chunk, chunkPos, chunkFill, lenPos := Resized([], len), 0, 0, 0;
    }

    /** Complete the payload of the chunk in progress, resuming across polls. */
    method FillChunk() returns (p: Poll)
      requires Valid() && chunkedRecv && !failed && chunk != [] && chunkPos == chunkFill
      modifies this`chunk, this`chunkFill, inner
      ensures Valid() && |chunk| == |old(chunk)| && old(inner.at) <= inner.at
      ensures p == Ready ==> chunkFill == |chunk| && inner.at == old(inner.at - chunkFill) + |chunk|
    {
      hide Chunked, LengthAt;
      while chunkFill < |chunk|
        invariant Valid() && |chunk| == |old(chunk)| && chunkPos <= chunkFill
        invariant inner.at - chunkFill == old(inner.at - chunkFill) && old(inner.at) <= inner.at
        decreases |chunk| - chunkFill
      {
        var got;
        p, got := inner.PollRead(|chunk| - chunkFill);
        if p != Ready { return; }
        if got == [] { return Broken; }
        var filled := chunk[..chunkFill] + got + chunk[chunkFill + |got|..];
        assert filled[..chunkFill + |got|] == chunk[..chunkFill] + got;
        assert filled[..chunkPos] == chunk[..chunkPos];
        chunk, chunkFill := filled, chunkFill + |got|;
      }
      p := Ready;
    }

    lemma OversizedHere()
      requires Valid() && chunkedRecv && !failed && chunk == [] && lenPos == 4 && LeValue(lenBuf) > MAX_CHUNK_LEN
      ensures Oversized(inner.data, origin, served)
    {
      hide Chunked;
      assert lenBuf[..4] == lenBuf && chunk[..chunkPos] == [];
      assert served == before;
      assert LengthAt(inner.data, Start()) > MAX_CHUNK_LEN;
    }

    method CopyIn(got: seq<byte>)
      requires |got| <= rdBuf.Length
      modifies rdBuf
      ensures rdBuf[..|got|] == got
    {
      for i := 0 to |got|
        invariant rdBuf[..i] == got[..i]
      {
        rdBuf[i] := got[i];
      }
    }
  }

  /** Behind the chunks that held `served` stands a length over the cap. */
  ghost predicate Oversized(data: seq<byte>, origin: nat, served: seq<byte>)
  {
    exists start: nat ::
      Chunked(data, origin, start, served) && start + 4 <= |data| && LengthAt(data, start) > MAX_CHUNK_LEN
  }

  /** The last `got` bytes read are the first bytes of a chunk length. */
  ghost predicate HeaderPart(data: seq<byte>, at: nat, lenBuf: seq<byte>, got: nat)
  {
    got <= |lenBuf| && got <= at <= |data| && lenBuf[..got] == data[at - got..at]
  }

  lemma HeaderGrows(data: seq<byte>, at: nat, lenBuf: seq<byte>, got: nat, more: seq<byte>)
    requires |lenBuf| == 4 && got + |more| <= 4 && HeaderPart(data, at, lenBuf, got)
    requires at + |more| <= |data| && more == data[at..at + |more|]
    ensures HeaderPart(data, at + |more|, lenBuf[..got] + more + lenBuf[got + |more|..], got + |more|)
  {
    var filled := lenBuf[..got] + more + lenBuf[got + |more|..];
    assert filled[..got + |more|] == lenBuf[..got] + more;
    assert data[at - got..at + |more|] == data[at - got..at] + data[at..at + |more|];
  }

  /** The last bytes read are a chunk length and `fill` bytes of its chunk. */
  ghost predicate ChunkPart(data: seq<byte>, at: nat, chunk: seq<byte>, fill: nat)
  {
    && fill <= |chunk| <= MAX_CHUNK_LEN && 4 + fill <= at <= |data|
    && LengthAt(data, at - fill - 4) == |chunk| && chunk[..fill] == data[at - fill..at]
  }

  // --------------------------------------------------------------------------
  // What the reader sees
  // --------------------------------------------------------------------------

  /** In chunked mode the bytes served are at every moment the first bytes of
      the concatenated payloads. */
  lemma ServedIsPayload(s: StreamWrapper)
    requires s.Valid() && s.chunkedRecv && !s.failed
    ensures s.served <= Payload(s.inner.data, s.origin)
  {
    hide Chunked;
    var start := s.Start();
    ChunkedPayload(s.inner.data, s.origin, start, s.before);
    if s.chunk != [] {
      PartOfPayload(s.inner.data, s.inner.at, s.chunk, s.chunkFill, s.chunkPos);
    }
    var rest := Payload(s.inner.data, start);
    assert s.chunk[..s.chunkPos] <= rest;
    assert s.before + rest[..s.chunkPos] <= s.before + rest;
  }

  lemma PartOfPayload(data: seq<byte>, at: nat, chunk: seq<byte>, fill: nat, n: nat)
    requires ChunkPart(data, at, chunk, fill) && n <= fill
    ensures chunk[..n] <= Payload(data, at - fill - 4)
  {
    hide LengthAt;
    var start := at - fill;
    assert chunk[..n] == data[start..at][..n] == data[start..start + n];
    var end := start + |chunk|;
    if end <= |data| {
      assert data[start..end][..n] == data[start..start + n];
    }
  }

  /** A chunk over the cap ends the payload: everything before it was served. */
  lemma OversizedIsEnd(data: seq<byte>, origin: nat, served: seq<byte>)
    requires Oversized(data, origin, served)
    ensures Payload(data, origin) == served
  {
    hide Chunked;
    var start: nat :| Chunked(data, origin, start, served) && start + 4 <= |data| && LengthAt(data, start) > MAX_CHUNK_LEN;
    ChunkedPayload(data, origin, start, served);
    assert served + [] == served;
  }

  /** In raw mode every byte read is either served, in order, or prefetched. */
  lemma RawConserves(s: StreamWrapper)
    requires s.Valid() && !s.chunkedRecv
    ensures s.served == s.inner.data[s.origin..s.origin + |s.served|]
    ensures s.inner.at == s.origin + |s.served| + (s.rdFill - s.rdPos)
  {
    var all := s.inner.data[s.origin..s.inner.at];
    assert s.served + s.rdBuf[s.rdPos..s.rdFill] == all;
    assert s.served == all[..|s.served|];
  }

  /** A whole run in chunked mode, any reads against any schedule: packets that
      were written within the chunk cap come out as their concatenation. */
  method Run(s: StreamWrapper, caps: seq<nat>, ghost packets: seq<seq<byte>>) returns (out: seq<byte>)
    requires s.Valid() && s.chunkedRecv && !s.failed && s.served == []
    requires Occurs(s.inner.data, s.origin, PacketsWire(packets))
    requires forall i :: 0 <= i < |packets| ==> |packets[i]| <= MAX_CHUNK_LEN
    modifies s, s.inner, s.rdBuf
    ensures out <= Payload(s.inner.data, s.origin)
    ensures out <= Concat(packets) || Concat(packets) <= out
    ensures |out| < |Concat(packets)| ==> !s.failed
  {
    hide Oversized, Payload, PacketsWire, Occurs;
    out := [];
    var i, broken := 0, false;
    while i < |caps| && !broken
      invariant s.Valid() && out == s.served && i <= |caps|
      invariant s.failed ==> broken && Oversized(s.inner.data, s.origin, out)
    {
      var p, more := s.PollRead(caps[i]);
      out, i, broken := out + more, i + 1, p == Broken;
    }
    PacketsRoundTrip(s.inner.data, s.origin, packets);
    if s.failed {
      OversizedIsEnd(s.inner.data, s.origin, out);
    } else {
      ServedIsPayload(s);
    }
    PrefixesAgree(out, Concat(packets), Payload(s.inner.data, s.origin));
  }

  lemma PrefixesAgree(a: seq<byte>, b: seq<byte>, whole: seq<byte>)
    requires a <= whole && b <= whole
    ensures a <= b || b <= a
  {
    if |a| <= |b| {
      assert a == whole[..|a|] == b[..|a|];
    } else {
      assert b == whole[..|b|] == a[..|b|];
    }
  }

  /** What one side writes packet by packet is the chunk stream of its packets. */
  method WriteAll(s: StreamWrapper, packets: seq<seq<byte>>) returns (r: Result<()>)
    requires s.Valid() && s.chunkedSend && s.sent == []
    modifies s`sent
    ensures s.Valid()
    ensures r.Ok? <==> forall i :: 0 <= i < |packets| ==> |packets[i]| < U32_LIMIT
    ensures r.Ok? ==> s.sent == PacketsWire(packets)
  {
    hide PacketWire;
    var i := 0;
    while i < |packets|
      invariant i <= |packets| && s.Valid() && s.sent == PacketsWire(packets[..i])
      invariant forall k :: 0 <= k < i ==> |packets[k]| < U32_LIMIT
    {
      var w := s.WritePacket(packets[i]);
      if w.Err? { return w; }
      WireSnoc(packets[..i], packets[i]);
      assert packets[..i] + [packets[i]] == packets[..i + 1];
      i := i + 1;
    }
    assert packets[..i] == packets;
    r := Ok(());
  }

  lemma {:induction false} WireSnoc(packets: seq<seq<byte>>, last: seq<byte>)
    ensures PacketsWire(packets + [last]) == PacketsWire(packets) + PacketWire(last)
  {
    hide PacketWire;
    if packets == [] {
      assert [last][1..] == [] && PacketsWire([last]) == PacketWire(last) + [];
      assert [] + [last] == [last];
    } else {
      WireSnoc(packets[1..], last);
      assert (packets + [last])[0] == packets[0] && (packets + [last])[1..] == packets[1..] + [last];
    }
  }
}
