/** The network as the stream machines see it: a byte sequence and a scheduler
    that may deliver any part of it at any poll. */
module Sockets {
  import opened Bytes

  datatype Poll = Ready | Pending | Broken

  /** A byte stream of which the peer delivers as much as it likes whenever it
      likes. `data` is everything that will ever be sent. */
  class Socket {
    const data: seq<byte>
    var at: nat

    constructor (data: seq<byte>)
      ensures this.data == data && at == 0 && Valid()
    {
      this.data := data;
      at := 0;
    }

    ghost predicate Valid()
      reads this
    {
      at <= |data|
    }

    /** Any number of waiting bytes up to `cap`, nothing yet, or an error. Ready
        without bytes where there was room for some means end of stream. */
    method PollRead(cap: nat) returns (p: Poll, got: seq<byte>)
      requires Valid()
      modifies this
      ensures Valid() && |got| <= cap && at == old(at) + |got| && got == data[old(at)..at]
      ensures p != Ready ==> got == []
      ensures p == Ready && got == [] && cap > 0 ==> at == |data|
    {
      if * {
        return Pending, [];
      } else if * {
        return Broken, [];
      }
      var most := Min(cap, |data| - at);
      var n :| (if most == 0 then 0 else 1) <= n <= most;
      p, got := Ready, data[at..at + n];
      at := at + n;
    }

    /** `read_exact`: awaited until all bytes are there, or the stream ends or
        fails part of the way. */
    method ReadExact(n: nat) returns (r: Result<seq<byte>>)
      requires Valid()
      modifies this
      ensures Valid() && old(at) <= at
      ensures r.Ok? ==> at == old(at) + n && r.value == data[old(at)..at]
    {
      if at + n > |data| {
        at := |data|;
        return Err(ConnectionClosed);
      } else if * {
        var m :| 0 <= m <= n;
        at := at + m;
        return Err(ConnectionClosed);
      }
      r := Ok(data[at..at + n]);
      at := at + n;
    }
  }

  /** `Vec::resize` with zeros. */
  function Resized(s: seq<byte>, n: nat): (r: seq<byte>)
    ensures |r| == n && r[..Min(n, |s|)] == s[..Min(n, |s|)]
  {
    if |s| <= n then s + seq(n - |s|, i => 0) else s[..n]
  }
}
