/** Pipelined queries on one connection (`src/connection/batch.rs`): a reader
    tags the blocks of N result sets and sends them through a FIFO channel, a
    collector keeps the first block of each. */
module Batch {
  import opened Bytes

  /** A decoded block; `payload` is what it is charged for. */
  datatype Block = Block(rows: nat, payload: nat, id: nat)

  /** What the reader finds at the next packet. A stream that ends, or fails
      inside a packet, has no further packet. */
  datatype Packet =
    | Data(block: Block)
    | EndOfStream
    | Exception
    | Consumed          // progress, profile, log and coordination packets
    | Unknown

  datatype Message = Message(index: nat, content: Content)
  datatype Content = Rows(block: Block) | Ended | Failed

  // --------------------------------------------------------------------------
  // The budget
  // --------------------------------------------------------------------------

  class ResponseBudget {
    const limit: nat
    var used: nat

    constructor (limit: nat)
      ensures this.limit == limit && used == 0
    {
      this.limit, used := limit, 0;
    }

    /** Up to exactly the limit succeeds; a breach records the attempted total,
        unless it does not fit a machine word. */
    method Charge(bytes: nat) returns (ok: bool)
      requires used < U64_LIMIT && limit < U64_LIMIT
      modifies this
      ensures ok <==> old(used) + bytes <= limit
      ensures used == if old(used) + bytes < U64_LIMIT then old(used) + bytes else old(used)
    {
      if used + bytes < U64_LIMIT {
        used := used + bytes;
        ok := used <= limit;
      } else {
        ok := false;
      }
    }

    method Reset()
      modifies this
      ensures used == 0
    {
      used := 0;
    }
  }

  // --------------------------------------------------------------------------
  // What a batch should return
  // --------------------------------------------------------------------------

  /** The packets of the first result set: up to its EndOfStream. */
  function SetLen(packets: seq<Packet>): (n: nat)
    ensures n <= |packets| && EndOfStream !in packets[..n]
    ensures n < |packets| ==> packets[n] == EndOfStream
  {
    if packets == [] || packets[0] == EndOfStream then 0
    else
      assert packets == [packets[0]] + packets[1..];
      1 + SetLen(packets[1..])
  }

  predicate HasRows(p: Packet)
  {
    p.Data? && p.block.rows > 0
  }

  /** The first block with rows. */
  function FirstRows(packets: seq<Packet>): (b: Option<Block>)
  {
    if packets == [] then None
    else if HasRows(packets[0]) then Some(packets[0].block)
    else FirstRows(packets[1..])
  }

  lemma {:induction false} FirstRowsMeans(packets: seq<Packet>, i: nat)
    requires i < |packets| && HasRows(packets[i]) && forall j :: 0 <= j < i ==> !HasRows(packets[j])
    ensures FirstRows(packets) == Some(packets[i].block)
  {
    if i > 0 {
      FirstRowsMeans(packets[1..], i - 1);
    }
  }

  /** The payload of the blocks with rows. */
  function Charged(packets: seq<Packet>): (n: nat)
  {
    if packets == [] then 0 else (if HasRows(packets[0]) then packets[0].block.payload else 0) + Charged(packets[1..])
  }

  /** A result set that ends well: nothing in it is an error, and what it holds
      is within the budget. */
  predicate Clean(packets: seq<Packet>, limit: nat)
  {
    && (forall i :: 0 <= i < |packets| ==> !packets[i].Exception? && !packets[i].Unknown?)
    && Charged(packets) <= limit
  }

  /** The first `n` result sets all end, and well. */
  predicate AllClean(packets: seq<Packet>, n: nat, limit: nat)
    decreases n
  {
    n == 0 ||
      var len := SetLen(packets);
      len < |packets| && Clean(packets[..len], limit) && AllClean(packets[len + 1..], n - 1, limit)
  }

  /** The first block with rows of each of the first `n` result sets. */
  function Firsts(packets: seq<Packet>, n: nat): (blocks: seq<Option<Block>>)
    ensures |blocks| == n
    decreases n
  {
    if n == 0 then []
    else
      var len := SetLen(packets);
      [FirstRows(packets[..len])] + Firsts(if len < |packets| then packets[len + 1..] else [], n - 1)
  }

  // --------------------------------------------------------------------------
  // The reader
  // --------------------------------------------------------------------------

  /** What the reader sends from the middle of result set `index` of `n`, having
      charged `used` for it. The error of a failed read carries index 0. */
  function Sent(packets: seq<Packet>, index: nat, n: nat, used: nat, limit: nat): (msgs: seq<Message>)
    decreases |packets|
  {
    if index >= n then []
    else if packets == [] then [Message(0, Failed)]
    else
      var p, rest := packets[0], packets[1..];
      if HasRows(p) then
        if used + p.block.payload > limit then [Message(index, Failed)]
        else [Message(index, Rows(p.block))] + Sent(rest, index, n, used + p.block.payload, limit)
      else if p.Exception? || p.Unknown? then [Message(index, Failed)]
      else if p.EndOfStream? then [Message(index, Ended)] + Sent(rest, index + 1, n, 0, limit)
      else Sent(rest, index, n, used, limit)
  }

  /** `read_n_result_sets`, and the error its caller sends when a read fails. */
  method ReadResultSets(packets: seq<Packet>, n: nat, limit: nat) returns (sent: seq<Message>)
    requires limit < U64_LIMIT
    ensures sent == Sent(packets, 0, n, 0, limit)
  {
    hide Sent;
    sent := [];
    var budget := new ResponseBudget(limit);
    var pos := 0;
    assert packets[0..] == packets;
    for index := 0 to n
      invariant fresh(budget) && pos <= |packets| && budget.limit == limit
      invariant Sent(packets, 0, n, 0, limit) == sent + Sent(packets[pos..], index, n, 0, limit)
    {
      budget.Reset();
      var more, next, over := ReadResultSet(packets, pos, index, n, budget);
      if over { return sent + more; }
      assert sent + (more + Sent(packets[next..], index + 1, n, 0, limit))
          == sent + more + Sent(packets[next..], index + 1, n, 0, limit);
      sent, pos := sent + more, next;
    }
    AllSetsSent(packets[pos..], n, limit);
    assert sent + [] == sent;
  }

  lemma AllSetsSent(packets: seq<Packet>, n: nat, limit: nat)
    ensures Sent(packets, n, n, 0, limit) == []
  {
  }

  /** The packet loop of one result set; `over` when nothing follows it. */
  method ReadResultSet(packets: seq<Packet>, start: nat, index: nat, n: nat, budget: ResponseBudget)
    returns (sent: seq<Message>, pos: nat, over: bool)
    requires start <= |packets| && index < n && budget.used == 0 && budget.limit < U64_LIMIT
    modifies budget
    ensures pos <= |packets|
    ensures Sent(packets[start..], index, n, 0, budget.limit)
         == sent + if over then [] else Sent(packets[pos..], index + 1, n, 0, budget.limit)
  {
    hide Sent;
    sent, pos := [], start;
    while pos < |packets|
      invariant pos <= |packets| && budget.used <= budget.limit
      invariant Sent(packets[start..], index, n, 0, budget.limit)
             == sent + Sent(packets[pos..], index, n, budget.used, budget.limit)
    {
      var p := packets[pos];
      assert packets[pos..][1..] == packets[pos + 1..];
      SentStep(packets[pos..], index, n, budget.used, budget.limit, sent);
      pos := pos + 1;
      match p
      case Data(block) =>
        if block.rows > 0 {
          var ok := budget.Charge(block.payload);
          if !ok { return sent + [Message(index, Failed)], pos, true; }
          sent := sent + [Message(index, Rows(block))];
        }
      case EndOfStream => return sent + [Message(index, Ended)], pos, false;
      case Exception => return sent + [Message(index, Failed)], pos, true;
      case Consumed =>
      case Unknown => return sent + [Message(index, Failed)], pos, true;
    }
    NoPacketLeft(packets[pos..], index, n, budget.used, budget.limit);
    return sent + [Message(0, Failed)], pos, true;
  }

  lemma NoPacketLeft(packets: seq<Packet>, index: nat, n: nat, used: nat, limit: nat)
    requires packets == [] && index < n
    ensures Sent(packets, index, n, used, limit) == [Message(0, Failed)]
  {
  }

  lemma SentStep(packets: seq<Packet>, index: nat, n: nat, used: nat, limit: nat, sent: seq<Message>)
    requires packets != [] && index < n
    ensures var p, rest := packets[0], packets[1..];
            var more := Sent(packets, index, n, used, limit);
            if HasRows(p) then
              if used + p.block.payload > limit then more == [Message(index, Failed)]
              else sent + more == sent + [Message(index, Rows(p.block))] + Sent(rest, index, n, used + p.block.payload, limit)
            else if p.Exception? || p.Unknown? then more == [Message(index, Failed)]
            else if p.EndOfStream? then sent + more == sent + [Message(index, Ended)] + Sent(rest, index + 1, n, 0, limit)
            else more == Sent(rest, index, n, used, limit)
  {
  }

  /** The payload forwarded for one result set. */
  function Forwarded(msgs: seq<Message>, index: nat): (n: nat)
  {
    if msgs == [] then 0
    else
      (if msgs[0].content.Rows? && msgs[0].index == index then msgs[0].content.block.payload else 0)
      + Forwarded(msgs[1..], index)
  }

  /** For no result set is more payload forwarded than the budget allows, however
      the stream goes on. */
  lemma {:induction false} ForwardedWithinBudget(packets: seq<Packet>, index: nat, n: nat, used: nat, limit: nat, k: nat)
    requires used <= limit
    ensures var msgs := Sent(packets, index, n, used, limit);
            Forwarded(msgs, k) + (if k == index then used else 0) <= limit
    ensures k < index ==> Forwarded(Sent(packets, index, n, used, limit), k) == 0
    decreases |packets|
  {
    if index < n && packets != [] {
      var p, rest := packets[0], packets[1..];
      if HasRows(p) {
        if used + p.block.payload <= limit {
          ForwardedWithinBudget(rest, index, n, used + p.block.payload, limit, k);
          ForwardedNext(Message(index, Rows(p.block)), Sent(rest, index, n, used + p.block.payload, limit), k);
        }
      } else if p.EndOfStream? {
        ForwardedWithinBudget(rest, index + 1, n, 0, limit, k);
        ForwardedNext(Message(index, Ended), Sent(rest, index + 1, n, 0, limit), k);
      } else if !p.Exception? && !p.Unknown? {
        ForwardedWithinBudget(rest, index, n, used, limit, k);
      }
    }
  }

  lemma ForwardedNext(m: Message, msgs: seq<Message>, k: nat)
    ensures Forwarded([m] + msgs, k)
         == (if m.content.Rows? && m.index == k then m.content.block.payload else 0) + Forwarded(msgs, k)
  {
    assert ([m] + msgs)[1..] == msgs;
  }

  // --------------------------------------------------------------------------
  // The collector
  // --------------------------------------------------------------------------

  /** What the collector makes of the messages. A channel that closes early ends
      it like the last EndOfStream. */
  function Collected(msgs: seq<Message>, results: seq<Option<Block>>, remaining: nat): (r: Result<seq<Option<Block>>>)
    requires forall i :: 0 <= i < |msgs| ==> msgs[i].content.Failed? || msgs[i].index < |results|
    decreases |msgs|
  {
    if msgs == [] then Ok(results)
    else
      var m, rest := msgs[0], msgs[1..];
      match m.content
      case Failed => Err(ConnectionClosed)
      case Rows(b) => Collected(rest, if results[m.index].None? then results[m.index := Some(b)] else results, remaining)
      case Ended => if remaining <= 1 then Ok(results) else Collected(rest, results, remaining - 1)
  }

  method Collect(msgs: seq<Message>, n: nat) returns (r: Result<seq<Option<Block>>>)
    requires n > 0
    requires forall i :: 0 <= i < |msgs| ==> msgs[i].content.Failed? || msgs[i].index < n
    ensures r == Collected(msgs, seq(n, i => None), n)
  {
    var results: seq<Option<Block>>, remaining := seq(n, i => None), n;
    var i := 0;
    assert msgs[0..] == msgs;
    while i < |msgs|
      invariant i <= |msgs| && |results| == n && remaining > 0
      invariant Collected(msgs, seq(n, i => None), n) == Collected(msgs[i..], results, remaining)
    {
      var m := msgs[i];
      assert msgs[i..][1..] == msgs[i + 1..];
      i := i + 1;
      match m.content
      case Rows(b) =>
        if results[m.index].None? {
          results := results[m.index := Some(b)];
        }
      case Ended =>
        remaining := remaining - 1;
        if remaining == 0 { return Ok(results); }
      case Failed => return Err(ConnectionClosed);
    }
    return Ok(results);
  }

  // --------------------------------------------------------------------------
  // Reader and collector together
  // --------------------------------------------------------------------------

  predicate Indexed(msgs: seq<Message>, n: nat)
  {
    forall i :: 0 <= i < |msgs| ==> msgs[i].content.Failed? || msgs[i].index < n
  }

  lemma {:induction false} SentIndexed(packets: seq<Packet>, index: nat, n: nat, used: nat, limit: nat)
    ensures Indexed(Sent(packets, index, n, used, limit), n)
    decreases |packets|
  {
    if index < n && packets != [] {
      var p, rest := packets[0], packets[1..];
      if HasRows(p) {
        SentIndexed(rest, index, n, used + p.block.payload, limit);
      } else if p.EndOfStream? {
        SentIndexed(rest, index + 1, n, 0, limit);
      } else {
        SentIndexed(rest, index, n, used, limit);
      }
    }
  }

  /** What is collected of the reader's messages. */
  function Delivered(packets: seq<Packet>, index: nat, used: nat, limit: nat, results: seq<Option<Block>>): (r: Result<seq<Option<Block>>>)
    requires index <= |results|
  {
    SentIndexed(packets, index, |results|, used, limit);
    Collected(Sent(packets, index, |results|, used, limit), results, |results| - index)
  }

  /** A result keeps the block it has, or takes the new one. */
  function Or(a: Option<Block>, b: Option<Block>): (c: Option<Block>)
  {
    if a.Some? then a else b
  }

  function NextSets(packets: seq<Packet>, len: nat): (rest: seq<Packet>)
  {
    if len < |packets| then packets[len + 1..] else []
  }

  /** The messages of one result set: a clean one puts its first block into its
      own place, any other fails the batch. */
  lemma {:induction false} OneSet(packets: seq<Packet>, index: nat, used: nat, limit: nat, results: seq<Option<Block>>)
    requires index < |results| && used <= limit
    ensures var len := SetLen(packets);
            Delivered(packets, index, used, limit, results) ==
              if len < |packets| && Clean(packets[..len], limit - used)
              then Delivered(NextSets(packets, len), index + 1, 0, limit,
                             results[index := Or(results[index], FirstRows(packets[..len]))])
              else Err(ConnectionClosed)
    decreases |packets|
  {
    hide Clean;
    if packets == [] {
    } else if packets[0].EndOfStream? {
      EndsHere(packets, index, used, limit, results);
    } else {
      var len := SetLen(packets);
      var p, rest := packets[0], packets[1..];
      assert packets[..len][0] == p && packets[..len][1..] == rest[..len - 1];
      CleanStep(packets[..len], limit - used);
      assert NextSets(packets, len) == NextSets(rest, len - 1);
      if HasRows(p) {
        if used + p.block.payload <= limit {
          TakesRows(packets, index, used, limit, results);
          var more := if results[index].None? then results[index := Some(p.block)] else results;
          OneSet(rest, index, used + p.block.payload, limit, more);
          assert more[index := Or(more[index], FirstRows(rest[..len - 1]))]
              == results[index := Or(results[index], FirstRows(packets[..len]))];
        }
      } else if !p.Exception? && !p.Unknown? {
        OneSet(rest, index, used, limit, results);
      }
    }
  }

  lemma CleanStep(packets: seq<Packet>, limit: nat)
    requires packets != []
    ensures var p := packets[0];
            Clean(packets, limit) <==>
              && !p.Exception? && !p.Unknown?
              && (if HasRows(p) then p.block.payload <= limit && Clean(packets[1..], limit - p.block.payload)
                  else Clean(packets[1..], limit))
  {
    assert forall i :: 0 < i < |packets| ==> packets[i] == packets[1..][i - 1];
    assert forall i :: 0 <= i < |packets[1..]| ==> packets[1..][i] == packets[i + 1];
  }

  lemma EndsHere(packets: seq<Packet>, index: nat, used: nat, limit: nat, results: seq<Option<Block>>)
    requires packets != [] && packets[0].EndOfStream? && index < |results| && used <= limit
    ensures SetLen(packets) == 0 && Clean(packets[..0], limit - used)
    ensures Delivered(packets, index, used, limit, results)
         == Delivered(NextSets(packets, 0), index + 1, 0, limit, results[index := Or(results[index], FirstRows(packets[..0]))])
  {
    var n, rest := |results|, packets[1..];
    var msgs := Sent(rest, index + 1, n, 0, limit);
    assert Sent(packets, index, n, used, limit)[1..] == msgs;
    assert results[index := results[index]] == results;
    SentIndexed(packets, index, n, used, limit);
    if index + 1 == n {
      assert msgs == [];
    }
  }

  lemma TakesRows(packets: seq<Packet>, index: nat, used: nat, limit: nat, results: seq<Option<Block>>)
    requires packets != [] && HasRows(packets[0]) && index < |results| && used + packets[0].block.payload <= limit
    ensures var b := packets[0].block;
            Delivered(packets, index, used, limit, results) ==
              Delivered(packets[1..], index, used + b.payload, limit,
                        if results[index].None? then results[index := Some(b)] else results)
  {
    var n, b := |results|, packets[0].block;
    assert Sent(packets, index, n, used, limit)[1..] == Sent(packets[1..], index, n, used + b.payload, limit);
    SentIndexed(packets, index, n, used, limit);
  }

  lemma {:induction false} RestDelivered(packets: seq<Packet>, index: nat, limit: nat, results: seq<Option<Block>>)
    requires index <= |results| && forall i :: index <= i < |results| ==> results[i].None?
    ensures Delivered(packets, index, 0, limit, results)
         == if AllClean(packets, |results| - index, limit) then Ok(results[..index] + Firsts(packets, |results| - index))
            else Err(ConnectionClosed)
    decreases |results| - index
  {
    hide Clean, FirstRows, Delivered, AllClean, Firsts;
    if index == |results| {
      NothingLeft(packets, limit, results);
    } else {
      var len, m := SetLen(packets), |results| - index;
      OneSet(packets, index, 0, limit, results);
      AllCleanStep(packets, m, limit);
      if len < |packets| && Clean(packets[..len], limit) {
        var first := FirstRows(packets[..len]);
        var next := results[index := first];
        RestDelivered(packets[len + 1..], index + 1, limit, next);
        var rest := Firsts(packets[len + 1..], m - 1);
        assert next[..index + 1] == results[..index] + [first];
        assert next[..index + 1] + rest == results[..index] + ([first] + rest);
      }
    }
  }

  lemma NothingLeft(packets: seq<Packet>, limit: nat, results: seq<Option<Block>>)
    ensures Delivered(packets, |results|, 0, limit, results) == Ok(results[..|results|] + Firsts(packets, 0))
    ensures AllClean(packets, 0, limit)
  {
    AllSetsSent(packets, |results|, limit);
    assert results[..|results|] + [] == results;
  }

  lemma AllCleanStep(packets: seq<Packet>, m: nat, limit: nat)
    requires m > 0
    ensures var len := SetLen(packets);
            && (AllClean(packets, m, limit) <==>
                  len < |packets| && Clean(packets[..len], limit) && AllClean(packets[len + 1..], m - 1, limit))
            && (len < |packets| ==> Firsts(packets, m) == [FirstRows(packets[..len])] + Firsts(packets[len + 1..], m - 1))
  {
    hide Clean, FirstRows;
  }

  /** `BatchBuilder::execute` behind the write: it succeeds exactly when the first
      `n` result sets all end cleanly, and then returns the first block with rows
      of each. */
  method Execute(packets: seq<Packet>, n: nat, limit: nat) returns (r: Result<seq<Option<Block>>>)
    requires limit < U64_LIMIT
    ensures r == if AllClean(packets, n, limit) then Ok(Firsts(packets, n)) else Err(ConnectionClosed)
  {
    hide Sent, Collected, AllClean, Firsts;
    if n == 0 {
      NoQueries(packets, limit);
      return Ok([]);
    }
    var sent := ReadResultSets(packets, n, limit);
    SentIndexed(packets, 0, n, 0, limit);
    r := Collect(sent, n);
    var none: seq<Option<Block>> := seq(n, i => None);
    RestDelivered(packets, 0, limit, none);
    assert none[..0] + Firsts(packets, n) == Firsts(packets, n);
  }

  lemma NoQueries(packets: seq<Packet>, limit: nat)
    ensures AllClean(packets, 0, limit) && Firsts(packets, 0) == []
  {
  }

  /** A batch that succeeds has read one EndOfStream for every query. */
  lemma {:induction false} EveryQueryEnded(packets: seq<Packet>, n: nat, limit: nat)
    requires AllClean(packets, n, limit)
    ensures Terminators(packets) >= n
    decreases n
  {
    hide AllClean, Clean, Terminators;
    if n > 0 {
      var len := SetLen(packets);
      AllCleanStep(packets, n, limit);
      EveryQueryEnded(packets[len + 1..], n - 1, limit);
      TerminatorsBehind(packets, len);
    }
  }

  function Terminators(packets: seq<Packet>): (n: nat)
  {
    if packets == [] then 0 else (if packets[0].EndOfStream? then 1 else 0) + Terminators(packets[1..])
  }

  lemma {:induction false} TerminatorsBehind(packets: seq<Packet>, i: nat)
    requires i < |packets| && packets[i].EndOfStream?
    ensures Terminators(packets) >= 1 + Terminators(packets[i + 1..])
  {
    if i > 0 {
      TerminatorsBehind(packets[1..], i - 1);
      assert packets[1..][i..] == packets[i + 1..];
    }
  }
}
