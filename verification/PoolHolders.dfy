/** The objects that hold a pooled connection, as they are written: the guard,
    the block stream and the insert session. Their methods carry out the steps of
    module Pool; `StreamMut` can only be called where it cannot abort. */
module PoolHolders {
  import opened Bytes
  import opened Pool

  class PoolGuard {
    var conn: Option<Conn>

    constructor (conn: Option<Conn>)
      ensures this.conn == conn
    {
      this.conn := conn;
    }

    /** Aborts the process on an empty slot: nobody may call it there. */
    method StreamMut()
      requires conn.Some?
    {
    }

    method TakeStream()
      modifies this
      ensures conn == None
    {
      conn := None;
    }

    method ClearResponseInFlight()
      modifies this
      ensures conn == Clear(old(conn))
    {
      if conn.Some? {
        conn := Some(conn.value.(inFlight := false));
      }
    }

    method InvalidateOnErr(o: Outcome)
      modifies this
      ensures conn == if o.Fatal? then None else old(conn)
    {
      if o.Fatal? {
        TakeStream();
      }
    }

    /** Leaves an unmarked connection, or none after a fatal error. */
    method FinishResponse(o: Outcome)
      modifies this
      ensures conn == Finish(old(conn), o)
      ensures conn.Some? ==> !o.Fatal? && !conn.value.inFlight
    {
      ClearResponseInFlight();
      InvalidateOnErr(o);
    }

    /** A marked connection never stays in the slot; any other does. */
    method Drop()
      modifies this
      ensures conn == GuardDrop(old(conn))
      ensures conn.Some? ==> !conn.value.inFlight
      ensures old(conn).Some? && !old(conn).value.inFlight ==> conn == old(conn)
    {
      if conn.Some? && conn.value.inFlight {
        TakeStream();
      }
    }
  }

  // --------------------------------------------------------------------------
  // BlockStream
  // --------------------------------------------------------------------------

  /** What awaiting the next packet comes to. */
  datatype Packet =
    | Rows                 // a Data block with rows
    | Skipped              // an empty Data block, or a packet that is only consumed
    | BodyFails            // an error inside a packet, or an unsupported packet
    | Terminal             // EndOfStream or a server exception
    | ReadFails            // the packet type cannot be read, or not in time
    | DeadlineGone         // the query's deadline has passed

  /** How a call came out; `Suspended` where its future sits at an await. */
  datatype Returned = Suspended | Block | Failed | Finished

  class BlockStream {
    const guard: PoolGuard
    var done: bool

    /** Until it is done, a stream has a marked connection. Afterwards it may have
        one, whose response is read or which is still marked. */
    ghost predicate Valid()
      reads this, guard
    {
      Present(Slot(guard.conn, Streaming(done))) && Inv(Slot(guard.conn, Streaming(done)))
    }

    constructor (guard: PoolGuard)
      requires guard.conn.Some? && guard.conn.value.inFlight
      ensures Valid() && this.guard == guard && !done
    {
      this.guard, done := guard, false;
    }

    /** `next_block` against any sequence of packets. When the packets run out
        the future is left at an await, and may be dropped there. */
    method NextBlock(packets: seq<Packet>) returns (r: Returned, ghost left: Phase)
      requires Valid()
      modifies this, guard
      ensures r == Suspended ==> Inv(Slot(guard.conn, left)) && guard.conn.Some?
      ensures r != Suspended && (r == Finished && !old(done) && guard.conn.Some? ==> !guard.conn.value.desync) ==> Valid()
      ensures r == Suspended ==> (left == InNext && !done) || (left == Closing && done)
      ensures r != Suspended ==> left == Streaming(done)
      ensures old(done) ==> r == Finished && done && guard.conn == old(guard.conn)
      ensures !old(done) ==> Reached(Slot(old(guard.conn), Streaming(false)), Slot(guard.conn, left))
    {
      hide Step, Reached;
      if done {
        return Finished, Streaming(true);
      }
      StreamSteps(guard.conn);
      guard.StreamMut();
      ghost var entered := Slot(guard.conn, InNext);
      ReachedBy(Slot(guard.conn, Streaming(false)), CallNext, entered);
      for i := 0 to |packets|
        invariant !done && guard.conn == old(guard.conn)
      {
        match packets[i]
        case Rows =>
          Then(Slot(guard.conn, Streaming(false)), entered, NextGivesBlock, Slot(guard.conn, Streaming(false)));
          return Block, Streaming(false);
        case Skipped =>
        case BodyFails =>
          guard.conn := Desync(guard.conn);
          Then(Slot(old(guard.conn), Streaming(false)), entered, NextFailsInBody, Slot(guard.conn, Streaming(false)));
          return Failed, Streaming(false);
        case Terminal =>
          guard.conn := ReadTerminal(guard.conn);
          done := true;
          guard.ClearResponseInFlight();
          Then(Slot(old(guard.conn), Streaming(false)), entered, NextReadsTerminal, Slot(guard.conn, Streaming(true)));
          return Finished, Streaming(true);
        case ReadFails =>
          done := true;
          guard.TakeStream();
          Then(Slot(old(guard.conn), Streaming(false)), entered, NextFailsReading, Slot(guard.conn, Streaming(true)));
          return Failed, Streaming(true);
        case DeadlineGone =>
          done := true;
          var closing := Slot(guard.conn, Closing);
          Then(Slot(old(guard.conn), Streaming(false)), entered, NextHitsDeadline, closing);
          if i + 1 == |packets| {
            return Suspended, Closing;
          }
          guard.TakeStream();
          Then(Slot(old(guard.conn), Streaming(false)), closing, CloseFinishes, Slot(guard.conn, Streaming(true)));
          return Failed, Streaming(true);
      }
      return Suspended, InNext;
    }

    /** `cancel`; `sent` says whether the awaited write came to an end. */
    method Cancel(sent: bool) returns (r: Returned, ghost left: Phase)
      requires Valid()
      modifies this, guard
      ensures r == Suspended ==> Inv(Slot(guard.conn, left)) && guard.conn.Some?
      ensures r != Suspended ==> Valid()
      ensures done && (r == Suspended ==> left == Closing) && (r != Suspended ==> left == Streaming(true))
      ensures old(done) ==> r == Finished && guard.conn == old(guard.conn)
      ensures !old(done) ==> Reached(Slot(old(guard.conn), Streaming(false)), Slot(guard.conn, left))
    {
      if done {
        return Finished, Streaming(true);
      }
      done := true;
      guard.StreamMut();
      ghost var closing := Slot(guard.conn, Closing);
      ReachedBy(Slot(guard.conn, Streaming(false)), CallCancel, closing);
      if !sent {
        return Suspended, Closing;
      }
      guard.TakeStream();
      Then(Slot(old(guard.conn), Streaming(false)), closing, CloseFinishes, Slot(guard.conn, Streaming(true)));
      return Finished, Streaming(true);
    }

    /** A call is abandoned at its await and the stream lives on. Nothing runs; the
        reader may have stopped inside a packet. */
    method Abandon(ghost left: Phase)
      requires (left == InNext && !done) || (left == Closing && done)
      requires Inv(Slot(guard.conn, left)) && guard.conn.Some?
      modifies guard
      ensures Valid()
      ensures Step(Slot(old(guard.conn), left), if done then CloseAbandoned else NextAbandoned)
           == Some(Slot(guard.conn, Streaming(done)))
    {
      if !done {
        guard.conn := Desync(guard.conn);
      }
    }

    /** Dropped between calls or at an await of one. */
    method Drop(ghost left: Phase)
      requires left == Streaming(done) || (left == InNext && !done) || (left == Closing && done)
      modifies guard
      ensures Step(Slot(old(guard.conn), left), Action.Drop) == Some(Slot(guard.conn, Free))
    {
      if !done {
        guard.TakeStream();
      }
      guard.Drop();
    }
  }

  // --------------------------------------------------------------------------
  // InsertSession
  // --------------------------------------------------------------------------

  /** What awaiting a write comes to. */
  datatype Write = Written | Broken | Awaited

  class InsertSession {
    const guard: PoolGuard
    var active: bool

    /** While it exists a session is active and has its connection. */
    ghost predicate Valid()
      reads this, guard
    {
      active && Present(Slot(guard.conn, Inserting)) && Inv(Slot(guard.conn, Inserting))
    }

    /** The hand-off at the end of `begin_insert`: the mark goes, `active` takes
        over. */
    constructor Begin(guard: PoolGuard)
      requires Inv(Slot(guard.conn, Asking)) && guard.conn.Some?
      modifies guard
      ensures Valid() && this.guard == guard
      ensures Step(Slot(old(guard.conn), Asking), HandToSession) == Some(Slot(guard.conn, Inserting))
    {
      this.guard, active := guard, true;
      new;
      guard.FinishResponse(Fine);
    }

    /** `send_data`; `write` is what the awaited write comes to. */
    method SendData(write: Write) returns (r: Returned, ghost left: Phase)
      requires Valid()
      modifies this, guard
      ensures Valid() && left == if r == Suspended then Sending else Inserting
      ensures guard.conn == if r == Failed then Desync(old(guard.conn)) else old(guard.conn)
      ensures Reached(Slot(old(guard.conn), Inserting), Slot(guard.conn, left))
    {
      if !active {
        assert false;
      }
      guard.StreamMut();
      ReachedBy(Slot(guard.conn, Inserting), CallSend, Slot(guard.conn, Sending));
      if write.Awaited? {
        return Suspended, Sending;
      }
      if write.Broken? {
        guard.conn := Desync(guard.conn);
        Then(Slot(old(guard.conn), Inserting), Slot(old(guard.conn), Sending), SendFails, Slot(guard.conn, Inserting));
        return Failed, Inserting;
      }
      Then(Slot(guard.conn, Inserting), Slot(guard.conn, Sending), SendReturns, Slot(guard.conn, Inserting));
      return Finished, Inserting;
    }

    /** A call is abandoned at its await and the session lives on. Nothing runs; the
        writer may have stopped inside a packet. */
    method Abandon()
      requires Valid()
      modifies guard
      ensures Valid()
      ensures Step(Slot(old(guard.conn), Sending), SendAbandoned) == Some(Slot(guard.conn, Inserting))
    {
      guard.conn := Desync(guard.conn);
    }

    /** `end` takes the session with it: what is left at its end is a free slot.
        `read` says whether the response was read to its end. */
    method End(o: Outcome, read: bool)
      requires Valid()
      modifies this, guard
      ensures Reached(Slot(old(guard.conn), Inserting), Slot(guard.conn, Free))
    {
      hide Step, Reached;
      SessionSteps(guard.conn, o, read);
      guard.StreamMut();
      ghost var ending := Slot(guard.conn, Ending);
      ReachedBy(Slot(guard.conn, Inserting), CallEnd, ending);
      if read {
        guard.conn := ReadTerminal(guard.conn);
      }
      if o == Fine {
        active := false;
      }
      guard.FinishResponse(o);
      if active {
        guard.TakeStream();
      }
      guard.Drop();
      Then(Slot(old(guard.conn), Inserting), ending, EndReturns(o, read), Slot(guard.conn, Free));
    }

    /** Dropped between calls or at an await of one. */
    method Drop(ghost left: Phase)
      requires active && (left == Inserting || left == Sending || left == Ending)
      modifies guard
      ensures Step(Slot(old(guard.conn), left), Action.Drop) == Some(Slot(guard.conn, Free))
    {
      if active {
        guard.TakeStream();
      }
      guard.Drop();
    }
  }

  // --------------------------------------------------------------------------
  // Steps in a row
  // --------------------------------------------------------------------------

  lemma StreamSteps(c: Option<Conn>)
    ensures Step(Slot(c, Streaming(false)), CallNext) == Some(Slot(c, InNext))
    ensures Step(Slot(c, InNext), NextGivesBlock) == Some(Slot(c, Streaming(false)))
    ensures Step(Slot(c, InNext), NextFailsInBody) == Some(Slot(Desync(c), Streaming(false)))
    ensures Step(Slot(c, InNext), NextReadsTerminal) == Some(Slot(Clear(ReadTerminal(c)), Streaming(true)))
    ensures Step(Slot(c, InNext), NextFailsReading) == Some(Slot(None, Streaming(true)))
    ensures Step(Slot(c, InNext), NextHitsDeadline) == Some(Slot(c, Closing))
    ensures Step(Slot(c, Closing), CloseFinishes) == Some(Slot(None, Streaming(true)))
  {
    hide Step;
    StreamGoesOn(c);
    StreamEnds(c);
  }

  lemma StreamGoesOn(c: Option<Conn>)
    ensures Step(Slot(c, Streaming(false)), CallNext) == Some(Slot(c, InNext))
    ensures Step(Slot(c, InNext), NextGivesBlock) == Some(Slot(c, Streaming(false)))
    ensures Step(Slot(c, InNext), NextFailsInBody) == Some(Slot(Desync(c), Streaming(false)))
  {
    hide Desync;
  }

  lemma StreamEnds(c: Option<Conn>)
    ensures Step(Slot(c, InNext), NextReadsTerminal) == Some(Slot(Clear(ReadTerminal(c)), Streaming(true)))
    ensures Step(Slot(c, InNext), NextFailsReading) == Some(Slot(None, Streaming(true)))
    ensures Step(Slot(c, InNext), NextHitsDeadline) == Some(Slot(c, Closing))
    ensures Step(Slot(c, Closing), CloseFinishes) == Some(Slot(None, Streaming(true)))
  {
    hide Clear, ReadTerminal;
  }

  lemma SessionSteps(c: Option<Conn>, o: Outcome, read: bool)
    ensures Step(Slot(c, Inserting), CallEnd) == Some(Slot(c, Ending))
    ensures var d := Finish(if read then ReadTerminal(c) else c, o);
            Step(Slot(c, Ending), EndReturns(o, read)) == Some(Slot(SessionDrop(d, !o.Fine?), Free))
  {
  }

  /** Steps of module Pool lead from `s` to `t`. */
  ghost predicate Reached(s: Slot, t: Slot)
  {
    exists slots, actions :: Path(slots, actions) && slots[0] == s && slots[|actions|] == t
  }

  lemma ReachedBy(s: Slot, a: Action, t: Slot)
    requires Step(s, a) == Some(t)
    ensures Reached(s, t)
  {
    assert Path([s, t], [a]);
  }

  lemma Then(s: Slot, t: Slot, a: Action, u: Slot)
    requires Reached(s, t) && Step(t, a) == Some(u)
    ensures Reached(s, u)
  {
    hide Step;
    var slots, actions :| Path(slots, actions) && slots[0] == s && slots[|actions|] == t;
    assert Path(slots + [u], actions + [a]);
  }
}
