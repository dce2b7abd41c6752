/** Who owns a pooled connection, and when it may go back to its slot
    (`src/pool.rs`, `src/connection/block_stream.rs`,
    `src/connection/insert_session.rs`, `src/connection/batch.rs`): a state
    machine over the steps between two awaits. At each await the call may be
    abandoned, with its holder or leaving the holder behind. */
module Pool {
  import opened Bytes

  /** A connection. `inFlight` is the mark the code keeps. The code does not see
      the other two: `pending` says that the server still owes, or awaits, part
      of a conversation, and `desync` that a reader or a writer may have stopped
      inside a packet. */
  datatype Conn = Conn(inFlight: bool, pending: bool, desync: bool)

  const FRESH := Conn(false, false, false)

  /** Who holds the slot's lock.
      - `Held`: a guard, no request made yet
      - `Over`: a guard whose one request is finished or handed away
      - `Asking`: a future that marked the connection and is writing its request
        or awaiting the response
      - `Streaming(done)`: a BlockStream between calls
      - `InNext`: a BlockStream inside `next_block`
      - `Closing`: a BlockStream that has set `done` and awaits a cancellation
      - `Inserting`: an InsertSession between calls
      - `Sending`, `Ending`: an InsertSession inside `send_data` or `end` */
  datatype Phase = Free | Held | Over | Asking | Streaming(done: bool) | InNext | Closing | Inserting | Sending | Ending

  datatype Slot = Slot(conn: Option<Conn>, phase: Phase)

  // --------------------------------------------------------------------------
  // The guard
  // --------------------------------------------------------------------------

  /** What a finished call reports about the connection. */
  datatype Outcome = Fine | NonFatal | Fatal

  function Mark(c: Option<Conn>): (d: Option<Conn>)
  {
    if c.Some? then Some(c.value.(inFlight := true)) else None
  }

  function Clear(c: Option<Conn>): (d: Option<Conn>)
  {
    if c.Some? then Some(c.value.(inFlight := false)) else None
  }

  /** `finish_response`. */
  function Finish(c: Option<Conn>, o: Outcome): (d: Option<Conn>)
  {
    if o.Fatal? then None else Clear(c)
  }

  /** `PoolGuard::drop`. */
  function GuardDrop(c: Option<Conn>): (d: Option<Conn>)
  {
    if c.Some? && c.value.inFlight then None else c
  }

  /** `BlockStream::drop`, then its guard. */
  function StreamDrop(c: Option<Conn>, done: bool): (d: Option<Conn>)
  {
    GuardDrop(if done then c else None)
  }

  /** `InsertSession::drop`, then its guard. */
  function SessionDrop(c: Option<Conn>, active: bool): (d: Option<Conn>)
  {
    GuardDrop(if active then None else c)
  }

  function Pending(c: Option<Conn>, pending: bool): (d: Option<Conn>)
  {
    if c.Some? then Some(c.value.(pending := pending)) else None
  }

  function Desync(c: Option<Conn>): (d: Option<Conn>)
  {
    if c.Some? then Some(c.value.(desync := true)) else None
  }

  /** Reading a terminal packet ends the conversation, unless the two ends are out
      of step and what was read only looked like one. */
  function ReadTerminal(c: Option<Conn>): (d: Option<Conn>)
  {
    if c.Some? && !c.value.desync then Pending(c, false) else c
  }

  // --------------------------------------------------------------------------
  // Steps
  // --------------------------------------------------------------------------

  datatype Action =
    | Reuse                          // get: lock, the connection is kept
    | Connect                        // get: lock, a new connection
    | ConnectFails                   // get: an error leaves the slot empty
    | StartRequest                   // mark_response_in_flight
    | WriteRequest                   // a packet that calls for a response
    | FinishRequest(outcome: Outcome, read: bool) // finish_response; was the response read to its end?
    | HandToBatch                    // clear the mark, take the stream
    | HandToStream                   // begin_select returns its BlockStream
    | HandToSession                  // begin_insert returns its InsertSession
    | CallNext                       // next_block
    | NextGivesBlock
    | NextFailsInBody                // a `?` inside a packet
    | NextReadsTerminal              // EndOfStream or a server exception
    | NextFailsReading               // read error or receive timeout
    | NextHitsDeadline               // done is set, the drain is awaited
    | NextAbandoned                  // the future of next_block goes, the stream stays
    | CallCancel                     // done is set, the write is awaited
    | CloseFinishes
    | CloseAbandoned                 // the awaiting future goes, the stream stays
    | CallSend
    | SendReturns
    | SendFails                      // a write error inside the packet
    | SendAbandoned                  // the future of send_data goes, the session stays
    | CallEnd
    | EndReturns(outcome: Outcome, read: bool)
    | Drop                           // the guard or what holds it goes, at an await or between calls

  /** The slot after a step that is possible in it. */
  function Step(s: Slot, a: Action): (r: Option<Slot>)
  {
    var c := s.conn;
    match a
    case Reuse => if s.phase.Free? && c.Some? then Some(Slot(c, Held)) else None
    case Connect => if s.phase.Free? then Some(Slot(Some(FRESH), Held)) else None
    case ConnectFails => if s.phase.Free? then Some(Slot(None, Free)) else None
    case StartRequest => if s.phase.Held? then Some(Slot(Mark(c), Asking)) else None
    case WriteRequest => if s.phase.Asking? then Some(Slot(Pending(c, true), Asking)) else None
    case FinishRequest(o, read) =>
      if s.phase.Asking? then Some(Slot(Finish(if read then ReadTerminal(c) else c, o), Over)) else None
    case HandToBatch => if s.phase.Asking? then Some(Slot(None, Over)) else None
    case HandToStream => if s.phase.Asking? then Some(Slot(c, Streaming(false))) else None
    case HandToSession => if s.phase.Asking? then Some(Slot(Finish(c, Fine), Inserting)) else None
    case CallNext => if s.phase == Streaming(false) then Some(Slot(c, InNext)) else None
    case NextGivesBlock => if s.phase.InNext? then Some(Slot(c, Streaming(false))) else None
    case NextFailsInBody => if s.phase.InNext? then Some(Slot(Desync(c), Streaming(false))) else None
    case NextReadsTerminal => if s.phase.InNext? then Some(Slot(Clear(ReadTerminal(c)), Streaming(true))) else None
    case NextFailsReading => if s.phase.InNext? then Some(Slot(None, Streaming(true))) else None
    case NextHitsDeadline => if s.phase.InNext? then Some(Slot(c, Closing)) else None
    case NextAbandoned => if s.phase.InNext? then Some(Slot(Desync(c), Streaming(false))) else None
    case CallCancel => if s.phase == Streaming(false) then Some(Slot(c, Closing)) else None
    case CloseFinishes => if s.phase.Closing? then Some(Slot(None, Streaming(true))) else None
    case CloseAbandoned => if s.phase.Closing? then Some(Slot(c, Streaming(true))) else None
    case CallSend => if s.phase.Inserting? then Some(Slot(c, Sending)) else None
    case SendReturns => if s.phase.Sending? then Some(Slot(c, Inserting)) else None
    case SendFails | SendAbandoned => if s.phase.Sending? then Some(Slot(Desync(c), Inserting)) else None
    case CallEnd => if s.phase.Inserting? then Some(Slot(c, Ending)) else None
    case EndReturns(o, read) =>
      if s.phase.Ending? then
        var d := Finish(if read then ReadTerminal(c) else c, o);
        Some(Slot(SessionDrop(d, !o.Fine?), Free))
      else None
    case Drop => DropStep(s)
  }

  function DropStep(s: Slot): (r: Option<Slot>)
  {
    var c := s.conn;
    match s.phase
    case Free => None
    case Held | Over | Asking => Some(Slot(GuardDrop(c), Free))
    case Streaming(done) => Some(Slot(StreamDrop(c, done), Free))
    case InNext => Some(Slot(StreamDrop(c, false), Free))
    case Closing => Some(Slot(StreamDrop(c, true), Free))
    case Inserting | Sending | Ending => Some(Slot(SessionDrop(c, true), Free))
  }

  /** The step calls `stream_mut`, which aborts the process on an empty slot. */
  predicate UsesStream(a: Action)
  {
    a.WriteRequest? || a.CallNext? || a.CallCancel? || a.CallSend? || a.CallEnd?
  }

  /** The step ends a request without a fatal error, or an INSERT with success,
      and keeps the connection. */
  predicate EndsKeeping(s: Slot, a: Action)
  {
    || (s.phase.Asking? && a.FinishRequest? && !a.outcome.Fatal?)
    || (s.phase.Ending? && a.EndReturns? && a.outcome.Fine?)
  }

  /** It does so without the response having been read. */
  predicate LeavesUnread(s: Slot, a: Action)
  {
    s.conn.Some? && s.conn.value.pending && EndsKeeping(s, a) && !a.read
  }

  /** The step takes bytes inside a packet for a terminal packet. */
  predicate Misreads(s: Slot, a: Action)
  {
    && s.conn.Some? && s.conn.value.desync && s.conn.value.pending
    && ((a.NextReadsTerminal? && s.phase.InNext?) || (EndsKeeping(s, a) && a.read))
  }

  // --------------------------------------------------------------------------
  // One slot
  // --------------------------------------------------------------------------

  /** An unlocked slot holds no connection with part of a conversation left. */
  predicate Safe(s: Slot)
  {
    s.phase.Free? && s.conn.Some? ==> !s.conn.value.pending
  }

  /** What every holder keeps: either the conversation is over, or a drop will
      discard the connection. */
  predicate Inv(s: Slot)
  {
    s.conn.Some? ==>
      match s.phase
      case Free | Held | Over => !s.conn.value.inFlight && !s.conn.value.pending
      case Streaming(done) => s.conn.value.inFlight || (done && !s.conn.value.pending)
      case Asking | InNext | Closing => s.conn.value.inFlight
      case Inserting | Sending | Ending => !s.conn.value.inFlight
  }

  /** A holder that may still use the stream has one. */
  predicate Present(s: Slot)
  {
    s.phase.Free? || s.phase.Over? || s.phase == Streaming(true) || s.conn.Some?
  }

  /** The exact condition: a step keeps the invariant unless it leaves a response
      unread behind a kept connection or misreads its end. */
  lemma StepKeepsInv(s: Slot, a: Action)
    requires Inv(s) && Step(s, a).Some?
    ensures Inv(Step(s, a).value) <==> !LeavesUnread(s, a) && !Misreads(s, a)
  {
  }

  /** Whatever happens, a step that needs the stream finds one, and the next one
      will too. */
  lemma StepKeepsPresent(s: Slot, a: Action)
    requires Present(s) && Step(s, a).Some?
    ensures Present(Step(s, a).value) && (UsesStream(a) ==> s.conn.Some?)
  {
  }

  // --------------------------------------------------------------------------
  // Whole runs over all slots
  // --------------------------------------------------------------------------

  /** The documented contract of `finish_response`: a request that ends without
      a fatal error has been read to its end. */
  predicate KeepsContract(a: Action)
  {
    a.FinishRequest? || a.EndReturns? ==> a.outcome.Fatal? || a.read
  }

  /** The client does not go on reading or writing behind a call that failed or
      was abandoned inside a packet. */
  predicate StopsWhenLost(s: Slot, a: Action)
  {
    a.CallNext? || a.CallSend? || a.CallEnd? ==> s.conn.Some? && !s.conn.value.desync
  }

  /** Any step of any slot at any time. */
  type Run = seq<(nat, Action)>

  /** The pool after a run, if every step was possible. */
  function Exec(pool: seq<Slot>, run: Run): (r: Option<seq<Slot>>)
    ensures r.Some? ==> |r.value| == |pool|
  {
    if run == [] then Some(pool)
    else
      var last := |run| - 1;
      match Exec(pool, run[..last])
      case None => None
      case Some(now) =>
        var (i, a) := run[last];
        if i >= |now| then None
        else
          match Step(now[i], a)
          case None => None
          case Some(t) => Some(now[i := t])
  }

  /** Every step of the run keeps the two hypotheses. */
  ghost predicate Disciplined(pool: seq<Slot>, run: Run)
  {
    forall k :: 0 <= k < |run| ==> DisciplinedAt(pool, run, k)
  }

  ghost predicate DisciplinedAt(pool: seq<Slot>, run: Run, k: nat)
    requires k < |run|
  {
    var now := Exec(pool, run[..k]);
    && KeepsContract(run[k].1)
    && (now.Some? && run[k].0 < |now.value| ==> StopsWhenLost(now.value[run[k].0], run[k].1))
  }

  predicate Empty(pool: seq<Slot>)
  {
    forall i :: 0 <= i < |pool| ==> pool[i] == Slot(None, Free)
  }

  /** The invariant of disciplined runs: in addition, a connection that is out of
      step rests with a holder that will discard it. */
  predicate Sound(s: Slot)
  {
    Inv(s) && LostIsHeld(s)
  }

  predicate LostIsHeld(s: Slot)
  {
    s.conn.Some? && s.conn.value.desync ==>
      || s.phase == Streaming(false) || s.phase.Closing? || s.phase.Inserting?
      || (s.phase == Streaming(true) && s.conn.value.inFlight)
  }

  lemma StepKeepsSound(s: Slot, a: Action)
    requires Sound(s) && Present(s) && Step(s, a).Some? && KeepsContract(a) && StopsWhenLost(s, a)
    ensures Sound(Step(s, a).value)
  {
    hide Inv;
    StepKeepsInv(s, a);
    SoundIsClean(s, a);
    StepKeepsLost(s, a);
  }

  /** A disciplined step leaves nothing unread and misreads nothing. */
  lemma SoundIsClean(s: Slot, a: Action)
    requires Sound(s) && KeepsContract(a)
    ensures !LeavesUnread(s, a) && !Misreads(s, a)
  {
    hide Inv;
  }

  lemma StepKeepsLost(s: Slot, a: Action)
    requires Sound(s) && Step(s, a).Some? && StopsWhenLost(s, a)
    ensures LostIsHeld(Step(s, a).value)
  {
  }

  /** Over every disciplined run of every pool, at every moment, no unlocked slot
      holds a connection with an unread response. */
  lemma {:induction false} PoolSafety(pool: seq<Slot>, run: Run)
    requires Empty(pool) && Disciplined(pool, run) && Exec(pool, run).Some?
    ensures forall i :: 0 <= i < |pool| ==> Sound(Exec(pool, run).value[i]) && Safe(Exec(pool, run).value[i])
    decreases |run|
  {
    if run != [] {
      var last := |run| - 1;
      var front := run[..last];
      DisciplinedFront(pool, run);
      PoolSafety(pool, front);
      AbortFreedom(pool, front);
      var now := Exec(pool, front).value;
      var (i, a) := run[last];
      assert DisciplinedAt(pool, run, last);
      StepKeepsSound(now[i], a);
    }
  }

  lemma DisciplinedFront(pool: seq<Slot>, run: Run)
    requires run != [] && Disciplined(pool, run)
    ensures Disciplined(pool, run[..|run| - 1])
  {
    var front := run[..|run| - 1];
    forall k | 0 <= k < |front|
      ensures DisciplinedAt(pool, front, k)
    {
      assert DisciplinedAt(pool, run, k) && front[..k] == run[..k];
    }
  }

  /** Over every run at all, `stream_mut` never meets an empty slot. */
  lemma {:induction false} AbortFreedom(pool: seq<Slot>, run: Run)
    requires Empty(pool) && Exec(pool, run).Some?
    ensures forall i :: 0 <= i < |pool| ==> Present(Exec(pool, run).value[i])
    ensures forall i, a :: 0 <= i < |pool| && UsesStream(a) && Step(Exec(pool, run).value[i], a).Some? ==>
              Exec(pool, run).value[i].conn.Some?
    decreases |run|
  {
    if run != [] {
      var last := |run| - 1;
      AbortFreedom(pool, run[..last]);
      var (i, a) := run[last];
      StepKeepsPresent(Exec(pool, run[..last]).value[i], a);
    }
    var now := Exec(pool, run).value;
    forall i, a | 0 <= i < |pool| && UsesStream(a) && Step(now[i], a).Some?
      ensures now[i].conn.Some?
    {
      StepKeepsPresent(now[i], a);
    }
  }

  /** Every slot keeps the invariant after the first `k` steps. */
  ghost predicate InvAfter(pool: seq<Slot>, run: Run, k: nat)
    requires k <= |run|
  {
    var now := Exec(pool, run[..k]);
    now.Some? ==> forall i :: 0 <= i < |pool| ==> Inv(now.value[i])
  }

  /** Step `k` neither leaves a response unread behind a kept connection nor
      misreads its end. */
  ghost predicate CleanStep(pool: seq<Slot>, run: Run, k: nat)
    requires k < |run|
  {
    var now, (i, a) := Exec(pool, run[..k]), run[k];
    now.Some? && i < |pool| ==> !LeavesUnread(now.value[i], a) && !Misreads(now.value[i], a)
  }

  /** A run keeps the invariant at every moment exactly when every step is clean. */
  lemma {:induction false} RunKeepsInv(pool: seq<Slot>, run: Run)
    requires Empty(pool) && Exec(pool, run).Some?
    ensures (forall k :: 0 <= k <= |run| ==> InvAfter(pool, run, k))
       <==> (forall k :: 0 <= k < |run| ==> CleanStep(pool, run, k))
    decreases |run|
  {
    if run == [] {
      assert InvAfter(pool, run, 0);
    } else {
      var last := |run| - 1;
      var front := run[..last];
      RunKeepsInv(pool, front);
      forall k | 0 <= k <= last
        ensures InvAfter(pool, run, k) == InvAfter(pool, front, k)
        ensures k < last ==> CleanStep(pool, run, k) == CleanStep(pool, front, k)
      {
        assert run[..k] == front[..k];
      }
      assert front[..last] == front;
      if InvAfter(pool, front, last) {
        LastStep(pool, run);
      }
      assert InvAfter(pool, run, last) == InvAfter(pool, front, last);
    }
  }

  lemma LastStep(pool: seq<Slot>, run: Run)
    requires run != [] && Exec(pool, run).Some? && InvAfter(pool, run, |run| - 1)
    ensures InvAfter(pool, run, |run|) <==> CleanStep(pool, run, |run| - 1)
  {
    hide Inv, Step, LeavesUnread, Misreads;
    var last := |run| - 1;
    assert run[..|run|] == run;
    var now := Exec(pool, run[..last]).value;
    var (i, a) := run[last];
    var after := Exec(pool, run).value;
    assert after == now[i := Step(now[i], a).value];
    StepKeepsInv(now[i], a);
    if Inv(after[i]) {
      assert forall j :: 0 <= j < |pool| ==> Inv(after[j]);
    }
  }

  // --------------------------------------------------------------------------
  // Both hypotheses are needed, and good runs keep their connection
  // --------------------------------------------------------------------------

  /** The slots that a sequence of steps goes through. */
  predicate Path(slots: seq<Slot>, actions: seq<Action>)
  {
    && |slots| == |actions| + 1
    && forall k :: 0 <= k < |actions| ==> Step(slots[k], actions[k]) == Some(slots[k + 1])
  }

  /** Reading on behind an error inside a packet can unlock a slot with an unread
      response: bytes of the packet pass for EndOfStream. */
  lemma ReadingOnIsUnsafe() returns (slots: seq<Slot>, actions: seq<Action>)
    ensures Path(slots, actions) && slots[0] == Slot(None, Free) && !Safe(slots[|actions|])
    ensures forall k :: 0 <= k < |actions| ==> KeepsContract(actions[k])
  {
    var asked, lost := Some(Conn(true, true, false)), Some(Conn(true, true, true));
    actions := [Connect, StartRequest, WriteRequest, HandToStream,
                CallNext, NextFailsInBody, CallNext, NextReadsTerminal, Drop];
    slots := [Slot(None, Free), Slot(Some(FRESH), Held), Slot(Some(Conn(true, false, false)), Asking),
              Slot(asked, Asking), Slot(asked, Streaming(false)), Slot(asked, InNext),
              Slot(lost, Streaming(false)), Slot(lost, InNext),
              Slot(Some(Conn(false, true, true)), Streaming(true)), Slot(Some(Conn(false, true, true)), Free)];
  }

  /** So can reading on where a call of `next_block` was abandoned. No call
      failed. */
  lemma AbandonedReadIsUnsafe() returns (slots: seq<Slot>, actions: seq<Action>)
    ensures Path(slots, actions) && slots[0] == Slot(None, Free) && !Safe(slots[|actions|])
    ensures forall k :: 0 <= k < |actions| ==> KeepsContract(actions[k]) && !Fails(actions[k])
  {
    var asked, lost := Some(Conn(true, true, false)), Some(Conn(true, true, true));
    actions := [Connect, StartRequest, WriteRequest, HandToStream,
                CallNext, NextAbandoned, CallNext, NextReadsTerminal, Drop];
    slots := [Slot(None, Free), Slot(Some(FRESH), Held), Slot(Some(Conn(true, false, false)), Asking),
              Slot(asked, Asking), Slot(asked, Streaming(false)), Slot(asked, InNext),
              Slot(lost, Streaming(false)), Slot(lost, InNext),
              Slot(Some(Conn(false, true, true)), Streaming(true)), Slot(Some(Conn(false, true, true)), Free)];
  }

  /** So can ending an INSERT behind an abandoned `send_data`. */
  lemma AbandonedSendIsUnsafe() returns (slots: seq<Slot>, actions: seq<Action>)
    ensures Path(slots, actions) && slots[0] == Slot(None, Free) && !Safe(slots[|actions|])
    ensures forall k :: 0 <= k < |actions| ==> KeepsContract(actions[k]) && !Fails(actions[k])
  {
    var sent, lost := Some(Conn(false, true, false)), Some(Conn(false, true, true));
    actions := [Connect, StartRequest, WriteRequest, HandToSession, CallSend, SendAbandoned, CallEnd, EndReturns(Fine, true)];
    slots := [Slot(None, Free), Slot(Some(FRESH), Held), Slot(Some(Conn(true, false, false)), Asking),
              Slot(Some(Conn(true, true, false)), Asking), Slot(sent, Inserting), Slot(sent, Sending),
              Slot(lost, Inserting), Slot(lost, Ending), Slot(lost, Free)];
  }

  /** The step reports an error to its caller. */
  predicate Fails(a: Action)
  {
    || a.ConnectFails? || a.NextFailsInBody? || a.NextFailsReading? || a.NextHitsDeadline? || a.SendFails?
    || ((a.FinishRequest? || a.EndReturns?) && !a.outcome.Fine?)
  }

  /** An abandoned cancellation is harmless: its connection is still marked, and
      goes with the stream. */
  lemma AbandonedCancelIsSafe(s: Slot, t: Slot)
    requires Inv(s) && s.phase.Closing? && Step(s, CloseAbandoned) == Some(t)
    ensures Inv(t) && t.conn == s.conn && Step(t, Drop) == Some(Slot(None, Free))
  {
  }

  /** A request that ends early with an error that is not fatal does too. */
  lemma BrokenContractIsUnsafe() returns (slots: seq<Slot>, actions: seq<Action>)
    ensures Path(slots, actions) && slots[0] == Slot(None, Free) && !Safe(slots[|actions|])
    ensures forall k :: 0 <= k < |actions| ==> !actions[k].CallNext?
  {
    actions := [Connect, StartRequest, WriteRequest, FinishRequest(NonFatal, false), Drop];
    slots := [Slot(None, Free), Slot(Some(FRESH), Held), Slot(Some(Conn(true, false, false)), Asking),
              Slot(Some(Conn(true, true, false)), Asking), Slot(Some(Conn(false, true, false)), Over),
              Slot(Some(Conn(false, true, false)), Free)];
  }

  /** A stream read to its end in step gives its connection back, whatever was
      read before. */
  lemma CleanStreamIsReused(s: Slot, t: Slot)
    requires s.phase.InNext? && s.conn.Some? && !s.conn.value.desync
    requires Step(s, NextReadsTerminal) == Some(t)
    ensures Step(t, Drop) == Some(Slot(Some(FRESH), Free))
  {
  }
}
