/** Every run of fibers over channels: what no step loses, reorders or forgets. */
module FiberRuns {
  import opened FiberSpec
  import opened FiberInv
  import opened FiberMoves
  import opened FiberHistory

  /** What the running code, or the program outside every fiber, may do next. */
  datatype Op =
    | SendTo(chan: Cid, value: nat, mayPark: bool)
    | ReceiveFrom(chan: Cid, mayPark: bool)
    | CloseChannel(chan: Cid)
    | Schedule
    | FinishCurrent(ok: bool)
    | SpawnFiber(fiber: Fid)
    | NewChannel(chan: Cid, capacity: nat, rendezvous: bool)

  predicate Enabled(s: State, op: Op) {
    match op
    case SendTo(c, _, _) => c in s.chans
    case ReceiveFrom(c, _) => c in s.chans
    case CloseChannel(c) => c in s.chans
    case Schedule => true
    case FinishCurrent(_) => s.stack != []
    case SpawnFiber(f) => f !in s.fibers && f != MAIN
    case NewChannel(c, _, _) => c !in s.chans
  }

  lemma CurrentIsKnown(s: State)
    requires Inv(s)
    ensures Current(s) in s.sent && Outstanding(s, Current(s)) == 0
    ensures s.stack != [] ==> Current(s) in s.fibers && s.fibers[Current(s)].state.Running?
    ensures s.ready != [] ==> s.ready[0] in s.fibers && s.fibers[s.ready[0]].state.Ready?
    ensures s.ready != [] && s.fibers[s.ready[0]].suspended ==> s.fibers[s.ready[0]].waitingOn in s.chans
  {
    if s.stack != [] {
      assert Current(s) in s.stack;
    }
    if s.ready != [] {
      assert s.ready[0] in s.ready;
    }
  }

  ghost function Step(s: State, op: Op): State
    requires Inv(s) && Enabled(s, op)
  {
    CurrentIsKnown(s);
    match op
    case SendTo(c, v, mayPark) => Send(s, c, v, mayPark).0
    case ReceiveFrom(c, mayPark) => Recv(s, c, mayPark).0
    case CloseChannel(c) => Close(s, c)
    case Schedule => RunNext(s)
    case FinishCurrent(ok) => Finish(s, ok)
    case SpawnFiber(f) => Spawn(s, f).0
    case NewChannel(c, capacity, rendezvous) => MakeChannel(s, c, capacity, rendezvous)
  }

  /** A woken fiber's channel wakes more fibers than the queue has room for, or
      the fiber goes back to a list that is full. */
  predicate ResumeOverflows(s: State)
    requires s.ready != [] && s.ready[0] in s.fibers
  {
    var fb := s.fibers[s.ready[0]];
    fb.suspended && fb.waitingOn in s.chans &&
    var ch := s.chans[fb.waitingOn];
    if fb.park.OnRecv? then
      if ch.buffer != [] then WakeOverflows(Taken(s), ch.send) else !ch.closed && |ch.recv| >= WAITER_MAX
    else
      !ch.closed && if CanSend(ch) then WakeOverflows(Taken(s), ch.recv) else |ch.send| >= WAITER_MAX
  }

  /** The step wakes more fibers than the ready queue has room for, or parks a
      fiber again on a full waiter list. */
  predicate Overflows(s: State, op: Op)
    requires Enabled(s, op) && (s.ready != [] ==> s.ready[0] in s.fibers)
  {
    match op
    case SendTo(c, v, _) => v != EOF_VALUE && CanSend(s.chans[c]) && WakeOverflows(s, s.chans[c].recv)
    case ReceiveFrom(c, _) => s.chans[c].buffer != [] && WakeOverflows(s, s.chans[c].send)
    case CloseChannel(c) => !s.chans[c].closed && WakeOverflows(s, s.chans[c].recv + s.chans[c].send)
    case Schedule => s.ready != [] && ResumeOverflows(s)
    case _ => false
  }

  // ---- one step -----------------------------------------------------------

  lemma RefuseIsAccounted(s: State, c: Cid, m: Msg)
    requires Inv(s) && c in s.chans && m.sender == Current(s) && Current(s) in s.sent && m.number == s.sent[Current(s)]
    ensures Inv(CountSend(Refuse(s, m), Current(s)))
  {
    CurrentIsKnown(s);
    var t := CountSend(Refuse(s, m), Current(s));
    AlikeKeepsCore(s, t, {});
    RefuseKeepsFifo(s, t, m);
    forall f <- s.sent ensures Holds(t, f) && (f != m.sender ==> Over(t, f) == Over(s, f)) {
      assert AccountOf(s, f);
    }
    OneMoreIsAccounted(s, t, Refused(m));
  }

  /** Everything but scheduling is in order. */
  ghost predicate BooksOk(s: State) {
    ChansOk(s) && Fifo(s) && Accounted(s)
  }

  lemma PushingSendBooks(s: State, c: Cid, m: Msg)
    requires Inv(s) && c in s.chans && CanSend(s.chans[c])
    requires m.sender == Current(s) && m.sender in s.sent && m.number == s.sent[m.sender]
    ensures BooksOk(PushMsg(CountSend(s, m.sender), c, m))
  {
    hide Core, NumbersOf, PushedOn, PushMsg;
    CurrentIsKnown(s);
    var f := Current(s);
    var u := CountSend(s, f);
    var t := PushMsg(u, c, m);
    PushBooks(u, c, m);
    PushKeepsFifo(s, t, c, m);
    PushKeepsChans(s, t, c, m);
    forall g <- s.sent ensures Holds(t, g) && Over(t, g) == if g == f then Over(s, f) + 1 else Over(s, g) {
      assert AccountOf(s, g);
    }
    OneMoreIsAccounted(s, t, Pushed(c, m));
  }

  lemma PushingSendIff(s: State, c: Cid, v: nat, mayPark: bool)
    requires Inv(s) && c in s.chans && v != EOF_VALUE && CanSend(s.chans[c])
    ensures Inv(Step(s, SendTo(c, v, mayPark))) <==> !WakeOverflows(s, s.chans[c].recv)
  {
    hide Core, ChansOk, Fifo, Accounted, PushMsg;
    CurrentIsKnown(s);
    var f := Current(s);
    var m := Msg(f, s.sent[f], v);
    var u := CountSend(s, f);
    AlikeKeepsCore(s, u, {});
    PushKeepsCoreIff(u, {}, c, m);
    PushingSendBooks(s, c, m);
  }

  lemma ParkingSendBooks(s: State, t: State, f: Fid, m: Msg, over: bool)
    requires Inv(s) && f in s.fibers && f in s.sent && Outstanding(s, f) == 0 && m.sender == f && m.number == s.sent[f]
    requires t.sent == s.sent[f := s.sent[f] + 1]
    requires f in t.fibers && t.fibers == s.fibers[f := t.fibers[f]] && t.fibers[f].payload == m
    requires t.fibers[f].park == if over then s.fibers[f].park else OnSend
    requires t.log == if over then s.log + [Refused(m)] else s.log
    ensures Accounted(t)
  {
    hide Core, ChansOk, Fifo, NumbersOf;
    forall g <- s.sent
      ensures Holds(t, g)
      ensures Over(t, g) == if g == f && over then Over(s, g) + 1 else Over(s, g)
    {
      assert AccountOf(s, g);
    }
    if over {
      OneMoreIsAccounted(s, t, Refused(m));
    } else {
      NoMoreIsAccounted(s, t);
    }
  }

  lemma ParkingSendKeepsInv(s: State, c: Cid, v: nat)
    requires Inv(s) && c in s.chans && v != EOF_VALUE && !s.chans[c].closed && !CanSend(s.chans[c]) && s.stack != []
    ensures Inv(Step(s, SendTo(c, v, true)))
  {
    hide Core, ChansOk, Fifo, Accounted;
    CurrentIsKnown(s);
    var f := Current(s);
    var m := Msg(f, s.sent[f], v);
    var u := CountSend(s, f).(fibers := s.fibers[f := s.fibers[f].(payload := m)]);
    AlikeKeepsCore(s, u, {});
    var t := Step(s, SendTo(c, v, true));
    if |s.chans[c].send| >= WAITER_MAX {
      AlikeKeepsCore(u, t, {});
      RefuseKeepsFifo(s, t, m);
      ParkingSendBooks(s, t, f, m, true);
      SameChansOk(s, t);
    } else {
      ParkKeepsScheduled(u, c, OnSend);
      ParkKeepsListed(u, c, OnSend);
      CoreOf(t);
      JoinKeepsChans(s, t, c, OnSend, f);
      ParkingSendBooks(s, t, f, m, false);
    }
  }

  lemma SameChansOk(s: State, t: State)
    requires ChansOk(s) && t.chans == s.chans
    ensures ChansOk(t)
  {
  }

  lemma CoreOf(s: State)
    requires Scheduled(s, {}) && SnapshotsOk(s, {}) && Listed(s)
    ensures Core(s, {})
  {
  }

  lemma ReceivingIff(s: State, c: Cid, mayPark: bool)
    requires Inv(s) && c in s.chans && s.chans[c].buffer != []
    ensures Inv(Step(s, ReceiveFrom(c, mayPark))) <==> !WakeOverflows(s, s.chans[c].send)
  {
    CurrentIsKnown(s);
    hide PopMsg, AccountOf, Core;
    var t := PopMsg(s, c);
    PopKeepsCoreIff(s, {}, c);
    PopBooks(s, c);
    PopKeepsFifo(s, t, c);
    PopKeepsChans(s, t, c);
    SameBooksAreAccounted(s, t);
  }

  lemma ParkingReceiveKeepsInv(s: State, c: Cid)
    requires Inv(s) && c in s.chans && s.chans[c].buffer == [] && !s.chans[c].closed && s.stack != []
    requires |s.chans[c].recv| < WAITER_MAX
    ensures Inv(ParkCurrent(s, c, OnRecv))
  {
    CurrentIsKnown(s);
    hide Accounted, Scheduled, SnapshotsOk, Listed, ChansOk, Fifo;
    var t := ParkCurrent(s, c, OnRecv);
    ParkKeepsScheduled(s, c, OnRecv);
    ParkKeepsListed(s, c, OnRecv);
    SameBooksAreAccounted(s, t);
    JoinKeepsChans(s, t, c, OnRecv, Current(s));
  }

  lemma ClosingIff(s: State, c: Cid)
    requires Inv(s) && c in s.chans && !s.chans[c].closed
    ensures Inv(Close(s, c)) <==> !WakeOverflows(s, s.chans[c].recv + s.chans[c].send)
  {
    hide Core, Accounted, Close;
    var t := Close(s, c);
    CloseKeepsCoreIff(s, c);
    CloseBooks(s, c);
    SameBooksAreAccounted(s, t);
    assert ChanOk(s.chans[c]);
  }

  // ---- resuming -----------------------------------------------------------

  /** The fiber at the head of the queue is in hand and nothing else moved. */
  ghost predicate InHand(s: State, run: State, f: Fid) {
    && Inv(s) && s.ready != [] && f == s.ready[0] && f in s.fibers && run == Taken(s)
    && f in run.fibers && Core(run, {f}) && f !in run.stack
    && run.fibers[f] == s.fibers[f].(queued := false, state := Running)
    && s.fibers[f].state.Ready?
  }

  lemma TakesInHand(s: State)
    requires Inv(s) && s.ready != []
    ensures s.ready[0] in s.fibers && InHand(s, Taken(s), s.ready[0])
  {
    CurrentIsKnown(s);
    TakeKeepsCore(s);
  }

  lemma ResumePlainBooks(s: State, f: Fid)
    requires s.ready != [] && f == s.ready[0] && f in s.fibers && InHand(s, Taken(s), f)
    requires s.fibers[f].suspended ==> s.fibers[f].park.OnRecv?
    ensures BooksOk(Continue(Taken(s), f))
  {
    hide Core, AccountOf;
    assert s.fibers[f].park.OnSend? ==> s.fibers[f].suspended by { KnowsItsPark(s, f); }
    SameBooksAreAccounted(s, Continue(Taken(s), f));
  }

  lemma KnowsItsPark(s: State, f: Fid)
    requires Inv(s) && f in s.fibers
    ensures s.fibers[f].suspended <==> !s.fibers[f].park.NoPark?
  {
  }

  /** The fiber continues without its channel having moved. */
  lemma ResumePlain(s: State, f: Fid)
    requires s.ready != [] && f == s.ready[0] && f in s.fibers && InHand(s, Taken(s), f)
    requires s.fibers[f].suspended ==> s.fibers[f].park.OnRecv?
    ensures Inv(Continue(Taken(s), f))
  {
    hide Core, Accounted, Fifo, ChansOk, Taken, Continue;
    ContinueKeepsCoreIff(Taken(s), f);
    ResumePlainBooks(s, f);
  }

  lemma ResumeRefusedBooks(s: State, f: Fid)
    requires s.ready != [] && f == s.ready[0] && f in s.fibers && InHand(s, Taken(s), f)
    requires s.fibers[f].suspended && s.fibers[f].park.OnSend?
    ensures Accounted(Continue(Refuse(Taken(s), s.fibers[f].payload), f))
  {
    hide Core, NumbersOf, ChansOk, Fifo;
    var t := Continue(Refuse(Taken(s), s.fibers[f].payload), f);
    forall g <- s.sent ensures Holds(t, g) && Over(t, g) == if g == f then Over(s, f) + 1 else Over(s, g) {
      assert AccountOf(s, g);
    }
    assert AccountOf(s, f);
    OneMoreIsAccounted(s, t, Refused(s.fibers[f].payload));
  }

  lemma ResumeRefused(s: State, f: Fid)
    requires s.ready != [] && f == s.ready[0] && f in s.fibers && InHand(s, Taken(s), f)
    requires s.fibers[f].suspended && s.fibers[f].park.OnSend?
    ensures Inv(Continue(Refuse(Taken(s), s.fibers[f].payload), f))
  {
    var run := Taken(s);
    var m := s.fibers[f].payload;
    var ref := Refuse(run, m);
    var t := Continue(ref, f);
    hide Accounted, ChansOk, Fifo, Scheduled, SnapshotsOk, Listed;
    AlikeKeepsCore(run, ref, {f});
    ContinueKeepsCoreIff(ref, f);
    RefuseKeepsFifo(s, t, m);
    SameChansOk(s, t);
    ResumeRefusedBooks(s, f);
  }

  lemma ResumeReceivesBooks(s: State, f: Fid, c: Cid)
    requires s.ready != [] && f == s.ready[0] && f in s.fibers && InHand(s, Taken(s), f)
    requires s.fibers[f].suspended && s.fibers[f].park.OnRecv?
    requires c in s.chans && s.chans[c].buffer != []
    ensures BooksOk(Continue(PopMsg(Taken(s), c), f))
  {
    hide Core, NumbersOf, PushedOn, PopMsg;
    var run := Taken(s);
    var t := Continue(PopMsg(run, c), f);
    PopBooks(run, c);
    PopKeepsFifo(s, t, c);
    PopKeepsChans(s, t, c);
    SameBooksAreAccounted(s, t);
  }

  lemma ResumeReceivesIff(s: State, f: Fid)
    requires s.ready != [] && f == s.ready[0] && f in s.fibers && InHand(s, Taken(s), f)
    requires s.fibers[f].suspended && s.fibers[f].park.OnRecv?
    requires s.fibers[f].waitingOn in s.chans && s.chans[s.fibers[f].waitingOn].buffer != []
    ensures Inv(Continue(PopMsg(Taken(s), s.fibers[f].waitingOn), f))
       <==> !WakeOverflows(Taken(s), s.chans[s.fibers[f].waitingOn].send)
  {
    var run := Taken(s);
    var c := s.fibers[f].waitingOn;
    hide Core, ChansOk, Fifo, Accounted, PopMsg, Taken, LosesAReadyFiber, Continue;
    TakenKeepsChans(s);
    var pop := PopMsg(run, c);
    PopKeepsCoreIff(run, {f}, c);
    PopBooks(run, c);
    ContinueKeepsCoreIff(pop, f);
    ResumeReceivesBooks(s, f, c);
  }

  lemma TakenKeepsChans(s: State)
    requires s.ready != [] && s.ready[0] in s.fibers
    ensures Taken(s).chans == s.chans && Taken(s).log == s.log && Taken(s).sent == s.sent
  {
  }

  lemma ResumeSendsBooks(s: State, f: Fid, c: Cid)
    requires s.ready != [] && f == s.ready[0] && f in s.fibers && InHand(s, Taken(s), f)
    requires s.fibers[f].suspended && s.fibers[f].park.OnSend?
    requires c in s.chans && CanSend(s.chans[c])
    ensures BooksOk(Continue(PushMsg(Taken(s), c, s.fibers[f].payload), f))
  {
    hide Core, NumbersOf, PushedOn, PushMsg;
    var run := Taken(s);
    var m := s.fibers[f].payload;
    var t := Continue(PushMsg(run, c, m), f);
    PushBooks(run, c, m);
    PushKeepsFifo(s, t, c, m);
    PushKeepsChans(s, t, c, m);
    forall g <- s.sent ensures Holds(t, g) && Over(t, g) == if g == f then Over(s, f) + 1 else Over(s, g) {
      assert AccountOf(s, g);
    }
    assert AccountOf(s, f);
    OneMoreIsAccounted(s, t, Pushed(c, m));
  }

  lemma ResumeSendsIff(s: State, f: Fid)
    requires s.ready != [] && f == s.ready[0] && f in s.fibers && InHand(s, Taken(s), f)
    requires s.fibers[f].suspended && s.fibers[f].park.OnSend?
    requires s.fibers[f].waitingOn in s.chans && CanSend(s.chans[s.fibers[f].waitingOn])
    ensures Inv(Continue(PushMsg(Taken(s), s.fibers[f].waitingOn, s.fibers[f].payload), f))
       <==> !WakeOverflows(Taken(s), s.chans[s.fibers[f].waitingOn].recv)
  {
    var run := Taken(s);
    var c, m := s.fibers[f].waitingOn, s.fibers[f].payload;
    hide Core, ChansOk, Fifo, Accounted, PushMsg, Taken, LosesAReadyFiber, Continue;
    TakenKeepsChans(s);
    var push := PushMsg(run, c, m);
    PushKeepsCoreIff(run, {f}, c, m);
    PushBooks(run, c, m);
    ContinueKeepsCoreIff(push, f);
    ResumeSendsBooks(s, f, c);
  }

  lemma ReparkAccounted(s: State, f: Fid)
    requires s.ready != [] && f == s.ready[0] && f in s.fibers && InHand(s, Taken(s), f)
    requires s.fibers[f].suspended && s.fibers[f].waitingOn in s.chans
    ensures Accounted(Repark(Taken(s), f))
  {
    hide Core, NumbersOf, PushedOn, ChansOk, Fifo;
    var t := Repark(Taken(s), f);
    SameBooksAreAccounted(s, t);
  }

  lemma ReparkBooks(s: State, f: Fid)
    requires s.ready != [] && f == s.ready[0] && f in s.fibers && InHand(s, Taken(s), f)
    requires s.fibers[f].suspended && s.fibers[f].waitingOn in s.chans
    requires var ch := s.chans[s.fibers[f].waitingOn];
             !ch.closed && if s.fibers[f].park.OnRecv? then ch.buffer == [] else !CanSend(ch)
    ensures BooksOk(Repark(Taken(s), f))
  {
    ReparkAccounted(s, f);
    hide Core, Accounted, ChansOk, Fifo;
    JoinKeepsChans(s, Repark(Taken(s), f), s.fibers[f].waitingOn, s.fibers[f].park, f);
  }

  lemma ResumeReparksIff(s: State, f: Fid)
    requires s.ready != [] && f == s.ready[0] && f in s.fibers && InHand(s, Taken(s), f)
    requires s.fibers[f].suspended && s.fibers[f].waitingOn in s.chans
    requires var ch := s.chans[s.fibers[f].waitingOn];
             !ch.closed && if s.fibers[f].park.OnRecv? then ch.buffer == [] else !CanSend(ch)
    ensures Inv(Repark(Taken(s), f))
       <==> |Side(s.chans[s.fibers[f].waitingOn], s.fibers[f].park)| < WAITER_MAX
  {
    hide Core, ChansOk, Fifo, Accounted, Taken, Repark;
    ReparkKeepsCoreIff(Taken(s), f);
    TakenKeepsChans(s);
    ReparkBooks(s, f);
  }

  lemma SchedulingIff(s: State)
    requires Inv(s)
    ensures s.ready != [] ==> s.ready[0] in s.fibers
    ensures Inv(Step(s, Schedule)) <==> !Overflows(s, Schedule)
  {
    CurrentIsKnown(s);
    if s.ready != [] {
      TakesInHand(s);
      var f := s.ready[0];
      var fb := s.fibers[f];
      if !fb.suspended {
        ResumePlain(s, f);
      } else {
        var ch := s.chans[fb.waitingOn];
        if fb.park.OnRecv? {
          if ch.buffer != [] { ResumeReceivesIff(s, f); }
          else if ch.closed { ResumePlain(s, f); }
          else { ResumeReparksIff(s, f); }
        } else {
          if ch.closed { ResumeRefused(s, f); }
          else if CanSend(ch) { ResumeSendsIff(s, f); }
          else { ResumeReparksIff(s, f); }
        }
      }
    }
  }

  /** One step keeps the invariant unless it overflows a queue, and then it
      breaks it. */
  lemma StepKeepsInvIff(s: State, op: Op)
    requires Inv(s) && Enabled(s, op)
    ensures s.ready != [] ==> s.ready[0] in s.fibers
    ensures Inv(Step(s, op)) <==> !Overflows(s, op)
  {
    CurrentIsKnown(s);
    match op
    case SendTo(c, v, mayPark) => SendingIff(s, c, v, mayPark);
    case ReceiveFrom(c, mayPark) =>
      if s.chans[c].buffer != [] {
        ReceivingIff(s, c, mayPark);
      } else if !s.chans[c].closed && mayPark && s.stack != [] && |s.chans[c].recv| < WAITER_MAX {
        ParkingReceiveKeepsInv(s, c);
      }
    case CloseChannel(c) => if !s.chans[c].closed { ClosingIff(s, c); }
    case Schedule => SchedulingIff(s);
    case FinishCurrent(ok) => FinishKeepsInv(s, ok);
    case SpawnFiber(f) => SpawnKeepsInv(s, f);
    case NewChannel(c, capacity, rendezvous) => NewChannelKeepsInv(s, c, capacity, rendezvous);
  }

  lemma SendingIff(s: State, c: Cid, v: nat, mayPark: bool)
    requires Inv(s) && c in s.chans
    ensures Inv(Step(s, SendTo(c, v, mayPark)))
       <==> !(v != EOF_VALUE && CanSend(s.chans[c]) && WakeOverflows(s, s.chans[c].recv))
  {
    hide Core, ChansOk, Fifo, Accounted;
    CurrentIsKnown(s);
    if v == EOF_VALUE {
    } else if s.chans[c].closed {
      RefuseIsAccounted(s, c, Msg(Current(s), s.sent[Current(s)], v));
    } else if CanSend(s.chans[c]) {
      PushingSendIff(s, c, v, mayPark);
    } else if mayPark && s.stack != [] {
      ParkingSendKeepsInv(s, c, v);
    }
  }

  lemma FinishKeepsInv(s: State, ok: bool)
    requires Inv(s) && s.stack != [] && Current(s) in s.fibers
    ensures Inv(Finish(s, ok))
  {
    hide Core, AccountOf;
    FinishKeepsCore(s, ok);
    SameBooksAreAccounted(s, Finish(s, ok));
  }

  lemma SpawnKeepsInv(s: State, f: Fid)
    requires Inv(s) && f !in s.fibers && f != MAIN
    ensures Inv(Spawn(s, f).0)
  {
    hide Core, NumbersOf;
    SpawnKeepsCore(s, f);
    var t := Spawn(s, f).0;
    if t != s {
      forall g <- t.sent ensures Holds(t, g) && Over(t, g) == if g in s.sent then Over(s, g) else 0 {
        if g in s.sent {
          assert AccountOf(s, g);
        }
      }
      NoMoreIsAccounted(s, t);
    }
  }

  lemma NewChannelKeepsInv(s: State, c: Cid, capacity: nat, rendezvous: bool)
    requires Inv(s) && c !in s.chans
    ensures Inv(MakeChannel(s, c, capacity, rendezvous))
  {
    hide Core, AccountOf;
    MakeChannelKeepsCore(s, c, capacity, rendezvous);
    SameBooksAreAccounted(s, MakeChannel(s, c, capacity, rendezvous));
    NoPushesBefore(s.log, c);
  }

  // ---- runs ---------------------------------------------------------------

  /** Before anything was spawned or made. */
  function Init(): State {
    State(map[], map[], [], [], map[MAIN := 0], [])
  }

  lemma InitInv()
    ensures Inv(Init())
  {
  }

  ghost predicate Fits(s: State, op: Op)
    requires Inv(s) && Enabled(s, op)
  {
    CurrentIsKnown(s);
    !Overflows(s, op)
  }

  /** A run none of whose steps overflows a queue. */
  ghost predicate Runs(s: State, ops: seq<Op>)
    requires Inv(s)
    decreases |ops|
  {
    ops == [] ||
    (Enabled(s, ops[0]) &&
     (StepKeepsInvIff(s, ops[0]); Fits(s, ops[0]) && Runs(Step(s, ops[0]), ops[1..])))
  }

  ghost function After(s: State, ops: seq<Op>): State
    requires Inv(s) && Runs(s, ops)
    decreases |ops|
  {
    if ops == [] then s else StepKeepsInvIff(s, ops[0]); After(Step(s, ops[0]), ops[1..])
  }

  lemma {:induction false} RunKeepsInv(s: State, ops: seq<Op>)
    requires Inv(s) && Runs(s, ops)
    ensures Inv(After(s, ops))
    decreases |ops|
  {
    if ops != [] {
      StepKeepsInvIff(s, ops[0]);
      RunKeepsInv(Step(s, ops[0]), ops[1..]);
    }
  }
}
