/** Exactly which steps put a message into a channel, give one back, or take one out. */
module FiberOutcomes {
  import opened FiberSpec
  import opened FiberInv
  import opened FiberMoves
  import opened FiberHistory
  import opened FiberRuns
  import opened FiberLaws

  /** Open, and a receiver waits there or the buffer may hold one more. */
  predicate HasRoom(ch: Chan) {
    && !ch.closed
    && (ch.rendezvous ==> ch.recv != [])
    && (!ch.rendezvous && ch.capacity > 0 ==> |ch.buffer| < ch.capacity)
  }

  /** The fiber whose turn is next was parked in a send on c. */
  predicate SenderIsNext(s: State, c: Cid) {
    s.ready != [] && s.ready[0] in s.fibers &&
    var fb := s.fibers[s.ready[0]];
    fb.suspended && fb.park.OnSend? && fb.waitingOn == c
  }

  /** The operation would send on c: a send that begins there, or the turn of a sender
      woken there. */
  predicate Sends(s: State, op: Op, c: Cid) {
    (op.SendTo? && op.chan == c && op.value != EOF_VALUE) || (op.Schedule? && SenderIsNext(s, c))
  }

  /** And it would receive on c. */
  predicate Receives(s: State, op: Op, c: Cid) {
    (op.ReceiveFrom? && op.chan == c) || (op.Schedule? && ReceiverIsNext(s, c))
  }

  ghost predicate Pushes(s: State, t: State, c: Cid) {
    |t.log| == |s.log| + 1 && t.log[|s.log|].Pushed? && t.log[|s.log|].chan == c
  }

  ghost predicate Refuses(s: State, t: State) {
    |t.log| == |s.log| + 1 && t.log[|s.log|].Refused?
  }

  /** A message goes into a channel exactly when a send meets one with room. */
  lemma StepPushesIff(s: State, op: Op, c: Cid)
    requires Inv(s) && Enabled(s, op) && c in s.chans
    ensures Pushes(s, Step(s, op), c) <==> Sends(s, op, c) && HasRoom(s.chans[c])
  {
    CurrentIsKnown(s);
    match op
    case SendTo(d, v, mayPark) => SendEnds(s, d, v, mayPark, c);
    case Schedule => if s.ready != [] { TurnEnds(s, c); }
    case _ => QuietSteps(s, op);
  }

  /** It goes back to its sender exactly when the channel is closed, or when the sender
      would have to wait and the list of waiters is full. */
  lemma StepRefusesIff(s: State, op: Op)
    requires Inv(s) && Enabled(s, op)
    ensures Refuses(s, Step(s, op)) <==>
            || (exists c :: c in s.chans && Sends(s, op, c) && s.chans[c].closed)
            || (op.SendTo? && op.value != EOF_VALUE && op.mayPark && s.stack != []
                && !HasRoom(s.chans[op.chan]) && |s.chans[op.chan].send| == WAITER_MAX)
  {
    CurrentIsKnown(s);
    match op
    case SendTo(c, v, mayPark) =>
      SendRefusesIff(s, c, v, mayPark);
      if v != EOF_VALUE { assert Sends(s, op, c); }
    case Schedule =>
      if s.ready != [] && s.fibers[s.ready[0]].suspended {
        KnowsItsPark(s, s.ready[0]);
        var c := s.fibers[s.ready[0]].waitingOn;
        TurnRefusesIff(s, c);
        assert forall d :: Sends(s, op, d) ==> d == c;
      } else if s.ready != [] {
        NewTurnRefusesNone(s);
      }
    case _ => QuietSteps(s, op);
  }

  /** A message is taken out, the oldest one, exactly when a receive meets a channel
      that holds one. */
  lemma StepDeliversIff(s: State, op: Op, c: Cid)
    requires Inv(s) && Enabled(s, op) && c in s.chans
    ensures c in Step(s, op).chans
    ensures Step(s, op).chans[c].delivered
         == s.chans[c].delivered + if Receives(s, op, c) && s.chans[c].buffer != [] then [s.chans[c].buffer[0]] else []
  {
    CurrentIsKnown(s);
    match op
    case SendTo(d, v, mayPark) => SendDeliversNone(s, d, v, mayPark, c);
    case ReceiveFrom(d, mayPark) => ReceiveDelivers(s, d, mayPark, c);
    case Schedule => if s.ready != [] { TurnDelivers(s, c); }
    case _ => QuietSteps(s, op);
  }

  // ---- sends ------------------------------------------------------------------------

  lemma SendEnds(s: State, d: Cid, v: nat, mayPark: bool, c: Cid)
    requires Inv(s) && Enabled(s, SendTo(d, v, mayPark)) && c in s.chans
    ensures Pushes(s, Step(s, SendTo(d, v, mayPark)), c) <==> d == c && v != EOF_VALUE && HasRoom(s.chans[d])
  {
    CurrentIsKnown(s);
    hide Inv, PushMsg, WakeAll;
    PushBooks(CountSend(s, Current(s)), d, Msg(Current(s), s.sent[Current(s)], v));
  }

  lemma SendRefusesIff(s: State, c: Cid, v: nat, mayPark: bool)
    requires Inv(s) && Enabled(s, SendTo(c, v, mayPark))
    ensures Refuses(s, Step(s, SendTo(c, v, mayPark))) <==>
            v != EOF_VALUE && (s.chans[c].closed ||
              (mayPark && s.stack != [] && !HasRoom(s.chans[c]) && |s.chans[c].send| == WAITER_MAX))
  {
    CurrentIsKnown(s);
    assert |s.chans[c].send| <= WAITER_MAX;
    hide Inv, PushMsg, WakeAll;
    PushBooks(CountSend(s, Current(s)), c, Msg(Current(s), s.sent[Current(s)], v));
  }

  lemma SendDeliversNone(s: State, d: Cid, v: nat, mayPark: bool, c: Cid)
    requires Inv(s) && Enabled(s, SendTo(d, v, mayPark)) && c in s.chans
    ensures var t := Step(s, SendTo(d, v, mayPark));
            c in t.chans && t.chans[c].delivered == s.chans[c].delivered
  {
    CurrentIsKnown(s);
    hide Inv, Send;
    SendingDeliversNone(s, d, v, mayPark, c);
  }

  lemma SendingDeliversNone(s: State, d: Cid, v: nat, mayPark: bool, c: Cid)
    requires c in s.chans && d in s.chans && Current(s) in s.sent && (s.stack != [] ==> Current(s) in s.fibers)
    ensures var t := Send(s, d, v, mayPark).0;
            c in t.chans && t.chans[c].delivered == s.chans[c].delivered
  {
    hide WakeAll;
  }

  lemma ReceiveDelivers(s: State, d: Cid, mayPark: bool, c: Cid)
    requires Inv(s) && Enabled(s, ReceiveFrom(d, mayPark)) && c in s.chans
    ensures var t := Step(s, ReceiveFrom(d, mayPark));
            && c in t.chans
            && t.chans[c].delivered
               == s.chans[c].delivered + if d == c && s.chans[c].buffer != [] then [s.chans[c].buffer[0]] else []
  {
    CurrentIsKnown(s);
    hide Inv, PopMsg, WakeAll;
    if s.chans[d].buffer != [] { PopBooks(s, d); }
  }

  // ---- turns ------------------------------------------------------------------------

  lemma TurnEnds(s: State, c: Cid)
    requires Inv(s) && s.ready != [] && c in s.chans
    ensures Pushes(s, Step(s, Schedule), c) <==> SenderIsNext(s, c) && HasRoom(s.chans[c])
  {
    CurrentIsKnown(s);
    var f := s.ready[0];
    if s.fibers[f].suspended { KnowsItsPark(s, f); }
    hide Inv, Resume, HasRoom;
    ResumePushesIff(Dequeue(s), f, c);
  }

  lemma ResumePushesIff(s: State, f: Fid, c: Cid)
    requires f in s.fibers && c in s.chans
    requires s.fibers[f].suspended ==> s.fibers[f].waitingOn in s.chans && !s.fibers[f].park.NoPark?
    ensures Pushes(s, Resume(s, f), c) <==>
            s.fibers[f].suspended && s.fibers[f].park.OnSend? && s.fibers[f].waitingOn == c && HasRoom(s.chans[c])
  {
    hide PushMsg, PopMsg;
    var fb := s.fibers[f];
    var run := s.(fibers := s.fibers[f := fb.(state := Running)]);
    if fb.suspended {
      if fb.park.OnRecv? {
        if s.chans[fb.waitingOn].buffer != [] { PopBooks(run, fb.waitingOn); }
      } else {
        PushBooks(run, fb.waitingOn, fb.payload);
      }
    }
  }

  lemma TurnRefusesIff(s: State, c: Cid)
    requires Inv(s) && s.ready != [] && s.ready[0] in s.fibers && s.fibers[s.ready[0]].suspended
    requires c == s.fibers[s.ready[0]].waitingOn && c in s.chans && !s.fibers[s.ready[0]].park.NoPark?
    ensures Refuses(s, Step(s, Schedule)) <==> SenderIsNext(s, c) && s.chans[c].closed
  {
    hide Inv, Resume;
    ResumeRefusesIff(Dequeue(s), s.ready[0]);
  }

  lemma NewTurnRefusesNone(s: State)
    requires Inv(s) && s.ready != [] && s.ready[0] in s.fibers && !s.fibers[s.ready[0]].suspended
    ensures !Refuses(s, Step(s, Schedule))
  {
    hide Inv;
  }

  lemma ResumeRefusesIff(s: State, f: Fid)
    requires f in s.fibers && s.fibers[f].suspended && s.fibers[f].waitingOn in s.chans && !s.fibers[f].park.NoPark?
    ensures Refuses(s, Resume(s, f)) <==> s.fibers[f].park.OnSend? && s.chans[s.fibers[f].waitingOn].closed
  {
    hide PushMsg, PopMsg;
    var fb := s.fibers[f];
    var run := s.(fibers := s.fibers[f := fb.(state := Running)]);
    if fb.park.OnRecv? {
      if s.chans[fb.waitingOn].buffer != [] { PopBooks(run, fb.waitingOn); }
    } else {
      PushBooks(run, fb.waitingOn, fb.payload);
    }
  }

  lemma TurnDelivers(s: State, c: Cid)
    requires Inv(s) && s.ready != [] && c in s.chans
    ensures var t := Step(s, Schedule);
            && c in t.chans
            && t.chans[c].delivered
               == s.chans[c].delivered + if ReceiverIsNext(s, c) && s.chans[c].buffer != [] then [s.chans[c].buffer[0]] else []
  {
    CurrentIsKnown(s);
    var f := s.ready[0];
    if s.fibers[f].suspended { KnowsItsPark(s, f); }
    hide Inv, Resume;
    ResumeDelivers(Dequeue(s), f, c);
  }

  lemma ResumeDelivers(s: State, f: Fid, c: Cid)
    requires f in s.fibers && c in s.chans
    requires s.fibers[f].suspended ==> s.fibers[f].waitingOn in s.chans && !s.fibers[f].park.NoPark?
    ensures var t, fb := Resume(s, f), s.fibers[f];
            && c in t.chans
            && t.chans[c].delivered
               == s.chans[c].delivered + if fb.suspended && fb.park.OnRecv? && fb.waitingOn == c && s.chans[c].buffer != []
                                         then [s.chans[c].buffer[0]] else []
  {
    hide PushMsg, PopMsg;
    var fb := s.fibers[f];
    var run := s.(fibers := s.fibers[f := fb.(state := Running)]);
    if fb.suspended {
      if fb.park.OnRecv? {
        if s.chans[fb.waitingOn].buffer != [] { PopBooks(run, fb.waitingOn); }
      } else {
        PushBooks(run, fb.waitingOn, fb.payload);
      }
    }
  }

  // ---- the other operations --------------------------------------------------------------

  lemma QuietSteps(s: State, op: Op)
    requires Inv(s) && Enabled(s, op) && !op.SendTo? && !op.Schedule?
    ensures Step(s, op).log == s.log
    ensures !op.ReceiveFrom? ==> forall c <- s.chans :: c in Step(s, op).chans && Step(s, op).chans[c].delivered == s.chans[c].delivered
  {
    CurrentIsKnown(s);
    hide Inv, PopMsg, Close;
    if op.ReceiveFrom? && s.chans[op.chan].buffer != [] { PopBooks(s, op.chan); }
    if op.CloseChannel? { ClosingIsQuiet(s, op.chan); }
  }

  lemma ClosingIsQuiet(s: State, c: Cid)
    requires c in s.chans
    ensures Close(s, c).log == s.log
    ensures forall d <- s.chans :: d in Close(s, c).chans && Close(s, c).chans[d].delivered == s.chans[d].delivered
  {
    hide WakeAll;
  }

  // ---- closing ---------------------------------------------------------------------------

  /** Only closing a channel closes it, and it does. */
  lemma StepClosesIff(s: State, op: Op, c: Cid)
    requires Inv(s) && Enabled(s, op) && c in s.chans
    ensures c in Step(s, op).chans
    ensures Step(s, op).chans[c].closed <==> s.chans[c].closed || op == CloseChannel(c)
  {
    CurrentIsKnown(s);
    hide Inv, Send, Recv, Close, Resume, Spawn, Finish, MakeChannel;
    match op
    case SendTo(d, v, mayPark) => SendClosesNone(s, d, v, mayPark, c);
    case ReceiveFrom(d, mayPark) => ReceiveClosesNone(s, d, mayPark, c);
    case CloseChannel(d) => CloseCloses(s, d, c);
    case Schedule => if s.ready != [] { TurnClosesNone(s, c); }
    case _ => OthersCloseNone(s, op, c);
  }

  lemma SendClosesNone(s: State, d: Cid, v: nat, mayPark: bool, c: Cid)
    requires c in s.chans && d in s.chans && Current(s) in s.sent && (s.stack != [] ==> Current(s) in s.fibers)
    ensures c in Send(s, d, v, mayPark).0.chans && Send(s, d, v, mayPark).0.chans[c].closed == s.chans[c].closed
  {
    hide WakeAll;
  }

  lemma ReceiveClosesNone(s: State, d: Cid, mayPark: bool, c: Cid)
    requires c in s.chans && d in s.chans && (s.stack != [] ==> Current(s) in s.fibers)
    ensures c in Recv(s, d, mayPark).0.chans && Recv(s, d, mayPark).0.chans[c].closed == s.chans[c].closed
  {
    hide WakeAll;
  }

  lemma CloseCloses(s: State, d: Cid, c: Cid)
    requires c in s.chans && d in s.chans
    ensures c in Close(s, d).chans && (Close(s, d).chans[c].closed <==> s.chans[c].closed || c == d)
  {
    hide WakeAll;
  }

  lemma TurnClosesNone(s: State, c: Cid)
    requires Inv(s) && s.ready != [] && c in s.chans
    ensures c in Step(s, Schedule).chans && Step(s, Schedule).chans[c].closed == s.chans[c].closed
  {
    CurrentIsKnown(s);
    var f := s.ready[0];
    if s.fibers[f].suspended { KnowsItsPark(s, f); }
    hide Inv, Resume;
    ResumeClosesNone(Dequeue(s), f, c);
  }

  lemma ResumeClosesNone(s: State, f: Fid, c: Cid)
    requires f in s.fibers && c in s.chans
    requires s.fibers[f].suspended ==> s.fibers[f].waitingOn in s.chans && !s.fibers[f].park.NoPark?
    ensures c in Resume(s, f).chans && Resume(s, f).chans[c].closed == s.chans[c].closed
  {
    hide WakeAll;
  }

  lemma OthersCloseNone(s: State, op: Op, c: Cid)
    requires Inv(s) && Enabled(s, op) && c in s.chans && (op.FinishCurrent? || op.SpawnFiber? || op.NewChannel?)
    ensures c in Step(s, op).chans && Step(s, op).chans[c].closed == s.chans[c].closed
  {
    CurrentIsKnown(s);
    hide Inv;
  }
}
