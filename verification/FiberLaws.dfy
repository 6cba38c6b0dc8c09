/** What the invariant of fibers and channels means for a program. */
module FiberLaws {
  import opened FiberSpec
  import opened FiberInv
  import opened FiberMoves
  import opened FiberHistory
  import opened FiberRuns

  // ---- enough room --------------------------------------------------------

  /** Fibers that are not over. */
  ghost function Live(s: State): set<Fid> {
    set f | f in s.fibers && !s.fibers[f].state.Done? && !s.fibers[f].state.Failed?
  }

  /** Fibers parked in an operation on a channel, woken or not. */
  ghost function Parkers(s: State, c: Cid, park: Park): set<Fid> {
    set f | f in s.fibers && s.fibers[f].suspended && s.fibers[f].waitingOn == c && s.fibers[f].park == park
  }

  ghost predicate WithinLimits(s: State) {
    && |Live(s)| <= READY_MAX
    && forall c, park :: c in s.chans ==> |Parkers(s, c, park)| <= WAITER_MAX
  }

  lemma {:induction false} DistinctFit(list: seq<Fid>, all: set<Fid>)
    requires NoDup(list) && forall x <- list :: x in all
    ensures |list| <= |all|
  {
    if list != [] {
      var front, last := list[..|list| - 1], list[|list| - 1];
      forall x <- front ensures x in all - {last} {
        assert x in list;
      }
      assert last in list;
      DistinctFit(front, all - {last});
    }
  }

  lemma WaitersFit(s: State, c: Cid, park: Park)
    requires Inv(s) && WithinLimits(s) && c in s.chans && !park.NoPark?
    ensures !WakeOverflows(s, Side(s.chans[c], park))
  {
    var list := Side(s.chans[c], park);
    SideIsWakeable(s, {}, c, park);
    AppendNoDup(s.ready, list);
    forall f <- s.ready + list ensures f in Live(s) {
      assert f in s.ready || f in list;
    }
    DistinctFit(s.ready + list, Live(s));
  }

  lemma BothSidesFit(s: State, c: Cid)
    requires Inv(s) && WithinLimits(s) && c in s.chans
    ensures !WakeOverflows(s, s.chans[c].recv + s.chans[c].send)
  {
    var recv, send := s.chans[c].recv, s.chans[c].send;
    SideIsWakeable(s, {}, c, OnRecv);
    SideIsWakeable(s, {}, c, OnSend);
    forall f <- recv ensures f !in send {
      assert WaitsIn(s, f, c, OnRecv) && !WaitsIn(s, f, c, OnSend);
    }
    AppendNoDup(recv, send);
    AppendNoDup(s.ready, recv + send);
    forall f <- s.ready + (recv + send) ensures f in Live(s) {
      assert f in s.ready || f in recv || f in send;
    }
    DistinctFit(s.ready + (recv + send), Live(s));
  }

  lemma ReparkFits(s: State, c: Cid, park: Park, f: Fid)
    requires Inv(s) && WithinLimits(s) && c in s.chans && !park.NoPark? && f in Parkers(s, c, park)
    requires s.fibers[f].state.Ready?
    ensures |Side(s.chans[c], park)| < WAITER_MAX
  {
    var list := Side(s.chans[c], park);
    assert f !in list by {
      assert !WaitsIn(s, f, c, park);
    }
    AppendNoDup(list, [f]);
    forall g <- list + [f] ensures g in Parkers(s, c, park) {
      if g != f {
        assert g in list && WaitsIn(s, g, c, park);
      }
    }
    DistinctFit(list + [f], Parkers(s, c, park));
  }

  /** With at most as many live fibers as the queue has places, and as many
      parked on one side of a channel as a list has, no step overflows. */
  lemma WithinLimitsNeverOverflows(s: State, op: Op)
    requires Inv(s) && Enabled(s, op) && WithinLimits(s)
    ensures s.ready != [] ==> s.ready[0] in s.fibers
    ensures !Overflows(s, op)
    ensures Inv(Step(s, op))
  {
    CurrentIsKnown(s);
    forall c, park: Park | c in s.chans && !park.NoPark? ensures !WakeOverflows(s, Side(s.chans[c], park)) {
      WaitersFit(s, c, park);
    }
    forall c <- s.chans
      ensures !WakeOverflows(s, s.chans[c].recv) && !WakeOverflows(s, s.chans[c].send)
      ensures !WakeOverflows(s, s.chans[c].recv + s.chans[c].send)
    {
      assert Side(s.chans[c], OnRecv) == s.chans[c].recv && Side(s.chans[c], OnSend) == s.chans[c].send;
      BothSidesFit(s, c);
    }
    if op.Schedule? && s.ready != [] && s.fibers[s.ready[0]].suspended {
      var f := s.ready[0];
      assert !s.fibers[f].park.NoPark? by { KnowsItsPark(s, f); }
      ReparkFits(s, s.fibers[f].waitingOn, s.fibers[f].park, f);
    }
    StepKeepsInvIff(s, op);
  }

  /** A run of enabled steps, each taken within the limits. */
  ghost predicate RunsWithin(s: State, ops: seq<Op>)
    requires Inv(s)
    decreases |ops|
  {
    ops == [] ||
    (WithinLimits(s) && Enabled(s, ops[0]) &&
     (WithinLimitsNeverOverflows(s, ops[0]); RunsWithin(Step(s, ops[0]), ops[1..])))
  }

  /** No step of a run within the limits overflows, however long it is. */
  lemma {:induction false} RunsWithinNeverOverflow(s: State, ops: seq<Op>)
    requires Inv(s) && RunsWithin(s, ops)
    ensures Runs(s, ops) && Inv(After(s, ops))
    decreases |ops|
  {
    hide Inv, Overflows, WithinLimits, Step;
    if ops != [] {
      WithinLimitsNeverOverflows(s, ops[0]);
      RunsWithinNeverOverflow(Step(s, ops[0]), ops[1..]);
    }
  }

  // ---- no lost wakeups ----------------------------------------------------

  /** A parked fiber is queued once or on the one list it belongs on once. */
  lemma ParkedInExactlyOnePlace(s: State, f: Fid)
    requires Inv(s) && f in s.fibers && s.fibers[f].suspended
    ensures s.fibers[f].waitingOn in s.chans && !s.fibers[f].park.NoPark?
    ensures NoDup(s.ready) && NoDup(Side(s.chans[s.fibers[f].waitingOn], s.fibers[f].park))
    ensures f in s.ready <==> f !in Side(s.chans[s.fibers[f].waitingOn], s.fibers[f].park)
    ensures forall c, park: Park :: c in s.chans && !park.NoPark? && f in Side(s.chans[c], park) ==>
              c == s.fibers[f].waitingOn && park == s.fibers[f].park
  {
    var fb := s.fibers[f];
    assert f in Side(s.chans[fb.waitingOn], fb.park) <==> WaitsIn(s, f, fb.waitingOn, fb.park);
    forall c, park: Park | c in s.chans && !park.NoPark? && f in Side(s.chans[c], park)
      ensures c == fb.waitingOn && park == fb.park
    {
      assert WaitsIn(s, f, c, park);
    }
  }

  /** A rendezvous channel on which a sender and a receiver both wait. */
  predicate Missed(ch: Chan) {
    ch.rendezvous && ch.recv != [] && ch.send != []
  }

  /** When nothing is queued and nothing runs, every fiber that is not over waits for
      something its channel cannot give: a value, or room.  The one exception is a
      sender that waits beside a receiver on a rendezvous channel. */
  lemma QuietMeansBlocked(s: State, f: Fid)
    requires Inv(s) && s.ready == [] && s.stack == [] && f in Live(s)
    ensures s.fibers[f].suspended && s.fibers[f].waitingOn in s.chans
    ensures var ch := s.chans[s.fibers[f].waitingOn];
            && !ch.closed
            && (s.fibers[f].park.OnRecv? ==> ch.buffer == [])
            && (s.fibers[f].park.OnSend? ==> (CanSend(ch) <==> Missed(ch)))
  {
    ParkedInExactlyOnePlace(s, f);
    var c := s.fibers[f].waitingOn;
    assert ChanOk(s.chans[c]);
  }

  /** The fiber whose turn is next was parked in a receive on c. */
  predicate ReceiverIsNext(s: State, c: Cid) {
    s.ready != [] && s.ready[0] in s.fibers &&
    var fb := s.fibers[s.ready[0]];
    fb.suspended && fb.park.OnRecv? && fb.waitingOn == c
  }

  /** A sender waits on an empty, open rendezvous channel that has room for a receiver to wait. */
  predicate SenderWaits(ch: Chan) {
    ch.rendezvous && ch.send != [] && ch.buffer == [] && !ch.closed && |ch.recv| < WAITER_MAX
  }

  /** A receiver parks without waking the senders of a rendezvous channel.  A step
      makes them miss each other exactly when it parks a receiver beside a sender:
      a fiber that receives, or a woken receiver that finds the buffer empty. */
  lemma StepMissesIff(s: State, op: Op, c: Cid)
    requires Inv(s) && Enabled(s, op) && c in s.chans && !Missed(s.chans[c])
    ensures c in Step(s, op).chans
    ensures Missed(Step(s, op).chans[c]) <==>
              && SenderWaits(s.chans[c])
              && ((op == ReceiveFrom(c, true) && s.stack != []) || (op.Schedule? && ReceiverIsNext(s, c)))
  {
    hide Inv, SenderWaits, Send, Recv, RunNext, WakeAll, Missed, ReceiverIsNext;
    CurrentIsKnown(s);
    if op.Schedule? {
      NothingNext(s, c);
      if s.ready != [] {
        TurnMissesIff(s, c);
      }
    } else if op.SendTo? {
      SendMissesNone(s, op.chan, op.value, op.mayPark, c);
    } else if op.ReceiveFrom? {
      ReceiveMissesIff(s, op.chan, op.mayPark, c);
    } else {
      OthersMissNone(s, op, c);
    }
  }

  lemma NothingNext(s: State, c: Cid)
    requires Inv(s)
    ensures s.ready == [] ==> Step(s, Schedule) == s && !ReceiverIsNext(s, c)
  {
  }

  lemma OthersMissNone(s: State, op: Op, c: Cid)
    requires Inv(s) && Enabled(s, op) && c in s.chans && !Missed(s.chans[c])
    requires op.CloseChannel? || op.FinishCurrent? || op.SpawnFiber? || op.NewChannel?
    ensures c in Step(s, op).chans && !Missed(Step(s, op).chans[c])
  {
    CurrentIsKnown(s);
    hide Inv, WakeAll;
  }

  // A sender parks only where no receiver waits.
  lemma SendMissesNone(s: State, d: Cid, v: nat, mayPark: bool, c: Cid)
    requires c in s.chans && d in s.chans && !Missed(s.chans[c])
    requires Current(s) in s.sent && (s.stack != [] ==> Current(s) in s.fibers)
    ensures c in Send(s, d, v, mayPark).0.chans && !Missed(Send(s, d, v, mayPark).0.chans[c])
  {
    hide WakeAll;
  }

  lemma ReceiveMissesIff(s: State, d: Cid, mayPark: bool, c: Cid)
    requires c in s.chans && d in s.chans && !Missed(s.chans[c]) && (s.stack != [] ==> Current(s) in s.fibers)
    ensures c in Recv(s, d, mayPark).0.chans
    ensures Missed(Recv(s, d, mayPark).0.chans[c]) <==> SenderWaits(s.chans[c]) && d == c && mayPark && s.stack != []
  {
    hide WakeAll;
  }

  // The same for the turn of one fiber.
  lemma TurnMissesIff(s: State, c: Cid)
    requires Inv(s) && s.ready != [] && c in s.chans && !Missed(s.chans[c])
    ensures c in Step(s, Schedule).chans
    ensures Missed(Step(s, Schedule).chans[c]) <==> SenderWaits(s.chans[c]) && ReceiverIsNext(s, c)
  {
    CurrentIsKnown(s);
    var f := s.ready[0];
    if s.fibers[f].suspended {
      KnowsItsPark(s, f);
    }
    hide Inv, Resume, Missed, SenderWaits;
    ResumeMissesIff(Dequeue(s), f, c);
  }

  lemma ResumeMissesIff(s: State, f: Fid, c: Cid)
    requires f in s.fibers && c in s.chans && !Missed(s.chans[c])
    requires s.fibers[f].suspended ==> s.fibers[f].waitingOn in s.chans && !s.fibers[f].park.NoPark?
    ensures c in Resume(s, f).chans
    ensures Missed(Resume(s, f).chans[c]) <==>
              SenderWaits(s.chans[c]) && s.fibers[f].suspended && s.fibers[f].park.OnRecv? && s.fibers[f].waitingOn == c
  {
    hide WakeAll;
  }

  // ---- conservation and order ---------------------------------------------

  lemma {:induction false} NumberIsRank(log: seq<Entry>, f: Fid, n: nat, i: nat)
    requires NumbersOf(log, f) == seq(n, k => k) && i < |log| && log[i].msg.sender == f
    ensures log[i].msg.number == |NumbersOf(log[..i], f)| < n
  {
    var front := log[..|log| - 1];
    if i == |log| - 1 {
      assert NumbersOf(log, f)[|NumbersOf(front, f)|] == log[i].msg.number;
    } else {
      assert front[..i] == log[..i];
      var m := if log[|log| - 1].msg.sender == f then n - 1 else n;
      assert NumbersOf(front, f) == NumbersOf(log, f)[..m];
      NumberIsRank(front, f, m, i);
    }
  }

  lemma {:induction false} RankGrows(log: seq<Entry>, f: Fid, i: nat, j: nat)
    requires i < j <= |log| && log[i].msg.sender == f
    ensures |NumbersOf(log[..i], f)| < |NumbersOf(log[..j], f)|
    decreases j
  {
    assert log[..j][..j - 1] == log[..j - 1];
    if i < j - 1 {
      RankGrows(log, f, i, j - 1);
    }
  }

  /** Two sends of one sender that are over are over in the order they were
      begun in. */
  lemma OverInOrder(s: State, i: nat, j: nat)
    requires Inv(s) && i < j < |s.log| && s.log[i].msg.sender == s.log[j].msg.sender
    ensures s.log[i].msg.number < s.log[j].msg.number
  {
    var f := s.log[i].msg.sender;
    assert s.log[i] in s.log && AccountOf(s, f);
    NumberIsRank(s.log, f, Over(s, f), i);
    NumberIsRank(s.log, f, Over(s, f), j);
    RankGrows(s.log, f, i, j);
  }

  /** The index in the log of the i-th message pushed on a channel. */
  ghost function LogIndex(log: seq<Entry>, c: Cid, i: nat): (k: nat)
    requires i < |PushedOn(log, c)|
    ensures k < |log| && log[k] == Pushed(c, PushedOn(log, c)[i])
    ensures |PushedOn(log[..k], c)| == i
  {
    var front := log[..|log| - 1];
    if i < |PushedOn(front, c)| then
      var k := LogIndex(front, c, i);
      assert front[..k] == log[..k];
      k
    else |log| - 1
  }

  lemma {:induction false} PushedGrows(log: seq<Entry>, c: Cid, k: nat)
    requires k <= |log|
    ensures PushedOn(log[..k], c) <= PushedOn(log, c)
  {
    if k < |log| {
      var front := log[..|log| - 1];
      assert front[..k] == log[..k];
      PushedGrows(front, c, k);
    } else {
      assert log[..k] == log;
    }
  }

  lemma LogIndexGrows(log: seq<Entry>, c: Cid, i: nat, j: nat)
    requires i < j < |PushedOn(log, c)|
    ensures LogIndex(log, c, i) < LogIndex(log, c, j)
  {
    var a, b := LogIndex(log, c, i), LogIndex(log, c, j);
    if b <= a {
      assert log[..a][..b] == log[..b];
      PushedGrows(log[..a], c, b);
    }
  }

  /** What a receiver takes from a channel comes first in, first out: what was
      received is a prefix of what was pushed, and one sender's messages come in
      the order it sent them. */
  lemma ReceivedInOrder(s: State, c: Cid, i: nat, j: nat)
    requires Inv(s) && c in s.chans && i < j < |PushedOn(s.log, c)|
    requires PushedOn(s.log, c)[i].sender == PushedOn(s.log, c)[j].sender
    ensures s.chans[c].delivered <= PushedOn(s.log, c)
    ensures PushedOn(s.log, c)[i].number < PushedOn(s.log, c)[j].number
  {
    LogIndexGrows(s.log, c, i, j);
    OverInOrder(s, LogIndex(s.log, c, i), LogIndex(s.log, c, j));
  }

  /** Where a message that was sent can be. */
  datatype Place = Delivered(chan: Cid, at: nat) | Buffered(chan: Cid, at: nat) | ReturnedToSender(at: nat) | HeldBySender

  ghost predicate IsAt(s: State, p: Place, f: Fid, n: nat) {
    match p
    case Delivered(c, i) => c in s.chans && i < |s.chans[c].delivered| && Is(s.chans[c].delivered[i], f, n)
    case Buffered(c, i) => c in s.chans && i < |s.chans[c].buffer| && Is(s.chans[c].buffer[i], f, n)
    case ReturnedToSender(k) => k < |s.log| && s.log[k].Refused? && Is(s.log[k].msg, f, n)
    case HeldBySender => f in s.fibers && s.fibers[f].park.OnSend? && Is(s.fibers[f].payload, f, n)
  }

  predicate Is(m: Msg, f: Fid, n: nat) {
    m.sender == f && m.number == n
  }

  /** The log entry behind a place. */
  ghost function EntryOf(s: State, p: Place, f: Fid, n: nat): (k: nat)
    requires Inv(s) && IsAt(s, p, f, n) && !p.HeldBySender?
    ensures k < |s.log| && Is(s.log[k].msg, f, n)
    ensures p.ReturnedToSender? ==> k == p.at && s.log[k].Refused?
    ensures p.Delivered? ==> s.log[k].Pushed? && s.log[k].chan == p.chan && |PushedOn(s.log[..k], p.chan)| == p.at
    ensures p.Buffered? ==> s.log[k].Pushed? && s.log[k].chan == p.chan &&
                            |PushedOn(s.log[..k], p.chan)| == |s.chans[p.chan].delivered| + p.at
  {
    match p
    case ReturnedToSender(k) => k
    case Delivered(c, i) =>
      assert PushedOn(s.log, c)[i] == s.chans[c].delivered[i];
      LogIndex(s.log, c, i)
    case Buffered(c, i) =>
      var j := |s.chans[c].delivered| + i;
      assert PushedOn(s.log, c)[j] == s.chans[c].buffer[i];
      LogIndex(s.log, c, j)
  }

  lemma SameEntrySamePlace(s: State, p: Place, q: Place, f: Fid, n: nat)
    requires Inv(s) && IsAt(s, p, f, n) && IsAt(s, q, f, n) && !p.HeldBySender? && !q.HeldBySender?
    requires EntryOf(s, p, f, n) == EntryOf(s, q, f, n)
    ensures p == q
  {
  }

  lemma NotOverAndHeld(s: State, k: nat, f: Fid, n: nat)
    requires Inv(s) && k < |s.log| && Is(s.log[k].msg, f, n)
    ensures !IsAt(s, HeldBySender, f, n) && f in s.sent && n < s.sent[f]
  {
    assert s.log[k] in s.log && AccountOf(s, f);
    NumberIsRank(s.log, f, Over(s, f), k);
  }

  /** No message is in two places: nothing is delivered twice, kept after it was
      delivered, or both refused and delivered. */
  lemma AtMostOnePlace(s: State, p: Place, q: Place, f: Fid, n: nat)
    requires Inv(s) && IsAt(s, p, f, n) && IsAt(s, q, f, n)
    ensures p == q
  {
    if !p.HeldBySender? && !q.HeldBySender? {
      var i, j := EntryOf(s, p, f, n), EntryOf(s, q, f, n);
      if i < j { OverInOrder(s, i, j); }
      if j < i { OverInOrder(s, j, i); }
      SameEntrySamePlace(s, p, q, f, n);
    } else if !p.HeldBySender? {
      NotOverAndHeld(s, EntryOf(s, p, f, n), f, n);
    } else if !q.HeldBySender? {
      NotOverAndHeld(s, EntryOf(s, q, f, n), f, n);
    }
  }

  /** The log entry of a send that is over. */
  ghost function EntryNumbered(log: seq<Entry>, f: Fid, n: nat): (k: nat)
    requires n < |NumbersOf(log, f)|
    ensures k < |log| && log[k].msg.sender == f && log[k].msg.number == NumbersOf(log, f)[n]
  {
    var front := log[..|log| - 1];
    if n < |NumbersOf(front, f)| then EntryNumbered(front, f, n) else |log| - 1
  }

  lemma {:induction false} PushedContains(log: seq<Entry>, k: nat) returns (i: nat)
    requires k < |log| && log[k].Pushed?
    ensures i < |PushedOn(log, log[k].chan)| && PushedOn(log, log[k].chan)[i] == log[k].msg
  {
    var front := log[..|log| - 1];
    if k == |log| - 1 {
      i := |PushedOn(front, log[k].chan)|;
    } else {
      i := PushedContains(front, k);
    }
  }

  /** Every message any sender ever sent is somewhere: delivered, buffered,
      returned to its sender, or held by it while it is parked. */
  lemma EveryMessageIsSomewhere(s: State, f: Fid, n: nat) returns (p: Place)
    requires Inv(s) && f in s.sent && n < s.sent[f]
    ensures IsAt(s, p, f, n)
    ensures forall q :: IsAt(s, q, f, n) ==> q == p
  {
    assert AccountOf(s, f);
    if n == Over(s, f) {
      p := HeldBySender;
    } else {
      var k := EntryNumbered(s.log, f, n);
      if s.log[k].Refused? {
        p := ReturnedToSender(k);
      } else {
        var c := s.log[k].chan;
        assert s.log[k] in s.log;
        var i := PushedContains(s.log, k);
        var d := |s.chans[c].delivered|;
        p := if i < d then Delivered(c, i) else Buffered(c, i - d);
      }
    }
    forall q | IsAt(s, q, f, n) ensures q == p {
      AtMostOnePlace(s, p, q, f, n);
    }
  }

  // ---- history only grows -------------------------------------------------

  ghost predicate Extends(s: State, t: State) {
    && s.log <= t.log
    && (forall c <- s.chans :: c in t.chans && s.chans[c].delivered <= t.chans[c].delivered
                               && t.chans[c].capacity == s.chans[c].capacity
                               && (s.chans[c].closed ==> t.chans[c].closed))
    && forall f <- s.sent :: f in t.sent && s.sent[f] <= t.sent[f]
  }

  lemma PushExtends(s: State, c: Cid, m: Msg)
    requires c in s.chans
    ensures Extends(s, PushMsg(s, c, m))
  {
    PushBooks(s, c, m);
  }

  lemma PopExtends(s: State, c: Cid)
    requires c in s.chans && s.chans[c].buffer != []
    ensures Extends(s, PopMsg(s, c))
  {
    PopBooks(s, c);
  }

  lemma ScheduleExtends(s: State)
    requires Inv(s)
    ensures Extends(s, Step(s, Schedule))
  {
    hide Inv, Resume;
    CurrentIsKnown(s);
    if s.ready != [] {
      ResumeExtends(s, s.ready[0]);
    }
  }

  lemma ResumeExtends(s: State, f: Fid)
    requires Inv(s) && s.ready != [] && s.ready[0] == f && f in s.fibers
    requires s.fibers[f].suspended ==> s.fibers[f].waitingOn in s.chans
    ensures Extends(s, Resume(Dequeue(s), f))
  {
    hide Inv, PushMsg, PopMsg;
    var fb := s.fibers[f];
    var run := Taken(s);
    if fb.suspended && !fb.park.NoPark? {
      var ch := s.chans[fb.waitingOn];
      if fb.park.OnRecv? {
        if ch.buffer != [] {
          PopExtends(run, fb.waitingOn);
        }
      } else {
        PushExtends(run, fb.waitingOn, fb.payload);
      }
    }
  }

  lemma StepExtends(s: State, op: Op)
    requires Inv(s) && Enabled(s, op)
    ensures Extends(s, Step(s, op))
  {
    hide Inv, PushMsg, PopMsg, Close, RunNext, Extends;
    CurrentIsKnown(s);
    match op
    case SendTo(c, v, mayPark) =>
      SendExtends(s, c, v, mayPark);
    case ReceiveFrom(c, mayPark) =>
      ReceiveExtends(s, c, mayPark);
    case CloseChannel(c) =>
      CloseExtends(s, c);
    case Schedule =>
      ScheduleExtends(s);
    case _ =>
      PlainExtends(s, op);
  }

  lemma SendExtends(s: State, c: Cid, v: nat, mayPark: bool)
    requires Inv(s) && c in s.chans
    ensures Extends(s, Step(s, SendTo(c, v, mayPark)))
  {
    hide Inv, PushMsg;
    CurrentIsKnown(s);
    var f := Current(s);
    PushExtends(CountSend(s, f), c, Msg(f, s.sent[f], v));
  }

  lemma ReceiveExtends(s: State, c: Cid, mayPark: bool)
    requires Inv(s) && c in s.chans
    ensures Extends(s, Step(s, ReceiveFrom(c, mayPark)))
  {
    hide Inv, PopMsg;
    CurrentIsKnown(s);
    if s.chans[c].buffer != [] {
      PopExtends(s, c);
    }
  }

  lemma CloseExtends(s: State, c: Cid)
    requires c in s.chans
    ensures Extends(s, Close(s, c))
  {
    if !s.chans[c].closed {
      CloseBooks(s, c);
    }
  }

  lemma PlainExtends(s: State, op: Op)
    requires Inv(s) && Enabled(s, op) && (op.FinishCurrent? || op.SpawnFiber? || op.NewChannel?)
    ensures Extends(s, Step(s, op))
  {
    CurrentIsKnown(s);
    if op.SpawnFiber? {
      assert op.fiber !in s.sent;
    }
  }

  /** No step and no run takes back a message, reopens a channel or forgets a
      send. */
  lemma {:induction false} RunExtends(s: State, ops: seq<Op>)
    requires Inv(s) && Runs(s, ops)
    ensures Extends(s, After(s, ops))
    decreases |ops|
  {
    if ops != [] {
      StepKeepsInvIff(s, ops[0]);
      StepExtends(s, ops[0]);
      RunExtends(Step(s, ops[0]), ops[1..]);
    }
  }
}
