/** Runs that show where fibers miss each other or are lost. */
module FiberExamples {
  import opened FiberSpec
  import opened FiberInv
  import opened FiberMoves
  import opened FiberHistory
  import opened FiberRuns
  import opened FiberLaws

  /** Nothing is queued and nothing runs. */
  predicate Still(s: State) {
    s.ready == [] && s.stack == []
  }

  /** One step that overflows nothing leads from s to t. */
  ghost predicate Takes(s: State, op: Op, t: State)
    requires Inv(s)
  {
    Enabled(s, op) && Fits(s, op) && Step(s, op) == t
  }

  lemma OneStep(s: State, op: Op, t: State)
    requires Inv(s) && Takes(s, op, t)
    ensures Inv(t) && Runs(s, [op]) && After(s, [op]) == t
  {
    hide Inv, Step;
    StepKeepsInvIff(s, op);
    assert [op][1..] == [];
  }

  lemma {:induction false} Joined(s: State, a: seq<Op>, b: seq<Op>)
    requires Inv(s) && Runs(s, a) && Inv(After(s, a)) && Runs(After(s, a), b)
    ensures Runs(s, a + b) && After(s, a + b) == After(After(s, a), b)
    decreases |a|
  {
    hide Inv, Overflows, Step;
    if a == [] {
      assert a + b == b;
    } else {
      StepKeepsInvIff(s, a[0]);
      RunKeepsInv(Step(s, a[0]), a[1..]);
      assert After(s, a) == After(Step(s, a[0]), a[1..]);
      Joined(Step(s, a[0]), a[1..], b);
      assert (a + b)[1..] == a[1..] + b;
    }
  }

  /** A state some run without overflow reaches. */
  ghost predicate Reached(s: State) {
    exists ops :: InitRuns(ops) && After(Init(), ops) == s
  }

  ghost predicate InitRuns(ops: seq<Op>) {
    InitInv();
    Runs(Init(), ops)
  }

  lemma ReachedInit()
    ensures Reached(Init())
  {
    InitInv();
    assert InitRuns([]) && After(Init(), []) == Init();
  }

  lemma ReachNext(s: State, op: Op, t: State)
    requires Reached(s) && Inv(s) && Takes(s, op, t)
    ensures Reached(t) && Inv(t)
  {
    hide Inv, Takes;
    InitInv();
    var ops :| InitRuns(ops) && After(Init(), ops) == s;
    OneStep(s, op, t);
    Joined(Init(), ops, [op]);
    assert InitRuns(ops + [op]);
  }

  // ---- single steps, seen as changes of the state ------------------------------

  /** A fiber that never ran is started. */
  lemma Starts(s: State, f: Fid) returns (t: State)
    requires Reached(s) && Inv(s) && s.ready != [] && s.ready[0] == f && f in s.fibers && !s.fibers[f].suspended
    ensures t == s.(fibers := s.fibers[f := s.fibers[f].(queued := false, state := Running, park := NoPark, suspended := false)],
                    ready := s.ready[1..], stack := s.stack + [f])
    ensures Reached(t) && Inv(t)
  {
    t := Step(s, Schedule);
    CurrentIsKnown(s);
    hide Inv, Reached;
    var fb := s.fibers[f];
    assert s.fibers[f := fb.(queued := false)][f := fb.(queued := false, state := Running)]
           == s.fibers[f := fb.(queued := false, state := Running)];
    ReachNext(s, Schedule, t);
  }

  /** A fiber receives from an empty channel and parks. */
  lemma Parks(s: State, f: Fid, c: Cid) returns (t: State)
    requires Reached(s) && Inv(s) && s.stack == [f] && f in s.fibers && c in s.chans
    requires s.chans[c].buffer == [] && !s.chans[c].closed && |s.chans[c].recv| < WAITER_MAX
    ensures t == s.(fibers := s.fibers[f := s.fibers[f].(state := Waiting, park := OnRecv, waitingOn := c, suspended := true)],
                    chans := s.chans[c := s.chans[c].(recv := s.chans[c].recv + [f])], stack := [])
    ensures Reached(t) && Inv(t)
  {
    hide Inv, Reached;
    t := Step(s, ReceiveFrom(c, true));
    ReachNext(s, ReceiveFrom(c, true), t);
  }

  /** A woken receiver takes the one message there is; no sender waits. */
  lemma TakesMessage(s: State, f: Fid, c: Cid) returns (t: State)
    requires Reached(s) && Inv(s) && s.stack == [] && c in s.chans && ReceiverIsNext(s, c) && s.ready[0] == f
    requires s.chans[c].buffer != [] && s.chans[c].send == []
    ensures t == s.(fibers := s.fibers[f := s.fibers[f].(queued := false, state := Running, park := NoPark, suspended := false)],
                    chans := s.chans[c := s.chans[c].(buffer := s.chans[c].buffer[1..],
                                                      delivered := s.chans[c].delivered + [s.chans[c].buffer[0]])],
                    ready := s.ready[1..], stack := [f])
    ensures Reached(t) && Inv(t)
  {
    t := Step(s, Schedule);
    CurrentIsKnown(s);
    QueueFits(s);
    TurnTakes(s, f, c);
    hide Inv, Reached, RunNext;
    ReachNext(s, Schedule, t);
  }

  lemma QueueFits(s: State)
    requires Inv(s)
    ensures |s.ready| <= READY_MAX
  {
  }

  lemma TurnTakes(s: State, f: Fid, c: Cid)
    requires s.stack == [] && c in s.chans && ReceiverIsNext(s, c) && s.ready[0] == f
    requires s.chans[c].buffer != [] && s.chans[c].send == []
    ensures RunNext(s) == s.(fibers := s.fibers[f := s.fibers[f].(queued := false, state := Running, park := NoPark, suspended := false)],
                             chans := s.chans[c := s.chans[c].(buffer := s.chans[c].buffer[1..],
                                                               delivered := s.chans[c].delivered + [s.chans[c].buffer[0]])],
                             ready := s.ready[1..], stack := [f])
  {
    hide Continue;
    var fb := s.fibers[f];
    var run := Dequeue(s).(fibers := Dequeue(s).fibers[f := fb.(queued := false, state := Running)]);
    PopWakesNone(run, c);
    var u := PopMsg(run, c);
    Continues(u, f);
    assert u.fibers[f := fb.(queued := false, state := Running, park := NoPark, suspended := false)]
           == s.fibers[f := fb.(queued := false, state := Running, park := NoPark, suspended := false)];
  }

  lemma PopWakesNone(s: State, c: Cid)
    requires c in s.chans && s.chans[c].buffer != [] && s.chans[c].send == []
    ensures PopMsg(s, c) == s.(chans := s.chans[c := s.chans[c].(buffer := s.chans[c].buffer[1..],
                                                                 delivered := s.chans[c].delivered + [s.chans[c].buffer[0]])])
  {
    var ch := s.chans[c].(buffer := s.chans[c].buffer[1..], delivered := s.chans[c].delivered + [s.chans[c].buffer[0]]);
    var t := s.(chans := s.chans[c := ch]);
    assert WakeAll(t, []) == t;
    assert t.chans[c := ch] == t.chans;
  }

  lemma Continues(s: State, f: Fid)
    requires f in s.fibers && s.stack == []
    ensures Continue(s, f) == s.(fibers := s.fibers[f := s.fibers[f].(state := Running, park := NoPark, suspended := false)], stack := [f])
  {
  }

  /** A woken receiver finds the buffer empty and parks again. */
  lemma ParksAgain(s: State, f: Fid, c: Cid) returns (t: State)
    requires Reached(s) && Inv(s) && c in s.chans && ReceiverIsNext(s, c) && s.ready[0] == f
    requires s.chans[c].buffer == [] && !s.chans[c].closed && |s.chans[c].recv| < WAITER_MAX
    ensures t == s.(fibers := s.fibers[f := s.fibers[f].(queued := false, state := Waiting)],
                    chans := s.chans[c := s.chans[c].(recv := s.chans[c].recv + [f])], ready := s.ready[1..])
    ensures Takes(s, Schedule, t) && Reached(t) && Inv(t)
  {
    t := Step(s, Schedule);
    CurrentIsKnown(s);
    hide Inv, Reached;
    var fb := s.fibers[f];
    assert s.fibers[f := fb.(queued := false)][f := fb.(queued := false, state := Running)][f := fb.(queued := false, state := Waiting)]
           == s.fibers[f := fb.(queued := false, state := Waiting)];
    ReachNext(s, Schedule, t);
  }

  /** A fiber sends on a rendezvous channel with no receiver, and parks. */
  lemma SenderParks(s: State, f: Fid, c: Cid, v: nat) returns (t: State)
    requires Reached(s) && Inv(s) && s.stack == [f] && f in s.fibers && f in s.sent && c in s.chans && v != EOF_VALUE
    requires !s.chans[c].closed && s.chans[c].rendezvous && s.chans[c].recv == [] && s.chans[c].send == []
    ensures t == s.(fibers := s.fibers[f := s.fibers[f].(payload := Msg(f, s.sent[f], v), state := Waiting, park := OnSend,
                                                         waitingOn := c, suspended := true)],
                    chans := s.chans[c := s.chans[c].(send := [f])], stack := [], sent := s.sent[f := s.sent[f] + 1])
    ensures Reached(t) && Inv(t)
  {
    t := Step(s, SendTo(c, v, true));
    hide Inv, Reached, Send;
    SendParks(s, f, c, v);
    ReachNext(s, SendTo(c, v, true), t);
  }

  lemma SendParks(s: State, f: Fid, c: Cid, v: nat)
    requires s.stack == [f] && f in s.fibers && f in s.sent && c in s.chans && v != EOF_VALUE
    requires !s.chans[c].closed && s.chans[c].rendezvous && s.chans[c].recv == [] && s.chans[c].send == []
    ensures Send(s, c, v, true).0
            == s.(fibers := s.fibers[f := s.fibers[f].(payload := Msg(f, s.sent[f], v), state := Waiting, park := OnSend,
                                                       waitingOn := c, suspended := true)],
                  chans := s.chans[c := s.chans[c].(send := [f])], stack := [], sent := s.sent[f := s.sent[f] + 1])
  {
    assert [] + [f] == [f];
  }

  /** A fiber sends on a rendezvous channel and wakes its receivers. */
  lemma SenderWakes(s: State, f: Fid, c: Cid, v: nat) returns (t: State)
    requires Reached(s) && Inv(s) && s.stack == [f] && s.ready == [] && f in s.fibers && f in s.sent && c in s.chans && v != EOF_VALUE
    requires !s.chans[c].closed && s.chans[c].rendezvous && s.chans[c].recv != [] && s.chans[c].buffer == []
    ensures t == Woken(s, s.chans[c].recv).(
                   chans := s.chans[c := s.chans[c].(recv := [], buffer := [Msg(f, s.sent[f], v)])],
                   sent := s.sent[f := s.sent[f] + 1], log := s.log + [Pushed(c, Msg(f, s.sent[f], v))])
    ensures Reached(t) && Inv(t)
  {
    t := Step(s, SendTo(c, v, true));
    SideIsWakeable(s, {}, c, OnRecv);
    assert |s.chans[c].recv| <= WAITER_MAX by { assert ChanOk(s.chans[c]); }
    hide Inv, Reached, Send;
    SendWakes(s, f, c, v);
    ReachNext(s, SendTo(c, v, true), t);
  }

  lemma SendWakes(s: State, f: Fid, c: Cid, v: nat)
    requires s.stack == [f] && s.ready == [] && f in s.fibers && f in s.sent && c in s.chans && v != EOF_VALUE
    requires !s.chans[c].closed && s.chans[c].rendezvous && s.chans[c].recv != [] && s.chans[c].buffer == []
    requires Wakeable(s, s.chans[c].recv) && |s.chans[c].recv| <= WAITER_MAX
    ensures Send(s, c, v, true).0 == Woken(s, s.chans[c].recv).(
                   chans := s.chans[c := s.chans[c].(recv := [], buffer := [Msg(f, s.sent[f], v)])],
                   sent := s.sent[f := s.sent[f] + 1], log := s.log + [Pushed(c, Msg(f, s.sent[f], v))])
  {
    hide WakeAll, Woken;
    var m := Msg(f, s.sent[f], v);
    var u := CountSend(s, f);
    var ch := u.chans[c].(buffer := [m]);
    var w := u.(chans := u.chans[c := ch], log := u.log + [Pushed(c, m)]);
    assert [] + [m] == [m];
    WakeAllIsWoken(w, s.chans[c].recv);
    WokenAlike(s, w, s.chans[c].recv);
    assert w.chans[c := ch.(recv := [])] == s.chans[c := ch.(recv := [])];
  }

  lemma WokenAlike(s: State, t: State, list: seq<Fid>)
    requires s.fibers == t.fibers && s.ready == t.ready
    ensures Woken(t, list) == t.(fibers := Woken(s, list).fibers, ready := Woken(s, list).ready)
    ensures Woken(s, list) == s.(fibers := Woken(s, list).fibers, ready := Woken(s, list).ready)
  {
  }

  // ---- a receiver that parks beside a sender --------------------------------

  function Queued(): Fiber {
    NewFiber().(queued := true)
  }

  function Meeting(buffer: seq<Msg>, recv: seq<Fid>, send: seq<Fid>, delivered: seq<Msg>): Chan {
    Chan(0, true, false, buffer, recv, send, delivered)
  }

  function TwoReady(): State {
    State(map[1 := Queued(), 2 := Queued()], map[0 := Meeting([], [], [], [])], [1, 2], [], map[MAIN := 0, 1 := 0, 2 := 0], [])
  }

  function ChannelOnly(): State {
    State(map[], map[0 := Meeting([], [], [], [])], [], [], map[MAIN := 0], [])
  }

  lemma ChannelOnlyReached()
    ensures Reached(ChannelOnly()) && Inv(ChannelOnly())
  {
    InitInv();
    ReachedInit();
    ReachNext(Init(), NewChannel(0, 0, true), ChannelOnly());
  }

  lemma TwoReadyReached()
    ensures Reached(TwoReady()) && Inv(TwoReady())
  {
    hide Inv, Reached;
    ChannelOnlyReached();
    var s := ChannelOnly();
    var t := State(map[1 := Queued()], s.chans, [1], [], map[MAIN := 0, 1 := 0], []);
    ReachNext(s, SpawnFiber(1), t);
    ReachNext(t, SpawnFiber(2), TwoReady());
  }

  function SenderParked(): State {
    State(map[1 := Fiber(Waiting, OnSend, 0, Msg(1, 0, 7), false, true), 2 := Queued()],
          map[0 := Meeting([], [], [1], [])], [2], [], map[MAIN := 0, 1 := 1, 2 := 0], [])
  }

  lemma SenderParkedReached()
    ensures Reached(SenderParked()) && Inv(SenderParked())
  {
    hide Inv, Reached;
    TwoReadyReached();
    var s := TwoReady();
    var t := s.(fibers := s.fibers[1 := Queued().(state := Running, queued := false)], ready := [2], stack := [1]);
    ReachNext(s, Schedule, t);
    ReachNext(t, SendTo(0, 7, true), SenderParked());
  }

  function BothParked(): State {
    State(map[1 := Fiber(Waiting, OnSend, 0, Msg(1, 0, 7), false, true),
              2 := Fiber(Waiting, OnRecv, 0, Msg(MAIN, 0, 5), false, true)],
          map[0 := Meeting([], [2], [1], [])], [], [], map[MAIN := 0, 1 := 1, 2 := 0], [])
  }

  /** The sender parks first, then the receiver, and they wait for each other for
      ever: nothing is queued, nothing runs. */
  lemma SenderFirstDeadlocks()
    ensures Reached(BothParked()) && Still(BothParked()) && Missed(BothParked().chans[0])
  {
    hide Inv, Reached;
    SenderParkedReached();
    var s := SenderParked();
    var t := s.(fibers := s.fibers[2 := Queued().(state := Running, queued := false)], ready := [], stack := [2]);
    ReachNext(s, Schedule, t);
    ReachNext(t, ReceiveFrom(0, true), BothParked());
  }

  // ---- a woken receiver that parks again beside a sender ----------------------

  function Receiver(state: FiberState, queued: bool): Fiber {
    Fiber(state, OnRecv, 0, Msg(MAIN, 0, 5), queued, true)
  }

  function AllReady(): State {
    State(map[1 := Queued(), 2 := Queued(), 3 := Queued()], map[0 := Meeting([], [], [], [])], [1, 2, 3], [],
          map[MAIN := 0, 1 := 0, 2 := 0, 3 := 0], [])
  }

  function TwoReceivers(): State {
    State(map[1 := Receiver(Waiting, false), 2 := Receiver(Waiting, false), 3 := Queued()],
          map[0 := Meeting([], [1, 2], [], [])], [3], [], map[MAIN := 0, 1 := 0, 2 := 0, 3 := 0], [])
  }

  lemma TwoReceiversReached()
    ensures Reached(TwoReceivers()) && Inv(TwoReceivers())
  {
    hide Inv, Reached;
    AllReadyReached();
    var s1 := Starts(AllReady(), 1);
    var s2 := Parks(s1, 1, 0);
    var s3 := Starts(s2, 2);
    var s4 := Parks(s3, 2, 0);
    assert [] + [1] == [1] && [1] + [2] == [1, 2];
    assert s4.fibers == TwoReceivers().fibers && s4.chans == TwoReceivers().chans;
    assert s4 == TwoReceivers();
  }

  lemma AllReadyReached()
    ensures Reached(AllReady()) && Inv(AllReady())
  {
    hide Inv, Reached;
    TwoReadyReached();
    ReachNext(TwoReady(), SpawnFiber(3), AllReady());
  }

  const SEVEN := Msg(3, 0, 7)

  /** The third fiber has sent 7 and is over; both receivers were woken. */
  function BothWoken(): State {
    State(map[1 := Receiver(Ready, true), 2 := Receiver(Ready, true), 3 := NewFiber().(state := Done)],
          map[0 := Meeting([SEVEN], [], [], [])], [1, 2], [], map[MAIN := 0, 1 := 0, 2 := 0, 3 := 1], [Pushed(0, SEVEN)])
  }

  lemma BothWokenReached()
    ensures Reached(BothWoken()) && Inv(BothWoken())
  {
    hide Inv, Reached;
    TwoReceiversReached();
    var s1 := Starts(TwoReceivers(), 3);
    var s2 := SenderWakes(s1, 3, 0, 7);
    var s3 := s2.(fibers := s2.fibers[3 := s2.fibers[3].(state := Done, suspended := false)], stack := []);
    ReachNext(s2, FinishCurrent(true), s3);
    assert s3.fibers == BothWoken().fibers;
    assert s3 == BothWoken();
  }

  /** The first receiver took 7 and now sends 9: it parks, for nobody waits. */
  function SenderAgain(): State {
    State(map[1 := Fiber(Waiting, OnSend, 0, Msg(1, 0, 9), false, true), 2 := Receiver(Ready, true), 3 := NewFiber().(state := Done)],
          map[0 := Meeting([], [], [1], [SEVEN])], [2], [], map[MAIN := 0, 1 := 1, 2 := 0, 3 := 1], [Pushed(0, SEVEN)])
  }

  lemma SenderAgainReached()
    ensures Reached(SenderAgain()) && Inv(SenderAgain())
  {
    hide Inv, Reached;
    BothWokenReached();
    var s1 := TakesMessage(BothWoken(), 1, 0);
    var s2 := SenderParks(s1, 1, 0, 9);
    assert s2.fibers == SenderAgain().fibers && [SEVEN][1..] == [] && [] + [SEVEN] == [SEVEN] && [1, 2][1..] == [2];
    assert s2.chans == SenderAgain().chans && s2.sent == SenderAgain().sent;
    assert s2 == SenderAgain();
  }

  function MissedAgain(): State {
    State(map[1 := Fiber(Waiting, OnSend, 0, Msg(1, 0, 9), false, true), 2 := Receiver(Waiting, false), 3 := NewFiber().(state := Done)],
          map[0 := Meeting([], [2], [1], [SEVEN])], [], [], map[MAIN := 0, 1 := 1, 2 := 0, 3 := 1], [Pushed(0, SEVEN)])
  }

  /** The second receiver was woken for 7, finds nothing and parks again beside
      the sender: no receive was begun, and they miss each other for ever. */
  lemma WokenReceiverMisses()
    ensures Inv(SenderAgain()) && Takes(SenderAgain(), Schedule, MissedAgain())
    ensures Reached(MissedAgain()) && Still(MissedAgain()) && Missed(MissedAgain().chans[0])
  {
    hide Inv, Reached;
    SenderAgainReached();
    var t := ParksAgain(SenderAgain(), 2, 0);
    assert t.fibers == MissedAgain().fibers && [] + [2] == [2];
    assert t == MissedAgain();
  }

  // ---- a full ready queue -----------------------------------------------------

  /** A plain channel on which the first fiber waits, and n more fibers queued. */
  ghost predicate OneWaits(s: State, n: nat) {
    && Inv(s) && s.stack == [] && |s.ready| == n
    && (forall f :: f in s.fibers <==> 1 <= f <= n + 1)
    && s.fibers[1] == Receiver(Waiting, false)
    && s.chans == map[0 := Chan(1, false, false, [], [1], [], [])]
  }

  lemma OneWaitsReached()
    returns (s: State)
    ensures Reached(s) && OneWaits(s, 0)
  {
    hide Inv, Reached;
    InitInv();
    ReachedInit();
    var plain := Chan(1, false, false, [], [], [], []);
    var s1 := Init().(chans := map[0 := plain]);
    ReachNext(Init(), NewChannel(0, 1, false), s1);
    var s2 := s1.(fibers := map[1 := Queued()], ready := [1], sent := map[MAIN := 0, 1 := 0]);
    ReachNext(s1, SpawnFiber(1), s2);
    var s3 := Starts(s2, 1);
    s := Parks(s3, 1, 0);
    assert [] + [1] == [1];
  }

  lemma {:induction false} ManyQueued(n: nat) returns (s: State)
    requires n <= READY_MAX
    ensures Reached(s) && OneWaits(s, n)
  {
    hide Inv, Reached;
    if n == 0 {
      s := OneWaitsReached();
    } else {
      var r := ManyQueued(n - 1);
      assert n + 1 !in r.fibers;
      s := Step(r, SpawnFiber(n + 1));
      ReachNext(r, SpawnFiber(n + 1), s);
    }
  }

  /** A reachable state whose queue is full: the send that wakes the waiting fiber
      loses it, and the invariant with it. */
  lemma FullQueueLosesAFiber() returns (s: State)
    ensures Reached(s) && Inv(s) && |s.ready| == READY_MAX
    ensures Enabled(s, SendTo(0, 7, true)) && !Fits(s, SendTo(0, 7, true)) && !Inv(Step(s, SendTo(0, 7, true)))
    ensures var t := Step(s, SendTo(0, 7, true)); 1 in t.fibers && t.fibers[1].state.Ready? && 1 !in t.ready
  {
    s := ManyQueued(READY_MAX);
    StepKeepsInvIff(s, SendTo(0, 7, true));
    CurrentIsKnown(s);
    SendOverflows(s);
    SendLoses(s);
  }

  lemma SendOverflows(s: State)
    requires OneWaits(s, READY_MAX)
    ensures Enabled(s, SendTo(0, 7, true)) && !Fits(s, SendTo(0, 7, true))
  {
    hide Inv;
  }

  lemma SendLoses(s: State)
    requires OneWaits(s, READY_MAX)
    ensures var t := Step(s, SendTo(0, 7, true)); 1 in t.fibers && t.fibers[1].state.Ready? && 1 !in t.ready
  {
    CurrentIsKnown(s);
    SideIsWakeable(s, {}, 0, OnRecv);
    hide Inv, WakeAll;
    var m := Msg(MAIN, s.sent[MAIN], 7);
    var u := CountSend(s, MAIN);
    WakeAllLosesTheLast(u.(chans := u.chans[0 := u.chans[0].(buffer := [m])], log := u.log + [Pushed(0, m)]), [1]);
    assert [] + [m] == [m];
  }
}
