/** What the scheduler and the channels keep between steps, and how each
    primitive move keeps it. */
module FiberInv {
  import opened FiberSpec

  // ---- the invariant ----------------------------------------------------

  ghost predicate NoDup<T>(s: seq<T>) {
    forall i, j :: 0 <= i < j < |s| ==> s[i] != s[j]
  }

  /** The ready queue holds exactly the ready fibers and the stack exactly the
      running ones, once each; `hand` are fibers just taken off the queue. */
  ghost predicate Scheduled(s: State, hand: set<Fid>) {
    && NoDup(s.ready) && NoDup(s.stack) && |s.ready| <= READY_MAX
    && MAIN !in s.fibers
    && (forall f <- s.ready :: f in s.fibers)
    && (forall f <- s.stack :: f in s.fibers)
    && hand <= s.fibers.Keys
    && (forall f <- hand :: f !in s.stack)
    && forall f <- s.fibers ::
         && (f in s.ready <==> s.fibers[f].state.Ready?)
         && (f in s.ready <==> s.fibers[f].queued)
         && (f in s.stack || f in hand <==> s.fibers[f].state.Running?)
  }

  /** A fiber with a snapshot knows the channel it waits for and is queued,
      listed or in hand; one that waits has a snapshot. */
  ghost predicate SnapshotsOk(s: State, hand: set<Fid>) {
    forall f <- s.fibers ::
      && (s.fibers[f].state.Waiting? ==> s.fibers[f].suspended)
      && (s.fibers[f].suspended <==> !s.fibers[f].park.NoPark?)
      && (s.fibers[f].suspended ==>
            && s.fibers[f].waitingOn in s.chans
            && (s.fibers[f].state.Ready? || s.fibers[f].state.Waiting? || f in hand))
  }

  ghost predicate WaitsIn(s: State, f: Fid, c: Cid, park: Park) {
    f in s.fibers && s.fibers[f].state.Waiting? && s.fibers[f].waitingOn == c && s.fibers[f].park == park
  }

  /** The waiter lists hold exactly the waiting fibers, each on the list of its
      own channel and operation, once. */
  ghost predicate Listed(s: State) {
    forall c <- s.chans ::
      && NoDup(s.chans[c].recv) && NoDup(s.chans[c].send)
      && |s.chans[c].recv| <= WAITER_MAX && |s.chans[c].send| <= WAITER_MAX
      && (forall f :: f in s.chans[c].recv <==> WaitsIn(s, f, c, OnRecv))
      && (forall f :: f in s.chans[c].send <==> WaitsIn(s, f, c, OnSend))
  }

  /** Receivers wait only on an empty open channel, senders only on a full open
      one, and no channel holds more than it may. */
  ghost predicate ChanOk(ch: Chan) {
    && (ch.recv != [] ==> ch.buffer == [] && !ch.closed)
    && (ch.send != [] ==> !ch.closed)
    && (ch.send != [] && !ch.rendezvous ==> ch.capacity > 0 && |ch.buffer| == ch.capacity)
    && (!ch.rendezvous && ch.capacity > 0 ==> |ch.buffer| <= ch.capacity)
    && (ch.rendezvous ==> |ch.buffer| <= 1)
  }

  ghost predicate ChansOk(s: State) {
    forall c <- s.chans :: ChanOk(s.chans[c])
  }

  /** The messages the history pushed on a channel, in order. */
  ghost function PushedOn(log: seq<Entry>, c: Cid): (r: seq<Msg>)
    ensures |r| <= |log|
  {
    if log == [] then [] else
      var rest := PushedOn(log[..|log| - 1], c);
      match log[|log| - 1]
      case Pushed(d, m) => if d == c then rest + [m] else rest
      case Refused(_) => rest
  }

  /** The numbers of one sender's finished sends, in order. */
  ghost function NumbersOf(log: seq<Entry>, f: Fid): (r: seq<nat>)
    ensures |r| <= |log|
  {
    if log == [] then [] else
      var rest := NumbersOf(log[..|log| - 1], f);
      var m := log[|log| - 1].msg;
      if m.sender == f then rest + [m.number] else rest
  }

  /** What was pushed on a channel is what came out of it, then what is in it. */
  ghost predicate Fifo(s: State) {
    && (forall c <- s.chans :: PushedOn(s.log, c) == s.chans[c].delivered + s.chans[c].buffer)
    && (forall e <- s.log :: e.Pushed? ==> e.chan in s.chans)
  }

  /** A sender parked in a send has one send that is not over. */
  function Outstanding(s: State, f: Fid): nat {
    if f in s.fibers && s.fibers[f].park.OnSend? then 1 else 0
  }

  /** Every send of the sender is over exactly once and in order, but for the
      one it is parked in, whose message it holds. */
  ghost predicate AccountOf(s: State, f: Fid)
    requires f in s.sent
  {
    && s.sent[f] >= Outstanding(s, f)
    && NumbersOf(s.log, f) == seq(s.sent[f] - Outstanding(s, f), i => i)
    && (Outstanding(s, f) == 1 ==>
          s.fibers[f].payload.sender == f && s.fibers[f].payload.number == s.sent[f] - 1)
  }

  ghost predicate Accounted(s: State) {
    && s.sent.Keys == s.fibers.Keys + {MAIN}
    && (forall e <- s.log :: e.msg.sender in s.sent)
    && forall f <- s.sent :: AccountOf(s, f)
  }

  /** Scheduling part of the invariant, with fibers in hand. */
  ghost predicate Core(s: State, hand: set<Fid>) {
    Scheduled(s, hand) && SnapshotsOk(s, hand) && Listed(s)
  }

  ghost predicate Inv(s: State) {
    Core(s, {}) && ChansOk(s) && Fifo(s) && Accounted(s)
  }

  // ---- waking -----------------------------------------------------------

  predicate WakeOverflows(s: State, list: seq<Fid>) {
    |s.ready| + |list| > READY_MAX
  }

  /** What waking a list comes to when the queue has room for all of it. */
  function Woken(s: State, list: seq<Fid>): State {
    s.(ready := s.ready + list,
       fibers := map f | f in s.fibers ::
         if f in list then s.fibers[f].(state := Ready, queued := true) else s.fibers[f])
  }

  ghost predicate Wakeable(s: State, list: seq<Fid>) {
    NoDup(list) && forall f <- list :: f in s.fibers && s.fibers[f].state.Waiting? && !s.fibers[f].queued && f !in s.ready
  }

  lemma WokenOneMore(s: State, front: seq<Fid>, last: Fid)
    requires last in s.fibers && last !in front && s.fibers[last].state.Waiting? && !s.fibers[last].queued
    requires !WakeOverflows(s, front + [last])
    ensures Wake(Woken(s, front), last) == Woken(s, front + [last])
  {
    assert Wake(Woken(s, front), last).fibers == Woken(s, front + [last]).fibers;
  }

  lemma {:induction false} WakeAllIsWoken(s: State, list: seq<Fid>)
    requires Wakeable(s, list) && !WakeOverflows(s, list)
    ensures WakeAll(s, list) == Woken(s, list)
  {
    if list == [] {
      assert Woken(s, list).fibers == s.fibers;
    } else {
      hide Wake, Woken;
      var front, last := list[..|list| - 1], list[|list| - 1];
      assert list == front + [last];
      WakeAllIsWoken(s, front);
      WokenOneMore(s, front, last);
    }
  }

  lemma {:induction false} WakeAllBounds(s: State, list: seq<Fid>)
    requires Wakeable(s, list) && |s.ready| <= READY_MAX
    ensures var t := WakeAll(s, list);
            && |t.ready| == (if WakeOverflows(s, list) then READY_MAX else |s.ready| + |list|)
            && (forall f <- t.ready :: f in s.ready || f in list)
            && (forall f :: f in s.fibers && f !in list ==> t.fibers[f] == s.fibers[f])
  {
    if list != [] {
      var front := list[..|list| - 1];
      assert forall f <- front :: f in list;
      WakeAllBounds(s, front);
    }
  }

  /** Waking changes state and queue mark only, and those of waiting fibers. */
  lemma {:induction false} WakeAllKeepsFields(s: State, list: seq<Fid>)
    ensures var t := WakeAll(s, list);
            forall f <- s.fibers ::
              && t.fibers[f] == s.fibers[f].(state := t.fibers[f].state, queued := t.fibers[f].queued)
              && (!s.fibers[f].state.Waiting? ==> t.fibers[f] == s.fibers[f])
  {
    if list != [] {
      WakeAllKeepsFields(s, list[..|list| - 1]);
    }
  }

  /** When the queue is too short, the last fiber of the list is made ready and
      put nowhere. */
  lemma {:induction false} WakeAllLosesTheLast(s: State, list: seq<Fid>)
    requires Wakeable(s, list) && |s.ready| <= READY_MAX && WakeOverflows(s, list)
    ensures list != []
    ensures var t := WakeAll(s, list); var f := list[|list| - 1];
            f in t.fibers && t.fibers[f].state.Ready? && f !in t.ready
  {
    var front := list[..|list| - 1];
    assert forall f <- front :: f in list;
    WakeAllBounds(s, front);
  }

  /** The waiters of one side of a channel, taken off their list and woken. */
  function WakeSide(s: State, c: Cid, park: Park): State
    requires c in s.chans && !park.NoPark?
  {
    if park.OnRecv? then WakeRecv(s, c) else WakeSend(s, c)
  }

  function Side(ch: Chan, park: Park): seq<Fid>
    requires !park.NoPark?
  {
    if park.OnRecv? then ch.recv else ch.send
  }

  function ClearSide(ch: Chan, park: Park): Chan
    requires !park.NoPark?
  {
    if park.OnRecv? then ch.(recv := []) else ch.(send := [])
  }

  lemma SideIsWakeable(s: State, hand: set<Fid>, c: Cid, park: Park)
    requires Core(s, hand) && c in s.chans && !park.NoPark?
    ensures Wakeable(s, Side(s.chans[c], park))
  {
    forall f <- Side(s.chans[c], park)
      ensures f in s.fibers && s.fibers[f].state.Waiting? && !s.fibers[f].queued && f !in s.ready
    {
      assert WaitsIn(s, f, c, park);
    }
  }

  lemma WakeSideIs(s: State, hand: set<Fid>, c: Cid, park: Park)
    requires Core(s, hand) && c in s.chans && !park.NoPark?
    requires !WakeOverflows(s, Side(s.chans[c], park))
    ensures WakeSide(s, c, park)
         == Woken(s, Side(s.chans[c], park)).(chans := s.chans[c := ClearSide(s.chans[c], park)])
  {
    SideIsWakeable(s, hand, c, park);
    WakeAllIsWoken(s, Side(s.chans[c], park));
  }

  lemma AppendNoDup<T>(a: seq<T>, b: seq<T>)
    requires NoDup(a) && NoDup(b) && forall x <- a :: x !in b
    ensures NoDup(a + b)
  {
    forall i, j | 0 <= i < j < |a + b| ensures (a + b)[i] != (a + b)[j] {
      if i < |a| && j >= |a| {
        assert a[i] !in b && b[j - |a|] in b;
      }
    }
  }

  lemma WakeKeepsScheduled(s: State, hand: set<Fid>, c: Cid, park: Park)
    requires Core(s, hand) && c in s.chans && !park.NoPark?
    requires !WakeOverflows(s, Side(s.chans[c], park))
    ensures Scheduled(WakeSide(s, c, park), hand)
  {
    var list := Side(s.chans[c], park);
    SideIsWakeable(s, hand, c, park);
    WakeSideIs(s, hand, c, park);
    AppendNoDup(s.ready, list);
    var t := WakeSide(s, c, park);
    forall f <- t.fibers
      ensures f in t.ready <==> t.fibers[f].state.Ready?
      ensures f in t.ready <==> t.fibers[f].queued
      ensures f in t.stack || f in hand <==> t.fibers[f].state.Running?
    {
      assert f in t.ready <==> f in s.ready || f in list;
    }
  }

  lemma WakeKeepsParked(s: State, hand: set<Fid>, c: Cid, park: Park)
    requires Core(s, hand) && c in s.chans && !park.NoPark?
    requires !WakeOverflows(s, Side(s.chans[c], park))
    ensures SnapshotsOk(WakeSide(s, c, park), hand)
  {
    WakeSideIs(s, hand, c, park);
  }

  lemma WakeKeepsListed(s: State, hand: set<Fid>, c: Cid, park: Park)
    requires Core(s, hand) && c in s.chans && !park.NoPark?
    requires !WakeOverflows(s, Side(s.chans[c], park))
    ensures Listed(WakeSide(s, c, park))
  {
    WakeSideIs(s, hand, c, park);
    var t := WakeSide(s, c, park);
    var list := Side(s.chans[c], park);
    forall d, q: Park, f | d in t.chans && !q.NoPark?
      ensures f in Side(t.chans[d], q) <==> WaitsIn(t, f, d, q)
    {
      assert f in list <==> WaitsIn(s, f, c, park);
      assert f in Side(s.chans[d], q) <==> WaitsIn(s, f, d, q);
    }
    forall d <- t.chans
      ensures forall f :: f in t.chans[d].recv <==> WaitsIn(t, f, d, OnRecv)
      ensures forall f :: f in t.chans[d].send <==> WaitsIn(t, f, d, OnSend)
    {
      assert Side(t.chans[d], OnRecv) == t.chans[d].recv && Side(t.chans[d], OnSend) == t.chans[d].send;
    }
  }

  /** A ready fiber that is not queued: it will never run. */
  ghost predicate LosesAReadyFiber(s: State) {
    exists f :: f in s.fibers && s.fibers[f].state.Ready? && f !in s.ready
  }

  /** Waking keeps the scheduling invariant exactly when the queue has room. */
  lemma WakeKeepsCoreIff(s: State, hand: set<Fid>, c: Cid, park: Park)
    requires Core(s, hand) && c in s.chans && !park.NoPark?
    ensures Core(WakeSide(s, c, park), hand) <==> !WakeOverflows(s, Side(s.chans[c], park))
    ensures WakeOverflows(s, Side(s.chans[c], park)) ==> LosesAReadyFiber(WakeSide(s, c, park))
  {
    var list := Side(s.chans[c], park);
    SideIsWakeable(s, hand, c, park);
    if WakeOverflows(s, list) {
      WakeAllLosesTheLast(s, list);
    } else {
      WakeKeepsScheduled(s, hand, c, park);
      WakeKeepsParked(s, hand, c, park);
      WakeKeepsListed(s, hand, c, park);
    }
  }
}
