/** How each move of a fiber keeps the invariant, or exactly when it does not. */
module FiberMoves {
  import opened FiberSpec
  import opened FiberInv

  // ---- moves that leave scheduling alone ---------------------------------

  /** The two states schedule alike: they differ in what is carried only. */
  ghost predicate SchedulesAlike(s: State, t: State) {
    && t.ready == s.ready && t.stack == s.stack
    && t.fibers.Keys == s.fibers.Keys && t.chans.Keys == s.chans.Keys
    && (forall f <- s.fibers :: t.fibers[f] == s.fibers[f].(payload := t.fibers[f].payload))
    && (forall c <- s.chans :: t.chans[c].recv == s.chans[c].recv && t.chans[c].send == s.chans[c].send)
  }

  lemma AlikeKeepsListed(s: State, t: State)
    requires Listed(s) && SchedulesAlike(s, t)
    ensures Listed(t)
  {
    forall c <- t.chans
      ensures forall f :: f in t.chans[c].recv <==> WaitsIn(t, f, c, OnRecv)
      ensures forall f :: f in t.chans[c].send <==> WaitsIn(t, f, c, OnSend)
    {
      assert forall f :: WaitsIn(t, f, c, OnRecv) <==> WaitsIn(s, f, c, OnRecv);
      assert forall f :: WaitsIn(t, f, c, OnSend) <==> WaitsIn(s, f, c, OnSend);
    }
  }

  lemma AlikeKeepsCore(s: State, t: State, hand: set<Fid>)
    requires Core(s, hand) && SchedulesAlike(s, t)
    ensures Core(t, hand)
  {
    AlikeKeepsListed(s, t);
  }

  // ---- pushing, popping and closing --------------------------------------

  lemma PushKeepsCoreIff(s: State, hand: set<Fid>, c: Cid, m: Msg)
    requires Core(s, hand) && c in s.chans
    ensures Core(PushMsg(s, c, m), hand) <==> !WakeOverflows(s, s.chans[c].recv)
    ensures WakeOverflows(s, s.chans[c].recv) ==> LosesAReadyFiber(PushMsg(s, c, m))
  {
    var ch := s.chans[c];
    var u := s.(chans := s.chans[c := ch.(buffer := ch.buffer + [m])], log := s.log + [Pushed(c, m)]);
    AlikeKeepsCore(s, u, hand);
    WakeKeepsCoreIff(u, hand, c, OnRecv);
    assert PushMsg(s, c, m) == WakeSide(u, c, OnRecv);
  }

  lemma PopKeepsCoreIff(s: State, hand: set<Fid>, c: Cid)
    requires Core(s, hand) && c in s.chans && s.chans[c].buffer != []
    ensures Core(PopMsg(s, c), hand) <==> !WakeOverflows(s, s.chans[c].send)
    ensures WakeOverflows(s, s.chans[c].send) ==> LosesAReadyFiber(PopMsg(s, c))
  {
    var ch := s.chans[c];
    var u := s.(chans := s.chans[c := ch.(buffer := ch.buffer[1..], delivered := ch.delivered + [ch.buffer[0]])]);
    AlikeKeepsCore(s, u, hand);
    WakeKeepsCoreIff(u, hand, c, OnSend);
    assert PopMsg(s, c) == WakeSide(u, c, OnSend);
  }

  lemma WakeKeepsLost(s: State, list: seq<Fid>, f: Fid)
    requires f in s.fibers && s.fibers[f].state.Ready? && f !in s.ready
    requires f !in list
    ensures var t := WakeAll(s, list); t.fibers[f].state.Ready? && f !in t.ready
  {
    if list != [] {
      WakeKeepsLost(s, list[..|list| - 1], f);
      assert list[|list| - 1] in list;
    }
  }

  lemma CloseKeepsCoreIff(s: State, c: Cid)
    requires Core(s, {}) && c in s.chans && !s.chans[c].closed
    ensures Core(Close(s, c), {}) <==> !WakeOverflows(s, s.chans[c].recv + s.chans[c].send)
  {
    var u := s.(chans := s.chans[c := s.chans[c].(closed := true)]);
    AlikeKeepsCore(s, u, {});
    var v := WakeRecv(u, c);
    WakeKeepsCoreIff(u, {}, c, OnRecv);
    assert v == WakeSide(u, c, OnRecv);
    if WakeOverflows(u, u.chans[c].recv) {
      var list := u.chans[c].recv;
      SideIsWakeable(u, {}, c, OnRecv);
      WakeAllLosesTheLast(u, list);
      var f := list[|list| - 1];
      assert f in list && WaitsIn(u, f, c, OnRecv) && !WaitsIn(u, f, c, OnSend);
      WakeKeepsLost(v, v.chans[c].send, f);
    } else {
      WakeSideIs(u, {}, c, OnRecv);
      WakeKeepsCoreIff(v, {}, c, OnSend);
      assert Close(s, c) == WakeSide(v, c, OnSend);
    }
  }

  // ---- parking and resuming ----------------------------------------------

  lemma ParkKeepsScheduled(s: State, c: Cid, park: Park)
    requires Core(s, {}) && c in s.chans && s.stack != [] && !park.NoPark?
    ensures Scheduled(ParkCurrent(s, c, park), {})
    ensures SnapshotsOk(ParkCurrent(s, c, park), {})
  {
    var t := ParkCurrent(s, c, park);
    var f := Current(s);
    assert forall g :: g in t.stack <==> g in s.stack && g != f by {
      assert s.stack == t.stack + [f];
      assert f !in t.stack;
    }
  }

  lemma ParkKeepsListed(s: State, c: Cid, park: Park)
    requires Core(s, {}) && c in s.chans && s.stack != [] && !park.NoPark?
    requires |Side(s.chans[c], park)| < WAITER_MAX
    ensures Listed(ParkCurrent(s, c, park))
  {
    var t := ParkCurrent(s, c, park);
    var f := Current(s);
    assert f in s.stack && s.fibers[f].state.Running?;
    ListJoined(s, t, f, c, park);
  }

  /** One fiber starts to wait on one list; every other keeps its place. */
  lemma ListJoined(s: State, t: State, f: Fid, c: Cid, park: Park)
    requires Listed(s) && c in s.chans && !park.NoPark? && |Side(s.chans[c], park)| < WAITER_MAX
    requires f in s.fibers && !s.fibers[f].state.Waiting?
    requires WaitsIn(t, f, c, park) && t.fibers == s.fibers[f := t.fibers[f]]
    requires c in t.chans && t.chans == s.chans[c := t.chans[c]]
    requires Side(t.chans[c], park) == Side(s.chans[c], park) + [f]
    requires t.chans[c] == if park.OnRecv? then s.chans[c].(recv := t.chans[c].recv) else s.chans[c].(send := t.chans[c].send)
    ensures Listed(t)
  {
    forall d, q: Park, g | d in t.chans && !q.NoPark?
      ensures g in Side(t.chans[d], q) <==> WaitsIn(t, g, d, q)
    {
      assert g in Side(s.chans[d], q) <==> WaitsIn(s, g, d, q);
      assert !WaitsIn(s, f, d, q);
    }
    forall d <- t.chans
      ensures NoDup(t.chans[d].recv) && NoDup(t.chans[d].send)
      ensures forall g :: g in t.chans[d].recv <==> WaitsIn(t, g, d, OnRecv)
      ensures forall g :: g in t.chans[d].send <==> WaitsIn(t, g, d, OnSend)
    {
      assert !WaitsIn(s, f, d, OnRecv) && !WaitsIn(s, f, d, OnSend);
      assert Side(t.chans[d], OnRecv) == t.chans[d].recv && Side(t.chans[d], OnSend) == t.chans[d].send;
    }
  }

  /** The fiber at the head of the queue, taken in hand to run. */
  function Taken(s: State): State
    requires s.ready != [] && s.ready[0] in s.fibers
  {
    var f := s.ready[0];
    var t := Dequeue(s);
    t.(fibers := t.fibers[f := t.fibers[f].(state := Running)])
  }

  lemma TakeKeepsCore(s: State)
    requires Core(s, {}) && s.ready != []
    ensures Core(Taken(s), {s.ready[0]})
  {
    var f, t := s.ready[0], Taken(s);
    assert f in s.ready && s.fibers[f].state.Ready?;
    assert forall g :: g in t.ready <==> g in s.ready && g != f by {
      assert s.ready == [f] + t.ready;
      assert f !in t.ready;
    }
    forall c <- t.chans
      ensures forall g :: g in t.chans[c].recv <==> WaitsIn(t, g, c, OnRecv)
      ensures forall g :: g in t.chans[c].send <==> WaitsIn(t, g, c, OnSend)
    {
      assert forall g, q :: WaitsIn(t, g, c, q) <==> WaitsIn(s, g, c, q);
    }
  }

  lemma ContinueKeepsCoreIff(s: State, f: Fid)
    requires f in s.fibers && s.fibers[f].state.Running? && f !in s.stack
    requires Core(s, {f}) || LosesAReadyFiber(s)
    ensures Core(Continue(s, f), {}) <==> Core(s, {f})
  {
    var t := Continue(s, f);
    if LosesAReadyFiber(s) {
      var g :| g in s.fibers && s.fibers[g].state.Ready? && g !in s.ready;
      assert t.fibers[g].state.Ready? && g !in t.ready;
    } else {
      assert NoDup(t.stack);
      forall c <- t.chans
        ensures forall g :: g in t.chans[c].recv <==> WaitsIn(t, g, c, OnRecv)
        ensures forall g :: g in t.chans[c].send <==> WaitsIn(t, g, c, OnSend)
      {
        assert forall g, q :: WaitsIn(t, g, c, q) <==> WaitsIn(s, g, c, q);
      }
    }
  }

  lemma ReparkKeepsCoreIff(s: State, f: Fid)
    requires Core(s, {f}) && s.fibers[f].suspended
    ensures Core(Repark(s, f), {}) <==>
            |Side(s.chans[s.fibers[f].waitingOn], s.fibers[f].park)| < WAITER_MAX
  {
    var c, park := s.fibers[f].waitingOn, s.fibers[f].park;
    var t := Repark(s, f);
    if |Side(s.chans[c], park)| < WAITER_MAX {
      ListJoined(s, t, f, c, park);
    } else {
      assert !WaitsIn(s, f, c, park);
      assert f !in Side(s.chans[c], park);
      assert WaitsIn(t, f, c, park);
      assert t.chans == s.chans;
    }
  }

  // ---- finishing, spawning, new channels ----------------------------------

  lemma FinishKeepsCore(s: State, ok: bool)
    requires Core(s, {}) && s.stack != []
    ensures Core(Finish(s, ok), {})
  {
    var f, t := Current(s), Finish(s, ok);
    assert f in s.stack && s.fibers[f].state.Running? && !s.fibers[f].suspended;
    assert forall g :: g in t.stack <==> g in s.stack && g != f by {
      assert s.stack == t.stack + [f];
      assert f !in t.stack;
    }
    forall c <- t.chans
      ensures forall g :: g in t.chans[c].recv <==> WaitsIn(t, g, c, OnRecv)
      ensures forall g :: g in t.chans[c].send <==> WaitsIn(t, g, c, OnSend)
    {
      assert forall g, q :: WaitsIn(t, g, c, q) <==> WaitsIn(s, g, c, q);
    }
  }

  lemma SpawnKeepsCore(s: State, f: Fid)
    requires Core(s, {}) && f !in s.fibers && f != MAIN
    ensures Core(Spawn(s, f).0, {})
  {
    var t := Spawn(s, f).0;
    if |s.ready| < READY_MAX {
      assert f !in s.ready && f !in s.stack;
      assert t.ready == s.ready + [f];
      forall c <- t.chans
        ensures forall g :: g in t.chans[c].recv <==> WaitsIn(t, g, c, OnRecv)
        ensures forall g :: g in t.chans[c].send <==> WaitsIn(t, g, c, OnSend)
      {
        assert forall g, q :: WaitsIn(t, g, c, q) <==> WaitsIn(s, g, c, q);
      }
    }
  }

  lemma MakeChannelKeepsCore(s: State, c: Cid, capacity: nat, rendezvous: bool)
    requires Core(s, {}) && c !in s.chans
    ensures Core(MakeChannel(s, c, capacity, rendezvous), {})
  {
    var t := MakeChannel(s, c, capacity, rendezvous);
    forall d <- t.chans
      ensures forall g :: g in t.chans[d].recv <==> WaitsIn(t, g, d, OnRecv)
      ensures forall g :: g in t.chans[d].send <==> WaitsIn(t, g, d, OnSend)
    {
      assert forall g, q :: WaitsIn(t, g, d, q) <==> WaitsIn(s, g, d, q);
      if d == c {
        forall g, q ensures !WaitsIn(s, g, d, q) {
          if g in s.fibers && s.fibers[g].state.Waiting? {
            assert s.fibers[g].waitingOn in s.chans;
          }
        }
      }
    }
  }
}
