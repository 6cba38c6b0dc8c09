/** The fiber runtime and its channels as objects, updated in place. */
module Fibers {
  import opened FiberSpec
  import opened FiberHistory
  import opened FiberInv
  import opened FiberRing

  const UNBOUNDED_START := 8
  const NO_MSG := Msg(MAIN, 0, 5)

  class Channel {
    const id: Cid
    const capacity: nat
    const rendezvous: bool
    const ring: Ring<Msg>
    var closed: bool
    var recvWaiters: seq<Fid>
    var sendWaiters: seq<Fid>
    ghost var delivered: seq<Msg>

    ghost predicate Valid()
      reads this, ring
    {
      && ring.Valid()
      && (!rendezvous && capacity > 0 ==> ring.items.Length == capacity)
    }

    ghost function View(): Chan
      reads this, ring, ring.items
      requires Valid()
    {
      Chan(capacity, rendezvous, closed, ring.Contents(), recvWaiters, sendWaiters, delivered)
    }

    constructor (id: Cid, capacity: nat, rendezvous: bool)
      ensures Valid() && this.id == id && fresh(ring) && fresh(ring.items)
      ensures View() == Chan(capacity, rendezvous, false, [], [], [], [])
    {
      this.id := id;
      this.capacity := capacity;
      this.rendezvous := rendezvous;
      ring := new Ring(if capacity > 0 then capacity else if rendezvous then 1 else UNBOUNDED_START, NO_MSG);
      closed, recvWaiters, sendWaiters, delivered := false, [], [], [];
    }

    method CanSend() returns (ok: bool)
      requires Valid()
      ensures ok == FiberSpec.CanSend(View())
    {
      if closed { return false; }
      if rendezvous { return |recvWaiters| > 0; }
      if capacity == 0 { return true; }
      return ring.count < capacity;
    }

    /** The push has a slot: a bounded channel has room, and so has a rendezvous
        channel where it does not grow. */
    ghost predicate HasSlot(rendezvousGrows: bool)
      reads this, ring
    {
      (if rendezvous then !rendezvousGrows else capacity > 0) ==> ring.count < ring.items.Length
    }

    /** Room is made first, where the channel may grow. */
    method Push(m: Msg, rendezvousGrows: bool)
      requires Valid() && HasSlot(rendezvousGrows)
      modifies ring, ring.items
      ensures Valid() && (ring.items == old(ring.items) || fresh(ring.items))
      ensures View() == old(View()).(buffer := old(View()).buffer + [m])
    {
      if (if rendezvous then rendezvousGrows else capacity == 0) && ring.count >= ring.items.Length {
        ring.Grow();
      }
      ring.Push(m);
    }

    method Pop() returns (m: Msg)
      requires Valid() && ring.count > 0
      modifies this`delivered, ring`head, ring`count, ring.items
      ensures Valid()
      ensures old(View()).buffer[0] == m
      ensures View() == old(View()).(buffer := old(View()).buffer[1..], delivered := old(View()).delivered + [m])
    {
      m := ring.Pop();
      delivered := delivered + [m];
    }

    /** A waiter list has room for WAITER_MAX fibers. */
    method AddWaiter(park: Park, f: Fid) returns (ok: bool)
      requires Valid() && !park.NoPark?
      modifies this`recvWaiters, this`sendWaiters
      ensures Valid() && ok == (|old(Side(View(), park))| < WAITER_MAX)
      ensures View() == if !ok then old(View())
                        else if park.OnRecv? then old(View()).(recv := old(View()).recv + [f])
                        else old(View()).(send := old(View()).send + [f])
    {
      if park.OnRecv? {
        if |recvWaiters| >= WAITER_MAX { return false; }
        recvWaiters := recvWaiters + [f];
      } else {
        if |sendWaiters| >= WAITER_MAX { return false; }
        sendWaiters := sendWaiters + [f];
      }
      return true;
    }
  }

  lemma {:induction false} WakeAllFrame(s: State, t: State, list: seq<Fid>)
    requires s.fibers == t.fibers && s.ready == t.ready
    ensures WakeAll(s, list).fibers == WakeAll(t, list).fibers && WakeAll(s, list).ready == WakeAll(t, list).ready
  {
    if list != [] {
      WakeAllFrame(s, t, list[..|list| - 1]);
    }
  }

  class Runtime {
    const ready: Ring<Fid>
    var fibers: map<Fid, Fiber>
    var chans: map<Cid, Channel>
    var stack: seq<Fid>
    var sent: map<Fid, nat>
    ghost var log: seq<Entry>

    ghost predicate ReadyOk()
      reads ready
    {
      ready.Valid() && ready.items.Length == READY_MAX
    }

    /** Channels are told apart by their name and share no storage. */
    ghost predicate ChansApart()
      reads this`chans, ready`items, chans.Values, set c | c in chans :: chans[c].ring
    {
      && (forall c <- chans :: chans[c].id == c && chans[c].Valid())
      && (forall c <- chans :: chans[c].ring as object != ready && chans[c].ring.items as object != ready.items)
      && forall c, d | c in chans && d in chans && c != d ::
           chans[c].ring != chans[d].ring && chans[c].ring.items != chans[d].ring.items
    }

    ghost predicate Valid()
      reads this`chans, ready, chans.Values, set c | c in chans :: chans[c].ring
    {
      ReadyOk() && ChansApart()
    }

    ghost function Views(): map<Cid, Chan>
      reads this`chans, ready`items, chans.Values, set c | c in chans :: chans[c].ring, set c | c in chans :: chans[c].ring.items
      requires ChansApart()
    {
      map c | c in chans :: chans[c].View()
    }

    /** The scheduling part of the runtime. */
    ghost function Queues(): State
      reads this, ready, ready.items
      requires ReadyOk()
    {
      State(fibers, map[], ready.Contents(), [], map[], [])
    }

    ghost function St(): State
      reads this, ready, ready.items
      reads chans.Values, set c | c in chans :: chans[c].ring, set c | c in chans :: chans[c].ring.items
      requires Valid()
    {
      State(fibers, Views(), ready.Contents(), stack, sent, log)
    }

    constructor ()
      ensures Valid() && fresh(ready) && fresh(ready.items)
      ensures St() == State(map[], map[], [], [], map[MAIN := 0], [])
    {
      ready := new Ring(READY_MAX, MAIN);
      fibers, chans, stack, sent, log := map[], map[], [], map[MAIN := 0], [];
    }

    // ---- the ready ring ---------------------------------------------------

    method EnqueueReady(f: Fid)
      requires ReadyOk() && f in fibers
      modifies this`fibers, ready, ready.items
      ensures ReadyOk() && ready.items == old(ready.items)
      ensures Queues() == Enqueue(old(Queues()), f)
    {
      if ready.count >= READY_MAX { return; }
      if fibers[f].queued { return; }
      ready.Push(f);
      fibers := fibers[f := fibers[f].(queued := true)];
    }

    method DequeueReady() returns (f: Fid)
      requires ReadyOk() && ready.count > 0 && ready.Contents()[0] in fibers
      modifies this`fibers, ready, ready.items
      ensures ReadyOk() && ready.items == old(ready.items)
      ensures f == old(ready.Contents())[0]
      ensures Queues() == Dequeue(old(Queues()))
    {
      f := ready.Pop();
      fibers := fibers[f := fibers[f].(queued := false)];
    }

    /** Every waiting fiber of the list becomes ready, in the list's order. */
    method WakeWaiterList(waiters: seq<Fid>)
      requires ReadyOk()
      modifies this`fibers, ready, ready.items
      ensures ReadyOk() && ready.items == old(ready.items)
      ensures Queues() == WakeAll(old(Queues()), waiters)
    {
      var i := 0;
      while i < |waiters|
        invariant i <= |waiters|
        invariant ReadyOk() && ready.items == old(ready.items)
        invariant Queues() == WakeAll(old(Queues()), waiters[..i])
      {
        assert waiters[..i + 1][..i] == waiters[..i];
        var f := waiters[i];
        if f in fibers && fibers[f].state.Waiting? {
          fibers := fibers[f := fibers[f].(state := Ready)];
          EnqueueReady(f);
        }
        i := i + 1;
      }
      assert waiters[..i] == waiters;
    }

    function Named(c: Cid): Channel
      reads this
      requires c in chans
    {
      chans[c]
    }

    // ---- one channel at a time --------------------------------------------

    /** No other channel, and not the ready ring, shares the channel's storage. */
    ghost predicate Alone(c: Cid)
      reads this`chans, ready`items, chans.Values, set c | c in chans :: chans[c].ring
      requires c in chans
    {
      && chans[c].ring as object != ready && chans[c].ring.items as object != ready.items
      && forall d | d in chans && d != c ::
           chans[d] != chans[c] && chans[d].ring != chans[c].ring && chans[d].ring.items != chans[c].ring.items
    }

    lemma IsAlone(c: Cid)
      requires Valid() && c in chans
      ensures Alone(c) && chans[c].Valid() && chans[c].id == c
    {
    }

    lemma ViewOf(c: Cid)
      requires Valid() && c in chans
      ensures chans[c].Valid() && St().chans.Keys == chans.Keys && St().chans[c] == chans[c].View()
    {
    }

    lemma KnownChans()
      requires Valid()
      ensures St().chans.Keys == chans.Keys
    {
    }

    /** When only one channel has moved, only its view has. */
    twostate lemma OnlyMoved(c: Cid)
      requires old(Valid()) && ReadyOk() && chans == old(chans) && c in chans
      requires forall d | d in chans && d != c ::
                 unchanged(chans[d]) && unchanged(chans[d].ring) && unchanged(chans[d].ring.items)
      requires ready.items == old(ready.items)
      requires chans[c].Valid() && Alone(c)
      ensures Valid() && Views() == old(Views())[c := chans[c].View()]
    {
    }

    /** A channel with storage of its own joins the others. */
    twostate lemma Joined(c: Cid, new ch: Channel)
      requires old(Valid()) && ReadyOk() && ready.items == old(ready.items)
      requires c !in old(chans) && chans == old(chans)[c := ch]
      requires forall d <- old(chans) ::
                 unchanged(old(chans)[d]) && unchanged(old(chans)[d].ring) && unchanged(old(chans)[d].ring.items)
      requires ch.Valid() && ch.id == c && fresh(ch) && fresh(ch.ring) && fresh(ch.ring.items)
      ensures Valid() && Views() == old(Views())[c := ch.View()]
    {
    }

    // ---- waking one side of a channel -------------------------------------

    method WakeReceivers(c: Cid)
      requires Valid() && c in chans
      modifies this`fibers, ready, ready.items, Named(c)`recvWaiters
      ensures Valid() && chans == old(chans) && ready.items == old(ready.items)
      ensures chans[c].ring.items == old(chans[c].ring.items)
      ensures St() == WakeRecv(old(St()), c)
    {
      hide ChansApart, Views;
      IsAlone(c);
      ViewOf(c);
      var ch := chans[c];
      WakeWaiterList(ch.recvWaiters);
      WakeAllFrame(old(Queues()), old(St()), old(ch.recvWaiters));
      ch.recvWaiters := [];
      OnlyMoved(c);
    }

    method WakeSenders(c: Cid)
      requires Valid() && c in chans
      modifies this`fibers, ready, ready.items, Named(c)`sendWaiters
      ensures Valid() && chans == old(chans) && ready.items == old(ready.items)
      ensures St() == WakeSend(old(St()), c)
    {
      hide ChansApart, Views;
      IsAlone(c);
      ViewOf(c);
      var ch := chans[c];
      WakeWaiterList(ch.sendWaiters);
      WakeAllFrame(old(Queues()), old(St()), old(ch.sendWaiters));
      ch.sendWaiters := [];
      OnlyMoved(c);
    }

    /** The message goes into the buffer. */
    method Buffer(c: Cid, m: Msg, rendezvousGrows: bool)
      requires Valid() && c in chans && chans[c].HasSlot(rendezvousGrows)
      modifies this`log, chans[c].ring, chans[c].ring.items
      ensures Valid() && chans[c].ring.items as object != ready.items
      ensures var was := old(St());
              St() == was.(chans := was.chans[c := was.chans[c].(buffer := was.chans[c].buffer + [m])],
                           log := was.log + [Pushed(c, m)])
    {
      hide ChansApart, Views;
      IsAlone(c);
      ViewOf(c);
      chans[c].Push(m, rendezvousGrows);
      log := log + [Pushed(c, m)];
      OnlyMoved(c);
    }

    method Unbuffer(c: Cid) returns (m: Msg)
      requires Valid() && c in chans && chans[c].ring.count > 0
      modifies Named(c)`delivered, chans[c].ring, chans[c].ring.items
      ensures Valid()
      ensures m == old(St()).chans[c].buffer[0]
      ensures var was := old(St());
              St() == was.(chans := was.chans[c := was.chans[c].(buffer := was.chans[c].buffer[1..],
                                                                  delivered := was.chans[c].delivered + [m])])
    {
      hide ChansApart, Views;
      IsAlone(c);
      ViewOf(c);
      m := chans[c].Pop();
      OnlyMoved(c);
    }

    /** The message goes into the buffer and every receiver wakes. */
    method PushTo(c: Cid, m: Msg, rendezvousGrows: bool)
      requires Valid() && c in chans && chans[c].HasSlot(rendezvousGrows)
      modifies this`fibers, this`log, ready, ready.items, Named(c)`recvWaiters, chans[c].ring, chans[c].ring.items
      ensures Valid() && chans == old(chans) && ready.items == old(ready.items)
      ensures St() == PushMsg(old(St()), c, m)
    {
      hide Valid, St, Views;
      Buffer(c, m, rendezvousGrows);
      WakeReceivers(c);
    }

    method PopFrom(c: Cid) returns (m: Msg)
      requires Valid() && c in chans && chans[c].ring.count > 0
      modifies this`fibers, ready, ready.items, Named(c)`delivered, Named(c)`sendWaiters, chans[c].ring, chans[c].ring.items
      ensures Valid() && chans == old(chans) && ready.items == old(ready.items)
      ensures m == old(St()).chans[c].buffer[0]
      ensures St() == PopMsg(old(St()), c)
    {
      hide Valid, St, Views;
      m := Unbuffer(c);
      WakeSenders(c);
    }

    // ---- sending, receiving, closing --------------------------------------

    lemma RoomToSend(c: Cid)
      requires Valid() && c in chans && FiberSpec.CanSend(St().chans[c])
      ensures chans[c].HasSlot(true)
      ensures ChanOk(St().chans[c]) ==> chans[c].HasSlot(false)
    {
    }

    /** The current fiber joins the waiters of the channel and leaves the stack. */
    method Park(c: Cid, park: Park)
      requires Valid() && c in chans && stack != [] && Current(St()) in fibers && !park.NoPark?
      requires |Side(St().chans[c], park)| < WAITER_MAX
      modifies this`fibers, this`stack, Named(c)`recvWaiters, Named(c)`sendWaiters
      ensures Valid() && chans == old(chans)
      ensures St() == ParkCurrent(old(St()), c, park)
    {
      hide ChansApart, Views;
      IsAlone(c);
      ViewOf(c);
      var f := stack[|stack| - 1];
      var _ := chans[c].AddWaiter(park, f);
      fibers := fibers[f := fibers[f].(state := Waiting, park := park, waitingOn := c, suspended := true)];
      stack := stack[..|stack| - 1];
      OnlyMoved(c);
    }

    method RefuseSend(m: Msg)
      requires Valid() && m.sender in sent
      modifies this`sent, this`log
      ensures Valid() && chans == old(chans)
      ensures St() == CountSend(Refuse(old(St()), m), m.sender)
    {
      hide ChansApart, Views, ReadyOk;
      sent, log := sent[m.sender := sent[m.sender] + 1], log + [Refused(m)];
    }

    /** The sender is over or waits, with its message in hand. */
    method ParkSender(c: Cid, m: Msg) returns (status: Status)
      requires Valid() && c in chans && stack != [] && Current(St()) == m.sender && m.sender in fibers && m.sender in sent
      modifies this`fibers, this`stack, this`sent, this`log, Named(c)`recvWaiters, Named(c)`sendWaiters
      ensures Valid() && chans == old(chans)
      ensures var t := CountSend(old(St()), m.sender).(fibers := old(fibers)[m.sender := old(fibers)[m.sender].(payload := m)]);
              (St(), status) == if |old(St()).chans[c].send| >= WAITER_MAX then (Refuse(t, m), Error)
                                else (ParkCurrent(t, c, OnSend), Parked)
    {
      hide ChansApart, Views, ParkCurrent;
      sent, fibers := sent[m.sender := sent[m.sender] + 1], fibers[m.sender := fibers[m.sender].(payload := m)];
      ViewOf(c);
      if |chans[c].sendWaiters| >= WAITER_MAX {
        log := log + [Refused(m)];
        return Error;
      }
      Park(c, OnSend);
      return Parked;
    }

    method Send(c: Cid, v: nat, mayPark: bool) returns (status: Status)
      requires Valid() && c in chans && Current(St()) in sent && (stack != [] ==> Current(St()) in fibers)
      modifies this`fibers, this`stack, this`sent, this`log, ready, ready.items
      modifies Named(c)`recvWaiters, Named(c)`sendWaiters, chans[c].ring, chans[c].ring.items
      ensures Valid() && chans == old(chans)
      ensures (St(), status) == FiberSpec.Send(old(St()), c, v, mayPark)
    {
      hide ChansApart, Views, PushMsg, ParkCurrent, ReadyOk;
      if v == EOF_VALUE { return Error; }
      ViewOf(c);
      var f := if stack == [] then MAIN else stack[|stack| - 1];
      var m := Msg(f, sent[f], v);
      if chans[c].closed {
        RefuseSend(m);
        return Error;
      }
      var free := chans[c].CanSend();
      if free {
        RoomToSend(c);
        CountOne(f);
        PushTo(c, m, true);
        return Ok;
      }
      if !mayPark || stack == [] { return Blocked; }
      status := ParkSender(c, m);
    }

    method CountOne(f: Fid)
      requires Valid() && f in sent
      modifies this`sent
      ensures Valid() && St() == CountSend(old(St()), f)
    {
      hide ChansApart, Views, ReadyOk;
      sent := sent[f := sent[f] + 1];
    }

    method Receive(c: Cid, mayPark: bool) returns (status: Status, got: nat)
      requires Valid() && c in chans && (stack != [] ==> Current(St()) in fibers)
      modifies this`fibers, this`stack, ready, ready.items
      modifies Named(c), chans[c].ring, chans[c].ring.items
      ensures Valid() && chans == old(chans)
      ensures (St(), status) == FiberSpec.Recv(old(St()), c, mayPark)
      ensures var buffer := old(St()).chans[c].buffer;
              status.Ok? ==> got == if buffer != [] then buffer[0].value else EOF_VALUE
    {
      hide ChansApart, Views, PopMsg, ParkCurrent, ReadyOk;
      got := EOF_VALUE;
      ViewOf(c);
      if chans[c].ring.count > 0 {
        var m := PopFrom(c);
        return Ok, m.value;
      }
      if chans[c].closed { return Ok, EOF_VALUE; }
      if !mayPark || stack == [] { return Blocked, EOF_VALUE; }
      if |chans[c].recvWaiters| >= WAITER_MAX { return Error, EOF_VALUE; }
      Park(c, OnRecv);
      status := Parked;
    }

    method CloseOne(c: Cid)
      requires Valid() && c in chans
      modifies Named(c)`closed
      ensures Valid() && chans == old(chans)
      ensures var was := old(St()); St() == was.(chans := was.chans[c := was.chans[c].(closed := true)])
    {
      hide ChansApart, Views;
      IsAlone(c);
      ViewOf(c);
      chans[c].closed := true;
      OnlyMoved(c);
    }

    method Close(c: Cid)
      requires Valid() && c in chans
      modifies this`fibers, ready, ready.items, Named(c)`closed, Named(c)`recvWaiters, Named(c)`sendWaiters
      ensures Valid() && chans == old(chans)
      ensures St() == FiberSpec.Close(old(St()), c)
    {
      hide Valid, St, WakeRecv, WakeSend;
      IsClosed(c);
      if chans[c].closed { return; }
      CloseOne(c);
      WakeReceivers(c);
      WakeSenders(c);
    }

    lemma IsClosed(c: Cid)
      requires Valid() && c in chans
      ensures c in St().chans && St().chans[c].closed == chans[c].closed
    {
    }

    // ---- running fibers ---------------------------------------------------

    /** The fiber runs on from where it was parked. */
    method Continue(f: Fid)
      requires Valid() && f in fibers
      modifies this`fibers, this`stack
      ensures Valid() && chans == old(chans)
      ensures St() == FiberSpec.Continue(old(St()), f)
    {
      hide ChansApart, Views, ReadyOk;
      fibers := fibers[f := fibers[f].(state := Running, park := NoPark, suspended := false)];
      stack := stack + [f];
    }

    /** The fiber waits again; on a full list it is lost. */
    method Repark(f: Fid) returns (ok: bool)
      requires Valid() && f in fibers && fibers[f].waitingOn in chans && !fibers[f].park.NoPark?
      modifies this`fibers, Named(fibers[f].waitingOn)`recvWaiters, Named(fibers[f].waitingOn)`sendWaiters
      ensures Valid() && chans == old(chans)
      ensures St() == FiberSpec.Repark(old(St()), f)
    {
      hide ChansApart, Views;
      var c := fibers[f].waitingOn;
      IsAlone(c);
      ViewOf(c);
      fibers := fibers[f := fibers[f].(state := Waiting)];
      ok := chans[c].AddWaiter(fibers[f].park, f);
      OnlyMoved(c);
    }

    method ResumeReceiver(f: Fid) returns (got: Inject)
      requires Valid() && f in fibers && fibers[f].suspended && fibers[f].park.OnRecv? && fibers[f].waitingOn in chans
      requires fibers[f].state.Running?
      modifies this`fibers, this`stack, ready, ready.items
      modifies Named(fibers[f].waitingOn), chans[fibers[f].waitingOn].ring, chans[fibers[f].waitingOn].ring.items
      ensures Valid() && chans == old(chans)
      ensures St() == Resume(old(St()), f) && got == HandedOver(old(St()), St(), f)
    {
      hide ChansApart, Views, HandedOver, PopMsg, FiberSpec.Repark, FiberSpec.Continue, ReadyOk;
      var c := fibers[f].waitingOn;
      ViewOf(c);
      ghost var s := St();
      HandedIs(s, f);
      assert s.(fibers := s.fibers[f := s.fibers[f].(state := Running)]) == s;
      if chans[c].ring.count > 0 {
        var m := PopFrom(c);
        Continue(f);
        return Received(m.value);
      } else if chans[c].closed {
        Continue(f);
        return Received(EOF_VALUE);
      } else {
        var _ := Repark(f);
        return Waits;
      }
    }

    method ResumeSender(f: Fid) returns (got: Inject)
      requires Valid() && f in fibers && fibers[f].suspended && fibers[f].park.OnSend? && fibers[f].waitingOn in chans
      requires fibers[f].state.Running? && ChanOk(St().chans[fibers[f].waitingOn])
      modifies this`fibers, this`stack, this`log, ready, ready.items, Named(fibers[f].waitingOn)`recvWaiters
      modifies Named(fibers[f].waitingOn)`sendWaiters, chans[fibers[f].waitingOn].ring, chans[fibers[f].waitingOn].ring.items
      ensures Valid() && chans == old(chans)
      ensures St() == Resume(old(St()), f) && got == HandedOver(old(St()), St(), f)
    {
      hide ChansApart, Views, HandedOver, PushMsg, FiberSpec.Repark, FiberSpec.Continue, ReadyOk;
      var c := fibers[f].waitingOn;
      ViewOf(c);
      ghost var s := St();
      HandedIs(s, f);
      assert s.(fibers := s.fibers[f := s.fibers[f].(state := Running)]) == s;
      if chans[c].closed {
        log := log + [Refused(fibers[f].payload)];
        Continue(f);
        return Raised;
      }
      var free := chans[c].CanSend();
      if free {
        RoomToSend(c);
        PushTo(c, fibers[f].payload, false);
        Continue(f);
        return Plain;
      } else {
        var _ := Repark(f);
        return Waits;
      }
    }

    /** The fiber at the head of the queue comes off it and is in hand. */
    method Take() returns (f: Fid)
      requires Valid() && ready.count > 0 && St().ready[0] in fibers
      modifies this`fibers, ready, ready.items
      ensures Valid() && chans == old(chans) && ready.items == old(ready.items)
      ensures f == old(St()).ready[0] && St() == Dequeue(old(St()))
    {
      hide ChansApart, Views;
      f := DequeueReady();
    }

    lemma ReadyHead()
      requires Valid()
      ensures |St().ready| == ready.count
    {
    }

    /** One turn of the scheduler: the next ready fiber runs, waits again, or
        ends its wait on a closed channel. */
    method RunNextReady() returns (got: Inject)
      requires Valid() && (St().ready != [] ==> St().ready[0] in fibers)
      requires St().ready != [] ==>
                 var fb := fibers[St().ready[0]];
                 && (fb.suspended && !fb.park.NoPark? ==> fb.waitingOn in chans)
                 && (fb.suspended && fb.park.OnSend? ==> ChanOk(St().chans[fb.waitingOn]))
      modifies this`fibers, this`stack, this`log, ready, ready.items
      modifies set c | c in chans :: chans[c]
      modifies set c | c in chans :: chans[c].ring
      modifies set c | c in chans :: chans[c].ring.items
      ensures Valid() && chans == old(chans)
      ensures St() == RunNext(old(St()))
      ensures got == if old(St()).ready == [] then Waits else HandedOver(old(St()), St(), old(St()).ready[0])
    {
      hide ChansApart, Views, Resume, ReadyOk;
      ReadyHead();
      if ready.count == 0 { return Waits; }
      var f := Take();
      if !fibers[f].state.Ready? && !fibers[f].suspended { return Waits; }
      got := RunFiber(f);
    }

    method RunFiber(f: Fid) returns (got: Inject)
      requires Valid() && f in fibers
      requires fibers[f].suspended && !fibers[f].park.NoPark? ==> fibers[f].waitingOn in chans
      requires fibers[f].suspended && fibers[f].park.OnSend? ==> ChanOk(St().chans[fibers[f].waitingOn])
      modifies this`fibers, this`stack, this`log, ready, ready.items
      modifies set c | c in chans :: chans[c]
      modifies set c | c in chans :: chans[c].ring
      modifies set c | c in chans :: chans[c].ring.items
      ensures Valid() && chans == old(chans)
      ensures St() == Resume(old(St()), f) && got == HandedOver(old(St()), St(), f)
    {
      hide ChansApart, Views, Resume, ReadyOk;
      KnownChans();
      ResumeRunning(St(), f);
      fibers := fibers[f := fibers[f].(state := Running)];
      if !fibers[f].suspended || fibers[f].park.NoPark? {
        ResumeFresh(St(), f);
        Continue(f);
        got := Plain;
      } else if fibers[f].park.OnRecv? {
        got := ResumeReceiver(f);
      } else {
        got := ResumeSender(f);
      }
    }

    // ---- fibers and channels come and go ----------------------------------

    method FinishCurrent(ok: bool)
      requires Valid() && stack != [] && Current(St()) in fibers
      modifies this`fibers, this`stack
      ensures Valid() && chans == old(chans)
      ensures St() == Finish(old(St()), ok)
    {
      hide ChansApart, Views, ReadyOk;
      var f := stack[|stack| - 1];
      fibers := fibers[f := fibers[f].(state := if ok then Done else Failed, suspended := false)];
      stack := stack[..|stack| - 1];
    }

    /** A full ready ring refuses the new fiber. */
    method SpawnFiber(f: Fid) returns (status: Status)
      requires Valid() && f !in fibers
      modifies this`fibers, this`sent, ready, ready.items
      ensures Valid() && chans == old(chans)
      ensures (St(), status) == Spawn(old(St()), f)
    {
      hide ChansApart, Views;
      ReadyHead();
      if ready.count >= READY_MAX { return Error; }
      fibers := fibers[f := NewFiber()];
      sent := sent[f := 0];
      EnqueueReady(f);
      return Ok;
    }

    method NewChannel(c: Cid, capacity: nat, rendezvous: bool)
      requires Valid() && c !in chans
      modifies this`chans
      ensures Valid()
      ensures St() == MakeChannel(old(St()), c, capacity, rendezvous)
    {
      hide ChansApart, Views, ReadyOk;
      var ch := new Channel(c, capacity, rendezvous);
      chans := chans[c := ch];
      Joined(c, ch);
    }
  }

  lemma ResumeRunning(s: State, f: Fid)
    requires f in s.fibers && (s.fibers[f].suspended && !s.fibers[f].park.NoPark? ==> s.fibers[f].waitingOn in s.chans)
    ensures Resume(s, f) == Resume(s.(fibers := s.fibers[f := s.fibers[f].(state := Running)]), f)
  {
    var run := s.(fibers := s.fibers[f := s.fibers[f].(state := Running)]);
    assert run.(fibers := run.fibers[f := run.fibers[f].(state := Running)]) == run;
  }

  lemma ResumeFresh(s: State, f: Fid)
    requires f in s.fibers && s.fibers[f].state.Running? && (!s.fibers[f].suspended || s.fibers[f].park.NoPark?)
    ensures Resume(s, f) == FiberSpec.Continue(s, f)
  {
    assert s.(fibers := s.fibers[f := s.fibers[f].(state := Running)]) == s;
  }
}
