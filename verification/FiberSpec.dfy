/** Fibers, their ready queue and the channels they meet on, as a value, and
    what every scheduler and channel operation makes of it. */
module FiberSpec {

  const READY_MAX := 256
  const WAITER_MAX := 64

  type Fid = nat
  type Cid = nat

  /** The program outside every fiber. */
  const MAIN: Fid := 0

  /** The value no channel carries. */
  const EOF_VALUE := 4

  /** A value on its way.  The source moves `value` only; sender and number tell
      equal values apart. */
  datatype Msg = Msg(sender: Fid, number: nat, value: nat)

  datatype FiberState = Ready | Running | Waiting | Done | Failed

  datatype Park = NoPark | OnRecv | OnSend

  /** `suspended` says that the fiber has a saved snapshot to resume. */
  datatype Fiber = Fiber(state: FiberState, park: Park, waitingOn: Cid, payload: Msg, queued: bool, suspended: bool)

  /** A channel; `delivered` is the history of what was taken out of it. */
  datatype Chan = Chan(capacity: nat, rendezvous: bool, closed: bool, buffer: seq<Msg>, recv: seq<Fid>, send: seq<Fid>,
                       delivered: seq<Msg>)

  /** The history of sends that are over: into a channel, or back to the sender. */
  datatype Entry = Pushed(chan: Cid, msg: Msg) | Refused(msg: Msg)

  datatype State = State(
    fibers: map<Fid, Fiber>,
    chans: map<Cid, Chan>,
    ready: seq<Fid>,
    stack: seq<Fid>,
    sent: map<Fid, nat>,
    log: seq<Entry>)

  function Current(s: State): Fid {
    if s.stack == [] then MAIN else s.stack[|s.stack| - 1]
  }

  function CanSend(c: Chan): bool {
    !c.closed && if c.rendezvous then |c.recv| > 0 else c.capacity == 0 || |c.buffer| < c.capacity
  }

  // ---- the ready queue --------------------------------------------------

  /** A full queue turns the fiber away; one that is queued stays once. */
  function Enqueue(s: State, f: Fid): State
    requires f in s.fibers
  {
    if |s.ready| >= READY_MAX || s.fibers[f].queued then s
    else s.(ready := s.ready + [f], fibers := s.fibers[f := s.fibers[f].(queued := true)])
  }

  function Wake(s: State, f: Fid): (t: State)
    ensures t == s.(fibers := t.fibers, ready := t.ready) && t.fibers.Keys == s.fibers.Keys
  {
    if f in s.fibers && s.fibers[f].state.Waiting? then
      Enqueue(s.(fibers := s.fibers[f := s.fibers[f].(state := Ready)]), f)
    else s
  }

  function WakeAll(s: State, list: seq<Fid>): (t: State)
    ensures t == s.(fibers := t.fibers, ready := t.ready) && t.fibers.Keys == s.fibers.Keys
  {
    if list == [] then s else Wake(WakeAll(s, list[..|list| - 1]), list[|list| - 1])
  }

  function WakeRecv(s: State, c: Cid): (t: State)
    requires c in s.chans
    ensures t.fibers.Keys == s.fibers.Keys && t.chans.Keys == s.chans.Keys && t.stack == s.stack
  {
    var t := WakeAll(s, s.chans[c].recv);
    t.(chans := t.chans[c := s.chans[c].(recv := [])])
  }

  function WakeSend(s: State, c: Cid): (t: State)
    requires c in s.chans
    ensures t.fibers.Keys == s.fibers.Keys && t.chans.Keys == s.chans.Keys && t.stack == s.stack
  {
    var t := WakeAll(s, s.chans[c].send);
    t.(chans := t.chans[c := s.chans[c].(send := [])])
  }

  // ---- channel operations -----------------------------------------------

  function PushMsg(s: State, c: Cid, m: Msg): (t: State)
    requires c in s.chans
    ensures t.fibers.Keys == s.fibers.Keys && t.stack == s.stack
  {
    var ch := s.chans[c];
    WakeRecv(s.(chans := s.chans[c := ch.(buffer := ch.buffer + [m])], log := s.log + [Pushed(c, m)]), c)
  }

  function PopMsg(s: State, c: Cid): (t: State)
    requires c in s.chans && s.chans[c].buffer != []
    ensures t.fibers.Keys == s.fibers.Keys && t.stack == s.stack
  {
    var ch := s.chans[c];
    WakeSend(s.(chans := s.chans[c := ch.(buffer := ch.buffer[1..], delivered := ch.delivered + [ch.buffer[0]])]), c)
  }

  function Refuse(s: State, m: Msg): State {
    s.(log := s.log + [Refused(m)])
  }

  function CountSend(s: State, f: Fid): State
    requires f in s.sent
  {
    s.(sent := s.sent[f := s.sent[f] + 1])
  }

  /** The current fiber joins a waiter list and leaves the stack. */
  function ParkCurrent(s: State, c: Cid, park: Park): State
    requires c in s.chans && s.stack != [] && Current(s) in s.fibers && !park.NoPark?
  {
    var f := Current(s);
    var ch := s.chans[c];
    var ch' := if park.OnRecv? then ch.(recv := ch.recv + [f]) else ch.(send := ch.send + [f]);
    s.(fibers := s.fibers[f := s.fibers[f].(state := Waiting, park := park, waitingOn := c, suspended := true)],
       chans := s.chans[c := ch'],
       stack := s.stack[..|s.stack| - 1])
  }

  datatype Status = Ok | Error | Parked | Blocked

  /** channel-send.  A fiber that may park does so when the channel takes no
      more; otherwise the caller drives other fibers and tries again. */
  function Send(s: State, c: Cid, v: nat, mayPark: bool): (State, Status)
    requires c in s.chans && Current(s) in s.sent && (s.stack != [] ==> Current(s) in s.fibers)
  {
    var f := Current(s);
    var m := Msg(f, s.sent[f], v);
    var ch := s.chans[c];
    if v == EOF_VALUE then (s, Error)
    else if ch.closed then (CountSend(Refuse(s, m), f), Error)
    else if CanSend(ch) then (PushMsg(CountSend(s, f), c, m), Ok)
    else if mayPark && s.stack != [] then
      var t := CountSend(s, f).(fibers := s.fibers[f := s.fibers[f].(payload := m)]);
      if |ch.send| >= WAITER_MAX then (Refuse(t, m), Error)
      else (ParkCurrent(t, c, OnSend), Parked)
    else (s, Blocked)
  }

  function Recv(s: State, c: Cid, mayPark: bool): (State, Status)
    requires c in s.chans && (s.stack != [] ==> Current(s) in s.fibers)
  {
    var ch := s.chans[c];
    if ch.buffer != [] then (PopMsg(s, c), Ok)
    else if ch.closed then (s, Ok)
    else if mayPark && s.stack != [] then
      if |ch.recv| >= WAITER_MAX then (s, Error) else (ParkCurrent(s, c, OnRecv), Parked)
    else (s, Blocked)
  }

  function Close(s: State, c: Cid): State
    requires c in s.chans
  {
    if s.chans[c].closed then s else
      WakeSend(WakeRecv(s.(chans := s.chans[c := s.chans[c].(closed := true)]), c), c)
  }

  /** What a fiber whose turn it is goes on with: the value of its receive, nothing
      particular, or an error; `Waits` when it does not go on. */
  datatype Inject = Waits | Plain | Received(value: nat) | Raised

  /** Told from the histories before and after: a receiver goes on with the message
      that was delivered, or with the end-of-file value when none was; a sender with
      an error when its message came back. */
  ghost function HandedOver(s: State, t: State, f: Fid): Inject
    requires f in s.fibers && (s.fibers[f].suspended && s.fibers[f].park.OnRecv? ==> s.fibers[f].waitingOn in s.chans)
    requires s.chans.Keys <= t.chans.Keys
  {
    var fb := s.fibers[f];
    if t.stack == s.stack then Waits
    else if fb.suspended && fb.park.OnRecv? then
      var d := t.chans[fb.waitingOn].delivered;
      if |d| > |s.chans[fb.waitingOn].delivered| then Received(d[|d| - 1].value) else Received(EOF_VALUE)
    else if t.log != s.log && t.log != [] && t.log[|t.log| - 1].Refused? then Raised
    else Plain
  }

  // ---- the scheduler ----------------------------------------------------

  function Dequeue(s: State): State
    requires s.ready != [] && s.ready[0] in s.fibers
  {
    var f := s.ready[0];
    s.(ready := s.ready[1..], fibers := s.fibers[f := s.fibers[f].(queued := false)])
  }

  function Continue(s: State, f: Fid): State
    requires f in s.fibers
  {
    s.(fibers := s.fibers[f := s.fibers[f].(state := Running, park := NoPark, suspended := false)],
       stack := s.stack + [f])
  }

  /** A woken fiber that finds its channel unready goes back on the list; when
      the list is full it is left waiting on no list at all. */
  function Repark(s: State, f: Fid): State
    requires f in s.fibers && s.fibers[f].waitingOn in s.chans
  {
    var fb := s.fibers[f];
    var ch := s.chans[fb.waitingOn];
    var t := s.(fibers := s.fibers[f := fb.(state := Waiting)]);
    if fb.park.OnRecv? then
      if |ch.recv| >= WAITER_MAX then t else t.(chans := t.chans[fb.waitingOn := ch.(recv := ch.recv + [f])])
    else
      if |ch.send| >= WAITER_MAX then t else t.(chans := t.chans[fb.waitingOn := ch.(send := ch.send + [f])])
  }

  /** Resuming a parked fiber completes the operation it parked in, refuses it
      when the channel was closed, or parks it again. */
  function Resume(s: State, f: Fid): State
    requires f in s.fibers && (s.fibers[f].suspended && !s.fibers[f].park.NoPark? ==> s.fibers[f].waitingOn in s.chans)
  {
    var fb := s.fibers[f];
    var run := s.(fibers := s.fibers[f := fb.(state := Running)]);
    if !fb.suspended || fb.park.NoPark? then Continue(run, f)
    else
      var c := fb.waitingOn;
      var ch := s.chans[c];
      if fb.park.OnRecv? then
        if ch.buffer != [] then Continue(PopMsg(run, c), f)
        else if ch.closed then Continue(run, f)
        else Repark(run, f)
      else
        if ch.closed then Continue(Refuse(run, fb.payload), f)
        else if !CanSend(ch) then Repark(run, f)
        else Continue(PushMsg(run, c, fb.payload), f)
  }

  function RunNext(s: State): State
    requires s.ready != [] ==> s.ready[0] in s.fibers
    requires s.ready != [] ==> var fb := s.fibers[s.ready[0]];
                               fb.suspended && !fb.park.NoPark? ==> fb.waitingOn in s.chans
  {
    if s.ready == [] then s
    else
      var f := s.ready[0];
      var t := Dequeue(s);
      if !s.fibers[f].state.Ready? && !s.fibers[f].suspended then t else Resume(t, f)
  }

  /** The current fiber returns or fails. */
  function Finish(s: State, ok: bool): State
    requires s.stack != [] && Current(s) in s.fibers
  {
    var f := Current(s);
    s.(fibers := s.fibers[f := s.fibers[f].(state := if ok then Done else Failed, suspended := false)],
       stack := s.stack[..|s.stack| - 1])
  }

  function NewFiber(): Fiber {
    Fiber(Ready, NoPark, 0, Msg(MAIN, 0, 5), false, false)
  }

  /** A spawn that finds the queue full leaves no fiber behind. */
  function Spawn(s: State, f: Fid): (State, Status)
    requires f !in s.fibers
  {
    if |s.ready| >= READY_MAX then (s, Error)
    else (Enqueue(s.(fibers := s.fibers[f := NewFiber()], sent := s.sent[f := 0]), f), Ok)
  }

  function MakeChannel(s: State, c: Cid, capacity: nat, rendezvous: bool): State
    requires c !in s.chans
  {
    s.(chans := s.chans[c := Chan(capacity, rendezvous, false, [], [], [], [])])
  }
}
