/** The values that messages carry, from the sends that began them to the places
    where they end, and the order in which fibers get their turns. */
module FiberValues {
  import opened FiberSpec
  import opened FiberInv
  import opened FiberMoves
  import opened FiberHistory
  import opened FiberRuns
  import opened FiberLaws

  // ---- what was said --------------------------------------------------------

  /** The operation begins a send: of a proper value, on a channel that is closed or
      has room, or by a fiber that may wait for room. */
  predicate Begins(s: State, op: Op) {
    op.SendTo? && op.value != EOF_VALUE && op.chan in s.chans &&
    (s.chans[op.chan].closed || CanSend(s.chans[op.chan]) || (op.mayPark && s.stack != []))
  }

  function Says(s: State, op: Op, f: Fid): seq<nat> {
    if Begins(s, op) && Current(s) == f then [op.value] else []
  }

  /** The values f began to send in a run, in order, read off the operations. */
  ghost function Spoken(s: State, ops: seq<Op>, f: Fid): seq<nat>
    requires Inv(s) && Runs(s, ops)
    decreases |ops|
  {
    if ops == [] then [] else
      StepKeepsInvIff(s, ops[0]);
      Says(s, ops[0], f) + Spoken(Step(s, ops[0]), ops[1..], f)
  }

  /** The message carries the value its sender said when it sent it. */
  ghost predicate Carries(m: Msg, said: Fid -> seq<nat>) {
    m.number < |said(m.sender)| && m.value == said(m.sender)[m.number]
  }

  /** Everything sent so far carries what was said: sends that are over and messages
      that parked senders hold. */
  ghost predicate ValuesOk(s: State, said: Fid -> seq<nat>) {
    && (forall f :: |said(f)| == if f in s.sent then s.sent[f] else 0)
    && (forall e <- s.log :: Carries(e.msg, said))
    && (forall f <- s.fibers :: s.fibers[f].park.OnSend? ==> Carries(s.fibers[f].payload, said))
  }

  ghost function SaidNext(s: State, op: Op, said: Fid -> seq<nat>): Fid -> seq<nat> {
    f => said(f) + Says(s, op, f)
  }

  // ---- one step ----------------------------------------------------------------

  /** Senders that wait in t waited in s with the same message. */
  ghost predicate SameHeld(s: State, t: State) {
    forall f <- t.fibers :: t.fibers[f].park.OnSend? ==>
      f in s.fibers && s.fibers[f].park.OnSend? && t.fibers[f].payload == s.fibers[f].payload
  }

  /** What a step adds: nothing, the message of the send that begins, or the one the
      fiber whose turn it is holds. */
  ghost predicate AddsOnly(s: State, t: State, m: Msg) {
    t.log == s.log || (|t.log| == |s.log| + 1 && t.log[..|s.log|] == s.log && t.log[|s.log|].msg == m)
  }

  /** What a send adds: nothing when it does not begin; else its message, over or in
      the hands of the sender. */
  ghost predicate SendAdds(s: State, op: Op, t: State, m: Msg)
    requires Current(s) in s.sent
  {
    var f := Current(s);
    && t.sent == (if Begins(s, op) then s.sent[f := s.sent[f] + 1] else s.sent)
    && AddsOnly(s, t, m) && (!Begins(s, op) ==> t.log == s.log)
    && (forall g <- t.fibers :: t.fibers[g].park.OnSend? ==>
          || (g == f && Begins(s, op) && t.fibers[g].payload == m)
          || (g in s.fibers && s.fibers[g].park.OnSend? && t.fibers[g].payload == s.fibers[g].payload))
  }

  lemma SendingAdds(s: State, op: Op)
    requires Inv(s) && op.SendTo? && op.chan in s.chans
    ensures Current(s) in s.sent
    ensures SendAdds(s, op, Step(s, op), Msg(Current(s), s.sent[Current(s)], op.value))
  {
    CurrentIsKnown(s);
    var f, ch := Current(s), s.chans[op.chan];
    hide Inv, PushMsg, SendAdds, ParkCurrent;
    if op.value != EOF_VALUE && !ch.closed && !CanSend(ch) && op.mayPark && s.stack != [] {
      ParkingAdds(s, op);
    } else if op.value != EOF_VALUE && !ch.closed && CanSend(ch) {
      PushingAdds(s, op);
    } else {
      NotParkingAdds(s, op);
    }
  }

  lemma PushingAdds(s: State, op: Op)
    requires op.SendTo? && op.chan in s.chans && Current(s) in s.sent
    requires op.value != EOF_VALUE && !s.chans[op.chan].closed && CanSend(s.chans[op.chan])
    ensures var f := Current(s); var m := Msg(f, s.sent[f], op.value);
            SendAdds(s, op, PushMsg(CountSend(s, f), op.chan, m), m)
  {
    var f := Current(s);
    PushBooks(CountSend(s, f), op.chan, Msg(f, s.sent[f], op.value));
    hide PushMsg;
  }

  lemma ParkingAdds(s: State, op: Op)
    requires op.SendTo? && op.chan in s.chans && Current(s) in s.sent && s.stack != [] && Current(s) in s.fibers && op.mayPark
    requires op.value != EOF_VALUE && !s.chans[op.chan].closed && !CanSend(s.chans[op.chan])
    ensures var f := Current(s); var m := Msg(f, s.sent[f], op.value);
            SendAdds(s, op, Send(s, op.chan, op.value, true).0, m)
  {
  }

  lemma NotParkingAdds(s: State, op: Op)
    requires op.SendTo? && op.chan in s.chans && Current(s) in s.sent && (s.stack != [] ==> Current(s) in s.fibers)
    requires op.value == EOF_VALUE || s.chans[op.chan].closed || (!CanSend(s.chans[op.chan]) && !(op.mayPark && s.stack != []))
    ensures var f := Current(s); var m := Msg(f, s.sent[f], op.value);
            SendAdds(s, op, Send(s, op.chan, op.value, op.mayPark).0, m)
  {
    hide PushMsg, ParkCurrent;
  }

  lemma ReceivingAdds(s: State, c: Cid, mayPark: bool)
    requires Inv(s) && c in s.chans
    ensures var t := Step(s, ReceiveFrom(c, mayPark)); t.log == s.log && t.sent == s.sent && SameHeld(s, t)
  {
    CurrentIsKnown(s);
    hide Inv, PopMsg;
    if s.chans[c].buffer != [] {
      PopBooks(s, c);
    }
  }

  lemma ClosingAdds(s: State, c: Cid)
    requires Inv(s) && c in s.chans
    ensures var t := Step(s, CloseChannel(c)); t.log == s.log && t.sent == s.sent && SameHeld(s, t)
  {
    CurrentIsKnown(s);
    hide Inv, Close;
    if s.chans[c].closed {
      assert Close(s, c) == s by { StaysClosed(s, c); }
    } else {
      CloseBooks(s, c);
    }
  }

  lemma StaysClosed(s: State, c: Cid)
    requires c in s.chans && s.chans[c].closed
    ensures Close(s, c) == s
  {
  }

  lemma TurnAdds(s: State)
    requires Inv(s)
    ensures var t := Step(s, Schedule);
            && t.sent == s.sent && SameHeld(s, t)
            && (t.log != s.log ==>
                  && s.ready != [] && s.ready[0] in s.fibers && s.fibers[s.ready[0]].park.OnSend?
                  && AddsOnly(s, t, s.fibers[s.ready[0]].payload))
  {
    CurrentIsKnown(s);
    if s.ready != [] {
      KnowsItsPark(s, s.ready[0]);
      hide Inv;
      ResumeAdds(s, s.ready[0]);
    }
  }

  lemma ResumeAdds(s: State, f: Fid)
    requires s.ready != [] && s.ready[0] == f && f in s.fibers && s.fibers[f].state.Ready?
    requires s.fibers[f].suspended ==> s.fibers[f].waitingOn in s.chans
    requires !s.fibers[f].suspended ==> !s.fibers[f].park.OnSend?
    ensures var t := RunNext(s);
            && t.sent == s.sent && SameHeld(s, t)
            && (t.log != s.log ==> s.fibers[f].park.OnSend? && AddsOnly(s, t, s.fibers[f].payload))
  {
    hide PushMsg, PopMsg;
    var fb, run := s.fibers[f], Taken(s);
    if fb.suspended && !fb.park.NoPark? {
      var c := fb.waitingOn;
      if fb.park.OnRecv? {
        if s.chans[c].buffer != [] { PopBooks(run, c); }
      } else {
        PushBooks(run, c, fb.payload);
      }
    }
  }

  lemma CarriesMore(m: Msg, said: Fid -> seq<nat>, more: Fid -> seq<nat>)
    requires Carries(m, said) && forall f :: said(f) <= more(f)
    ensures Carries(m, more)
  {
    assert said(m.sender) <= more(m.sender);
  }

  lemma AddedCarry(s: State, t: State, m: Msg, said: Fid -> seq<nat>)
    requires AddsOnly(s, t, m) && (t.log != s.log ==> Carries(m, said))
    requires forall e <- s.log :: Carries(e.msg, said)
    ensures forall e <- t.log :: Carries(e.msg, said)
  {
    if t.log != s.log {
      assert t.log == s.log + [t.log[|s.log|]];
    }
  }

  lemma AllCarryMore(s: State, said: Fid -> seq<nat>, more: Fid -> seq<nat>)
    requires ValuesOk(s, said) && forall f :: said(f) <= more(f)
    ensures forall e <- s.log :: Carries(e.msg, more)
    ensures forall f <- s.fibers :: s.fibers[f].park.OnSend? ==> Carries(s.fibers[f].payload, more)
  {
    hide Carries;
    forall e <- s.log ensures Carries(e.msg, more) { CarriesMore(e.msg, said, more); }
    forall f <- s.fibers | s.fibers[f].park.OnSend? ensures Carries(s.fibers[f].payload, more) {
      CarriesMore(s.fibers[f].payload, said, more);
    }
  }

  /** Every step keeps it: what it adds carries the value that was said. */
  lemma StepKeepsValues(s: State, op: Op, said: Fid -> seq<nat>)
    requires Inv(s) && Enabled(s, op) && ValuesOk(s, said)
    ensures ValuesOk(Step(s, op), SaidNext(s, op, said))
  {
    hide Inv, Step, Carries, ValuesOk, SaidNext;
    match op
    case SendTo(_, _, _) => SendKeepsValues(s, op, said);
    case ReceiveFrom(c, mayPark) =>
      ReceivingAdds(s, c, mayPark);
      SilentKeepsValues(s, op, Step(s, op), said);
    case CloseChannel(c) =>
      ClosingAdds(s, c);
      SilentKeepsValues(s, op, Step(s, op), said);
    case Schedule => TurnKeepsValues(s, said);
    case _ =>
      OthersAdd(s, op);
      SilentKeepsValues(s, op, Step(s, op), said);
  }

  lemma SilentKeepsValues(s: State, op: Op, t: State, said: Fid -> seq<nat>)
    requires ValuesOk(s, said) && !op.SendTo? && t.log == s.log && SameHeld(s, t) && SameSent(s, t)
    ensures ValuesOk(t, SaidNext(s, op, said))
  {
    var more := SaidNext(s, op, said);
    assert forall f :: more(f) == said(f);
    AllCarryMore(s, said, more);
  }

  lemma SendKeepsValues(s: State, op: Op, said: Fid -> seq<nat>)
    requires Inv(s) && op.SendTo? && Enabled(s, op) && ValuesOk(s, said)
    ensures ValuesOk(Step(s, op), SaidNext(s, op, said))
  {
    SendingAdds(s, op);
    hide Inv, Step, Carries, Begins, ValuesOk, SaidNext;
    var t, more, f := Step(s, op), SaidNext(s, op, said), Current(s);
    var m := Msg(f, s.sent[f], op.value);
    SaidGrows(s, op, said);
    AllCarryMore(s, said, more);
    if Begins(s, op) { SaysLast(s, op, said, m); }
    AddedCarry(s, t, m, more);
    SaidCounts(s, op, t, said);
    ValuesFrom(t, more);
  }

  lemma SaidGrows(s: State, op: Op, said: Fid -> seq<nat>)
    ensures forall f :: said(f) <= SaidNext(s, op, said)(f)
  {
  }

  lemma SaidCounts(s: State, op: Op, t: State, said: Fid -> seq<nat>)
    requires ValuesOk(s, said) && Current(s) in s.sent
    requires t.sent == if Begins(s, op) then s.sent[Current(s) := s.sent[Current(s)] + 1] else s.sent
    ensures forall g :: |SaidNext(s, op, said)(g)| == if g in t.sent then t.sent[g] else 0
  {
    hide Begins, Carries;
    forall g: Fid ensures |SaidNext(s, op, said)(g)| == if g in t.sent then t.sent[g] else 0 {
      assert |said(g)| == if g in s.sent then s.sent[g] else 0;
    }
  }

  lemma ValuesFrom(t: State, said: Fid -> seq<nat>)
    requires forall f :: |said(f)| == if f in t.sent then t.sent[f] else 0
    requires forall e <- t.log :: Carries(e.msg, said)
    requires forall f <- t.fibers :: t.fibers[f].park.OnSend? ==> Carries(t.fibers[f].payload, said)
    ensures ValuesOk(t, said)
  {
  }

  lemma TurnKeepsValues(s: State, said: Fid -> seq<nat>)
    requires Inv(s) && ValuesOk(s, said)
    ensures ValuesOk(Step(s, Schedule), SaidNext(s, Schedule, said))
  {
    TurnAdds(s);
    CurrentIsKnown(s);
    hide Inv, Step, Carries, ValuesOk, SaidNext, AddsOnly;
    var t, more := Step(s, Schedule), SaidNext(s, Schedule, said);
    SaidGrows(s, Schedule, said);
    AllCarryMore(s, said, more);
    if t.log != s.log { AddedCarry(s, t, s.fibers[s.ready[0]].payload, more); }
    SaidCounts(s, Schedule, t, said);
    ValuesFrom(t, more);
  }

  lemma SaysLast(s: State, op: Op, said: Fid -> seq<nat>, m: Msg)
    requires ValuesOk(s, said) && Begins(s, op) && Current(s) in s.sent && m == Msg(Current(s), s.sent[Current(s)], op.value)
    ensures Carries(m, SaidNext(s, op, said))
  {
    assert |said(Current(s))| == s.sent[Current(s)];
  }

  /** The same sends are counted; a new fiber has sent nothing. */
  ghost predicate SameSent(s: State, t: State) {
    (forall f <- t.sent :: t.sent[f] == if f in s.sent then s.sent[f] else 0) && s.sent.Keys <= t.sent.Keys
  }

  lemma OthersAdd(s: State, op: Op)
    requires Inv(s) && Enabled(s, op) && (op.FinishCurrent? || op.SpawnFiber? || op.NewChannel?)
    ensures var t := Step(s, op); t.log == s.log && SameHeld(s, t) && SameSent(s, t)
  {
    CurrentIsKnown(s);
    hide Inv, SameHeld, SameSent, Spawn, Finish, MakeChannel;
    match op
    case SpawnFiber(f) =>
      NotYetSent(s, f);
      SpawnAdds(s, f);
    case FinishCurrent(ok) => FinishAdds(s, ok);
    case NewChannel(c, capacity, rendezvous) => ChannelAdds(s, c, capacity, rendezvous);
  }

  lemma SpawnAdds(s: State, f: Fid)
    requires f !in s.fibers && f !in s.sent
    ensures var t := Spawn(s, f).0; t.log == s.log && SameHeld(s, t) && SameSent(s, t)
  {
  }

  lemma FinishAdds(s: State, ok: bool)
    requires s.stack != [] && Current(s) in s.fibers
    ensures var t := Finish(s, ok); t.log == s.log && SameHeld(s, t) && SameSent(s, t)
  {
  }

  lemma ChannelAdds(s: State, c: Cid, capacity: nat, rendezvous: bool)
    requires c !in s.chans
    ensures var t := MakeChannel(s, c, capacity, rendezvous); t.log == s.log && SameHeld(s, t) && SameSent(s, t)
  {
  }

  lemma NotYetSent(s: State, f: Fid)
    requires Inv(s) && f !in s.fibers && f != MAIN
    ensures f !in s.sent
  {
  }

  // ---- over runs -------------------------------------------------------------------

  lemma {:induction false} RunKeepsValues(s: State, ops: seq<Op>, said: Fid -> seq<nat>)
    requires Inv(s) && Runs(s, ops) && ValuesOk(s, said)
    ensures ValuesOk(After(s, ops), AllSpoken(s, ops, said))
    decreases |ops|
  {
    hide Inv, Step, Carries, Says, ValuesOk;
    if ops == [] {
      SameSaid(s, said, AllSpoken(s, ops, said));
    } else {
      StepKeepsInvIff(s, ops[0]);
      StepKeepsValues(s, ops[0], said);
      var t, next := Step(s, ops[0]), SaidNext(s, ops[0], said);
      RunKeepsValues(t, ops[1..], next);
      forall f: Fid ensures AllSpoken(s, ops, said)(f) == AllSpoken(t, ops[1..], next)(f) {
        assert said(f) + Says(s, ops[0], f) + Spoken(t, ops[1..], f) == said(f) + (Says(s, ops[0], f) + Spoken(t, ops[1..], f));
      }
      SameSaid(After(s, ops), AllSpoken(t, ops[1..], next), AllSpoken(s, ops, said));
    }
  }

  lemma SameSaid(s: State, said: Fid -> seq<nat>, other: Fid -> seq<nat>)
    requires ValuesOk(s, said) && forall f :: other(f) == said(f)
    ensures ValuesOk(s, other)
  {
    AllCarryMore(s, said, other);
    hide Carries;
  }

  /** The value at a place. */
  ghost function ValueAt(s: State, p: Place, f: Fid, n: nat): nat
    requires IsAt(s, p, f, n)
  {
    match p
    case Delivered(c, i) => s.chans[c].delivered[i].value
    case Buffered(c, i) => s.chans[c].buffer[i].value
    case ReturnedToSender(k) => s.log[k].msg.value
    case HeldBySender => s.fibers[f].payload.value
  }

  lemma PlaceCarries(s: State, p: Place, f: Fid, n: nat, said: Fid -> seq<nat>)
    requires Inv(s) && ValuesOk(s, said) && IsAt(s, p, f, n)
    ensures n < |said(f)| && ValueAt(s, p, f, n) == said(f)[n]
  {
    match p
    case HeldBySender => assert Carries(s.fibers[f].payload, said);
    case ReturnedToSender(k) =>
      assert s.log[k] in s.log && Carries(s.log[k].msg, said);
    case Delivered(c, i) =>
      assert PushedOn(s.log, c)[i] == s.chans[c].delivered[i];
      PushedCarries(s, c, i, said);
    case Buffered(c, i) =>
      assert PushedOn(s.log, c)[|s.chans[c].delivered| + i] == s.chans[c].buffer[i];
      PushedCarries(s, c, |s.chans[c].delivered| + i, said);
  }

  lemma PushedCarries(s: State, c: Cid, i: nat, said: Fid -> seq<nat>)
    requires ValuesOk(s, said) && i < |PushedOn(s.log, c)|
    ensures Carries(PushedOn(s.log, c)[i], said)
  {
    var k := LogIndex(s.log, c, i);
    assert s.log[k] in s.log;
  }

  ghost function AllSpoken(s: State, ops: seq<Op>, said: Fid -> seq<nat>): Fid -> seq<nat>
    requires Inv(s) && Runs(s, ops)
  {
    (f: Fid) => said(f) + Spoken(s, ops, f)
  }

  ghost predicate FromStart(ops: seq<Op>) {
    InitInv();
    Runs(Init(), ops)
  }

  ghost function AtEnd(ops: seq<Op>): State
    requires FromStart(ops)
  {
    InitInv();
    After(Init(), ops)
  }

  /** The values that f's operations sent in a run from the start. */
  ghost function Said(ops: seq<Op>, f: Fid): seq<nat>
    requires FromStart(ops)
  {
    InitInv();
    Spoken(Init(), ops, f)
  }

  lemma ValuesAtEnd(ops: seq<Op>)
    requires FromStart(ops)
    ensures Inv(AtEnd(ops)) && ValuesOk(AtEnd(ops), (f: Fid) => Said(ops, f))
  {
    InitInv();
    var none := (f: Fid) => [];
    RunKeepsInv(Init(), ops);
    assert ValuesOk(Init(), none);
    RunKeepsValues(Init(), ops, none);
    hide Inv, Carries, ValuesOk, Spoken, Runs;
    SameSaid(AtEnd(ops), AllSpoken(Init(), ops, none), (f: Fid) => Said(ops, f));
  }

  /** Wherever the n-th message of a sender is after a run - delivered, buffered,
      returned or held - it carries the n-th value the sender's operations sent. */
  lemma MessagesCarryWhatWasSaid(ops: seq<Op>, p: Place, f: Fid, n: nat)
    requires FromStart(ops) && IsAt(AtEnd(ops), p, f, n)
    ensures n < |Said(ops, f)| && ValueAt(AtEnd(ops), p, f, n) == Said(ops, f)[n]
  {
    ValuesAtEnd(ops);
    hide Inv, ValuesOk, IsAt, ValueAt, Said, AtEnd, FromStart;
    PlaceCarries(AtEnd(ops), p, f, n, (g: Fid) => Said(ops, g));
  }

  /** Every value a fiber began to send is counted, in every run. */
  lemma SentCountsWhatWasSaid(ops: seq<Op>, f: Fid)
    requires FromStart(ops) && f in AtEnd(ops).sent
    ensures AtEnd(ops).sent[f] == |Said(ops, f)|
  {
    ValuesAtEnd(ops);
    var said := (g: Fid) => Said(ops, g);
    hide Inv, Said, AtEnd, FromStart, Carries;
    assert |said(f)| == AtEnd(ops).sent[f];
  }

  lemma {:induction false} SpokenIsProper(s: State, ops: seq<Op>, f: Fid)
    requires Inv(s) && Runs(s, ops)
    ensures EOF_VALUE !in Spoken(s, ops, f)
    decreases |ops|
  {
    hide Inv, Step;
    if ops != [] {
      StepKeepsInvIff(s, ops[0]);
      SpokenIsProper(Step(s, ops[0]), ops[1..], f);
    }
  }

  /** A woken receiver goes on with the end-of-file value exactly when its channel is
      closed and has nothing left: no message carries that value. */
  lemma EofMeansClosed(ops: seq<Op>, f: Fid)
    requires FromStart(ops)
    requires var s := AtEnd(ops);
             f in s.fibers && s.fibers[f].suspended && s.fibers[f].park.OnRecv? && s.fibers[f].waitingOn in s.chans
    ensures var s := AtEnd(ops); var ch := s.chans[s.fibers[f].waitingOn];
            HandedOver(s, Resume(s, f), f) == Received(EOF_VALUE) <==> ch.closed && ch.buffer == []
  {
    var s := AtEnd(ops);
    var c := s.fibers[f].waitingOn;
    ValuesAtEnd(ops);
    HandedIs(s, f);
    hide Inv, HandedOver, Resume, AtEnd, FromStart, Said;
    if s.chans[c].buffer != [] {
      var m := s.chans[c].buffer[0];
      BufferedCarries(s, c, (g: Fid) => Said(ops, g));
      SaidIsProper(ops, m.sender);
    }
  }

  lemma SaidIsProper(ops: seq<Op>, f: Fid)
    requires FromStart(ops)
    ensures EOF_VALUE !in Said(ops, f)
  {
    InitInv();
    SpokenIsProper(Init(), ops, f);
  }

  lemma BufferedCarries(s: State, c: Cid, said: Fid -> seq<nat>)
    requires Inv(s) && ValuesOk(s, said) && c in s.chans && s.chans[c].buffer != []
    ensures Carries(s.chans[c].buffer[0], said)
  {
    assert PushedOn(s.log, c)[|s.chans[c].delivered|] == s.chans[c].buffer[0];
    PushedCarries(s, c, |s.chans[c].delivered|, said);
  }

  // ---- turns ---------------------------------------------------------------------

  lemma {:induction false} WakingAppends(s: State, list: seq<Fid>)
    ensures s.ready <= WakeAll(s, list).ready
  {
    if list != [] {
      WakingAppends(s, list[..|list| - 1]);
    }
  }

  lemma PushAppends(s: State, c: Cid, m: Msg)
    requires c in s.chans
    ensures s.ready <= PushMsg(s, c, m).ready
  {
    var ch := s.chans[c].(buffer := s.chans[c].buffer + [m]);
    WakingAppends(s.(chans := s.chans[c := ch], log := s.log + [Pushed(c, m)]), ch.recv);
  }

  lemma PopAppends(s: State, c: Cid)
    requires c in s.chans && s.chans[c].buffer != []
    ensures s.ready <= PopMsg(s, c).ready
  {
    var b := s.chans[c].buffer;
    var ch := s.chans[c].(buffer := b[1..], delivered := s.chans[c].delivered + [b[0]]);
    WakingAppends(s.(chans := s.chans[c := ch]), ch.send);
  }

  lemma CloseAppends(s: State, c: Cid)
    requires c in s.chans
    ensures s.ready <= Close(s, c).ready
  {
    if !s.chans[c].closed {
      var u := s.(chans := s.chans[c := s.chans[c].(closed := true)]);
      WakingAppends(u, u.chans[c].recv);
      var v := WakeRecv(u, c);
      WakingAppends(v, v.chans[c].send);
    }
  }

  lemma TurnAppends(s: State, f: Fid)
    requires f in s.fibers && (s.fibers[f].suspended && !s.fibers[f].park.NoPark? ==> s.fibers[f].waitingOn in s.chans)
    ensures s.ready <= Resume(s, f).ready
  {
    hide PushMsg, PopMsg;
    var fb := s.fibers[f];
    var run := s.(fibers := s.fibers[f := fb.(state := Running)]);
    if fb.suspended && !fb.park.NoPark? {
      if fb.park.OnRecv? {
        if s.chans[fb.waitingOn].buffer != [] { PopAppends(run, fb.waitingOn); }
      } else {
        PushAppends(run, fb.waitingOn, fb.payload);
      }
    }
  }

  /** Only a turn of the scheduler takes from the ready queue, its head; everything else
      is put behind what is there. */
  lemma ReadyInOrder(s: State, op: Op)
    requires Inv(s) && Enabled(s, op)
    ensures (if op.Schedule? && s.ready != [] then s.ready[1..] else s.ready) <= Step(s, op).ready
  {
    CurrentIsKnown(s);
    hide Inv, Send, PopMsg, Close, Resume, ParkCurrent;
    match op
    case SendTo(c, v, mayPark) => SendAppends(s, c, v, mayPark);
    case ReceiveFrom(c, _) => if s.chans[c].buffer != [] { PopAppends(s, c); } else { ParkingKeepsReady(s, c); }
    case CloseChannel(c) => CloseAppends(s, c);
    case Schedule => if s.ready != [] { TurnAppends(Dequeue(s), s.ready[0]); }
    case _ =>
  }

  lemma SendAppends(s: State, c: Cid, v: nat, mayPark: bool)
    requires c in s.chans && Current(s) in s.sent && (s.stack != [] ==> Current(s) in s.fibers)
    ensures s.ready <= Send(s, c, v, mayPark).0.ready
  {
    hide PushMsg;
    PushAppends(CountSend(s, Current(s)), c, Msg(Current(s), s.sent[Current(s)], v));
  }

  lemma ParkingKeepsReady(s: State, c: Cid)
    requires c in s.chans
    ensures s.stack != [] && Current(s) in s.fibers ==> ParkCurrent(s, c, OnRecv).ready == s.ready
  {
  }

  function Turns(ops: seq<Op>): nat {
    if ops == [] then 0 else (if ops[0].Schedule? then 1 else 0) + Turns(ops[1..])
  }

  /** A fiber in the ready queue is at its head after as many turns as fibers stood
      before it, whatever else happens. */
  lemma {:induction false} TurnComes(s: State, ops: seq<Op>, i: nat)
    requires Inv(s) && Runs(s, ops) && i < |s.ready| && Turns(ops) <= i
    ensures i - Turns(ops) < |After(s, ops).ready| && After(s, ops).ready[i - Turns(ops)] == s.ready[i]
    decreases |ops|
  {
    hide Inv, Step;
    if ops != [] {
      StepKeepsInvIff(s, ops[0]);
      ReadyInOrder(s, ops[0]);
      var t, k := Step(s, ops[0]), if ops[0].Schedule? then 1 else 0;
      assert t.ready[i - k] == s.ready[i];
      TurnComes(t, ops[1..], i - k);
    }
  }
}
