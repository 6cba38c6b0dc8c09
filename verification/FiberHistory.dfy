/** What the moves of fibers do to the channels, their history and the books. */
module FiberHistory {
  import opened FiberSpec
  import opened FiberInv

  /** The sends of a fiber that are over. */
  function Over(s: State, f: Fid): int
    requires f in s.sent
  {
    s.sent[f] - Outstanding(s, f)
  }

  ghost predicate Holds(s: State, f: Fid)
    requires f in s.sent
  {
    Outstanding(s, f) == 1 ==>
      s.sent[f] >= 1 && s.fibers[f].payload.sender == f && s.fibers[f].payload.number == s.sent[f] - 1
  }

  lemma NumbersOneMore(log: seq<Entry>, e: Entry, f: Fid)
    ensures NumbersOf(log + [e], f) == NumbersOf(log, f) + if e.msg.sender == f then [e.msg.number] else []
  {
    assert (log + [e])[..|log + [e]| - 1] == log;
  }

  lemma CountOneMore(n: nat)
    ensures seq(n + 1, i => i) == seq(n, i => i) + [n]
  {
  }

  lemma OneMoreAccount(s: State, t: State, e: Entry, f: Fid)
    requires f in s.sent && f in t.sent && AccountOf(s, f) && t.log == s.log + [e] && Holds(t, f)
    requires if e.msg.sender == f then e.msg.number == Over(s, f) && Over(t, f) == Over(s, f) + 1
             else Over(t, f) == Over(s, f)
    ensures AccountOf(t, f)
  {
    hide NumbersOf;
    NumbersOneMore(s.log, e, f);
    CountOneMore(Over(s, f));
  }

  /** One more send is over, the next one of its sender. */
  lemma OneMoreIsAccounted(s: State, t: State, e: Entry)
    requires Accounted(s) && t.log == s.log + [e]
    requires t.sent.Keys == s.sent.Keys && t.fibers.Keys == s.fibers.Keys && e.msg.sender in s.sent
    requires e.msg.number == Over(s, e.msg.sender) && Over(t, e.msg.sender) == Over(s, e.msg.sender) + 1
    requires forall f <- s.sent :: Holds(t, f) && (f != e.msg.sender ==> Over(t, f) == Over(s, f))
    ensures Accounted(t)
  {
    hide AccountOf, Holds, Over;
    forall f <- t.sent ensures AccountOf(t, f) {
      OneMoreAccount(s, t, e, f);
    }
  }

  lemma NoSendsBefore(log: seq<Entry>, f: Fid)
    requires forall e <- log :: e.msg.sender != f
    ensures NumbersOf(log, f) == []
  {
  }

  lemma NoPushesBefore(log: seq<Entry>, c: Cid)
    requires forall e <- log :: e.Pushed? ==> e.chan != c
    ensures PushedOn(log, c) == []
  {
  }

  /** No send is over that was not before; new senders have sent nothing. */
  lemma NoMoreIsAccounted(s: State, t: State)
    requires Accounted(s) && t.log == s.log
    requires t.sent.Keys == t.fibers.Keys + {MAIN} && s.sent.Keys <= t.sent.Keys
    requires forall f <- t.sent :: Holds(t, f) && Over(t, f) == if f in s.sent then Over(s, f) else 0
    ensures Accounted(t)
  {
    forall f <- t.sent ensures AccountOf(t, f) {
      assert Holds(t, f);
      if f !in s.sent {
        NoSendsBefore(t.log, f);
      }
    }
  }

  /** Fibers agree on what the books are kept by. */
  ghost predicate SameBooks(s: State, t: State) {
    && t.fibers.Keys == s.fibers.Keys
    && forall f <- s.fibers ::
         t.fibers[f].park.OnSend? == s.fibers[f].park.OnSend? && t.fibers[f].payload == s.fibers[f].payload
  }

  lemma SameBooksAreAccounted(s: State, t: State)
    requires Accounted(s) && SameBooks(s, t) && t.log == s.log && t.sent == s.sent
    ensures Accounted(t)
  {
    forall f <- t.sent ensures AccountOf(t, f) {
      assert AccountOf(s, f);
    }
  }

  lemma PushBooks(s: State, c: Cid, m: Msg)
    requires c in s.chans
    ensures var t := PushMsg(s, c, m);
            && SameBooks(s, t)
            && t.log == s.log + [Pushed(c, m)] && t.sent == s.sent
            && t.chans == s.chans[c := s.chans[c].(buffer := s.chans[c].buffer + [m], recv := [])]
            && (forall f <- s.fibers :: !s.fibers[f].state.Waiting? ==> t.fibers[f] == s.fibers[f])
  {
    var ch := s.chans[c];
    var u := s.(chans := s.chans[c := ch.(buffer := ch.buffer + [m])], log := s.log + [Pushed(c, m)]);
    WakeAllKeepsFields(u, ch.recv);
  }

  lemma PopBooks(s: State, c: Cid)
    requires c in s.chans && s.chans[c].buffer != []
    ensures var t := PopMsg(s, c); var ch := s.chans[c];
            && SameBooks(s, t)
            && t.log == s.log && t.sent == s.sent
            && t.chans == s.chans[c := ch.(buffer := ch.buffer[1..], delivered := ch.delivered + [ch.buffer[0]], send := [])]
            && (forall f <- s.fibers :: !s.fibers[f].state.Waiting? ==> t.fibers[f] == s.fibers[f])
  {
    var ch := s.chans[c];
    var u := s.(chans := s.chans[c := ch.(buffer := ch.buffer[1..], delivered := ch.delivered + [ch.buffer[0]])]);
    WakeAllKeepsFields(u, ch.send);
  }

  lemma CloseBooks(s: State, c: Cid)
    requires c in s.chans && !s.chans[c].closed
    ensures var t := Close(s, c);
            && SameBooks(s, t)
            && t.log == s.log && t.sent == s.sent
            && t.chans == s.chans[c := s.chans[c].(closed := true, recv := [], send := [])]
  {
    var u := s.(chans := s.chans[c := s.chans[c].(closed := true)]);
    var v := WakeRecv(u, c);
    WakeAllKeepsFields(u, u.chans[c].recv);
    WakeAllKeepsFields(v, v.chans[c].send);
  }

  /** What a woken fiber goes on with: a receiver with the oldest message, or at the end
      of a closed channel with the end-of-file value; a sender with an error when the
      channel was closed; and it waits on when what it waited for is not there. */
  lemma HandedIs(s: State, f: Fid)
    requires f in s.fibers && (s.fibers[f].suspended && !s.fibers[f].park.NoPark? ==> s.fibers[f].waitingOn in s.chans)
    ensures var fb, got := s.fibers[f], HandedOver(s, Resume(s, f), f);
            if !fb.suspended || fb.park.NoPark? then got == Plain
            else
              var ch := s.chans[fb.waitingOn];
              got == if fb.park.OnRecv? then
                       if ch.buffer != [] then Received(ch.buffer[0].value)
                       else if ch.closed then Received(EOF_VALUE) else Waits
                     else if ch.closed then Raised else if CanSend(ch) then Plain else Waits
  {
    hide PushMsg, PopMsg;
    var fb := s.fibers[f];
    var run := s.(fibers := s.fibers[f := fb.(state := Running)]);
    if fb.suspended && !fb.park.NoPark? {
      var c := fb.waitingOn;
      if fb.park.OnRecv? {
        if s.chans[c].buffer != [] { PopBooks(run, c); }
      } else {
        PushBooks(run, c, fb.payload);
      }
    }
  }

  // ---- channels and their history ----------------------------------------

  lemma PushKeepsFifo(s: State, t: State, c: Cid, m: Msg)
    requires Fifo(s) && c in s.chans
    requires t.log == s.log + [Pushed(c, m)]
    requires t.chans == s.chans[c := s.chans[c].(buffer := s.chans[c].buffer + [m], recv := [])]
    ensures Fifo(t)
  {
    assert t.log[..|t.log| - 1] == s.log;
  }

  lemma RefuseKeepsFifo(s: State, t: State, m: Msg)
    requires Fifo(s) && t.log == s.log + [Refused(m)] && t.chans == s.chans
    ensures Fifo(t)
  {
    assert t.log[..|t.log| - 1] == s.log;
  }

  lemma PopKeepsFifo(s: State, t: State, c: Cid)
    requires Fifo(s) && c in s.chans && s.chans[c].buffer != [] && t.log == s.log
    requires var ch := s.chans[c];
             t.chans == s.chans[c := ch.(buffer := ch.buffer[1..], delivered := ch.delivered + [ch.buffer[0]], send := [])]
    ensures Fifo(t)
  {
    assert t.chans[c].delivered + t.chans[c].buffer == s.chans[c].delivered + s.chans[c].buffer;
  }

  lemma PushKeepsChans(s: State, t: State, c: Cid, m: Msg)
    requires ChansOk(s) && c in s.chans && CanSend(s.chans[c])
    requires t.chans == s.chans[c := s.chans[c].(buffer := s.chans[c].buffer + [m], recv := [])]
    ensures ChansOk(t)
  {
    assert ChanOk(s.chans[c]);
  }

  lemma PopKeepsChans(s: State, t: State, c: Cid)
    requires ChansOk(s) && c in s.chans && s.chans[c].buffer != []
    requires var ch := s.chans[c];
             t.chans == s.chans[c := ch.(buffer := ch.buffer[1..], delivered := ch.delivered + [ch.buffer[0]], send := [])]
    ensures ChansOk(t)
  {
    assert ChanOk(s.chans[c]);
  }

  /** A fiber joins a list its channel allows to have waiters, or the list is full. */
  lemma JoinKeepsChans(s: State, t: State, c: Cid, park: Park, f: Fid)
    requires ChansOk(s) && Fifo(s) && c in s.chans && !park.NoPark?
    requires !s.chans[c].closed && if park.OnRecv? then s.chans[c].buffer == [] else !CanSend(s.chans[c])
    requires t.log == s.log
    requires || t.chans == s.chans
             || t.chans == s.chans[c := if park.OnRecv? then s.chans[c].(recv := s.chans[c].recv + [f])
                                        else s.chans[c].(send := s.chans[c].send + [f])]
    ensures ChansOk(t) && Fifo(t)
  {
    assert ChanOk(s.chans[c]);
  }
}
