/** No reachable state of an open backbone stream is a dead end: with frames that fit the queue, write
    events that happen only while write interest is armed are enough to bring every queued byte to
    the peer, without another send (`pkg/backbone/hub.go`). */
module Draining {
  import opened Bytes
  import opened Hdlc
  import opened Backbone

  // ---------------------------------------------------------------- continuations

  /** Nothing is sent or closed, and the poller reports a writable socket only if it was asked to. */
  ghost predicate May(s: State, e: Event) {
    e.Arm? || e.SocketTakes? || e.WriteReturns? || e.PeerReads? || (e.WriteEvent? && s.armed)
  }

  ghost predicate Runs(c: Config, s: State, more: seq<Event>) {
    forall i :: 0 <= i < |more| ==> May(Run(c, s, more[..i]), more[i])
  }

  ghost predicate Reaches(c: Config, s: State, u: State) {
    exists more :: Runs(c, s, more) && Run(c, s, more) == u
  }

  lemma {:induction false} RunConcat(c: Config, s: State, a: seq<Event>, b: seq<Event>)
    ensures Run(c, s, a + b) == Run(c, Run(c, s, a), b)
  {
    if b == [] {
      assert a + b == a;
    } else {
      RunConcat(c, s, a, b[..|b| - 1]);
      assert (a + b)[..|a + b| - 1] == a + b[..|b| - 1];
    }
  }

  lemma ReachesSelf(c: Config, s: State)
    ensures Reaches(c, s, s)
  {
    assert Runs(c, s, []) && Run(c, s, []) == s;
  }

  lemma ReachesOn(c: Config, s: State, u: State, e: Event)
    requires Reaches(c, s, u) && May(u, e)
    ensures Reaches(c, s, Apply(c, u, e))
  {
    var more :| Runs(c, s, more) && Run(c, s, more) == u;
    var all := more + [e];
    assert all[..|more|] == more;
    forall i | 0 <= i < |all|
      ensures May(Run(c, s, all[..i]), all[i])
    {
      if i < |more| { assert all[..i] == more[..i]; }
    }
    assert Runs(c, s, all) && Run(c, s, all) == Apply(c, u, e);
  }

  /** A state reached from a reachable one is reachable. */
  lemma StillReachable(c: Config, events: seq<Event>, u: State) returns (all: seq<Event>)
    requires Reaches(c, Run(c, Init(false), events), u)
    ensures Run(c, Init(false), all) == u
  {
    var s := Run(c, Init(false), events);
    var more :| Runs(c, s, more) && Run(c, s, more) == u;
    RunConcat(c, Init(false), events, more);
    all := events + more;
  }

  // ---------------------------------------------------------------- the three phases

  /** Nothing was queued and the stream is still open. */
  ghost predicate Same(s: State, u: State) {
    u.queued == s.queued && u.closed == s.closed && u.goMode == s.goMode
  }

  /** The rest of a write goes out and the loop returns to the poller. */
  lemma Flushed(c: Config, u: State)
    requires u.loop.Writing? && u.loop.written <= |u.loop.buf|
    ensures var w := Apply(c, u, SocketTakes(|u.loop.buf| - u.loop.written));
            var v := Apply(c, w, WriteReturns);
            Same(u, v) && v.loop.Polling? && v.core.txBuf == u.core.txBuf
  {
    var w := Apply(c, u, SocketTakes(|u.loop.buf| - u.loop.written));
    assert w.loop == Writing(u.loop.buf, |u.loop.buf|) && w.core == u.core && Same(u, w);
    assert w.loop.buf[w.loop.written..] + w.core.txBuf == w.core.txBuf;
  }

  /** A write in progress is finished. */
  lemma FinishWrite(c: Config, s: State, u: State) returns (v: State)
    requires Reaches(c, s, u) && LoopOk(u)
    ensures Reaches(c, s, v) && Same(u, v) && v.loop.Polling? && v.core.txBuf == u.core.txBuf
  {
    v := u;
    if u.loop.Writing? {
      Flushed(c, u);
      var e := SocketTakes(|u.loop.buf| - u.loop.written);
      ReachesOn(c, s, u, e);
      ReachesOn(c, s, Apply(c, u, e), WriteReturns);
      v := Apply(c, Apply(c, u, e), WriteReturns);
    }
  }

  /** A sender that is about to arm write interest does. */
  lemma ArmIt(c: Config, s: State, u: State) returns (v: State)
    requires Reaches(c, s, u) && !u.closed && (u.armed || Someone(u, Arming))
    ensures Reaches(c, s, v) && Same(u, v) && v.armed && v.loop == u.loop && v.core == u.core
  {
    v := u;
    if !u.armed {
      var t :| t in u.senders && u.senders[t] == Arming;
      ReachesOn(c, s, u, Arm(t));
      v := Apply(c, u, Arm(t));
    }
  }

  lemma QueueTaken(c: Config, u: State)
    requires u.loop.Polling? && !u.goMode && u.core.txBuf != []
    ensures var w := Apply(c, u, WriteEvent);
            Same(u, w) && w.loop == Writing(u.core.txBuf, 0) && w.core.txBuf == []
  {
  }

  /** The queue goes out in one write event. */
  lemma WriteQueue(c: Config, s: State, u: State) returns (v: State)
    requires Reaches(c, s, u) && u.loop.Polling? && u.armed && !u.goMode && u.core.txBuf != []
    ensures Reaches(c, s, v) && Same(u, v) && v.loop.Polling? && v.core.txBuf == []
  {
    QueueTaken(c, u);
    ReachesOn(c, s, u, WriteEvent);
    v := FinishWrite(c, s, Apply(c, u, WriteEvent));
  }

  lemma ReadAll(c: Config, s: State, u: State) returns (v: State)
    requires Reaches(c, s, u) && u.read <= |u.wire|
    ensures Reaches(c, s, v) && Same(u, v) && v.loop == u.loop && v.core == u.core
    ensures v.wire == u.wire && v.read == |v.wire|
  {
    ReachesOn(c, s, u, PeerReads(|u.wire| - u.read));
    v := Apply(c, u, PeerReads(|u.wire| - u.read));
  }

  // ---------------------------------------------------------------- everything goes out

  lemma EmptyQueue(c: Config, events: seq<Event>) returns (v: State)
    requires var s := Run(c, Init(false), events); !s.closed && FramesFit(s.queued, MAX_STREAM_QUEUE_BYTES)
    ensures var s := Run(c, Init(false), events);
            Reaches(c, s, v) && Same(s, v) && v.loop.Polling? && v.core.txBuf == []
  {
    var s := Run(c, Init(false), events);
    ReachesSelf(c, s);
    RunConserves(c, false, events);
    RunKeepsInterest(c, events);
    v := FinishWrite(c, s, s);
    if v.core.txBuf != [] {
      var all := StillReachable(c, events, v);
      FittingNeverStrands(c, all);
      v := ArmIt(c, s, v);
      v := WriteQueue(c, s, v);
    }
  }

  /** From every reachable state of an open stream whose frames fit the queue, without another send
      and with write events only while interest is armed, the peer gets exactly what the payloads
      decode to. */
  lemma Drains(c: Config, events: seq<Event>)
    requires var s := Run(c, Init(false), events); !s.closed && FramesFit(s.queued, 8388608)
    ensures var s := Run(c, Init(false), events);
            exists u :: && Reaches(c, s, u) && u.queued == s.queued && u.wire == FrameAll(s.queued)
                        && u.peer.packets == Emitted(c, FittingPrefix(c, s.queued))
  {
    var s := Run(c, Init(false), events);
    var v := EmptyQueue(c, events);
    var most := StillReachable(c, events, v);
    RunConserves(c, false, most);
    var u := ReadAll(c, s, v);
    var all := StillReachable(c, events, u);
    EndToEndExact(c, false, all);
    RunConserves(c, false, all);
    assert u.wire + ([] + []) == u.wire;
  }
}
