/** No reachable state of a channel is a dead end: whatever the interleaving so far, with packets lost,
    given up or cleared by a close of the receiving side, copies that the network still delivers are
    enough to hand the handlers every message sent, without another event of the sender
    (`pkg/channel/channel.go`). */
module Completion {
  import opened Bytes
  import opened ReceiveRing
  import opened Envelope
  import opened EndToEnd
  import Receiver
  import Sender

  // ---------------------------------------------------------------- every send is on the wire

  ghost predicate Carries(wire: seq<Sender.Transmission>, h: nat) {
    exists p :: 0 <= p < |wire| && wire[p].handle == h
  }

  ghost predicate AllOnWire(t: Sender.State) {
    forall h :: 0 <= h < |t.sends| ==> Carries(t.wire, h)
  }

  lemma CarriesStill(a: seq<Sender.Transmission>, b: seq<Sender.Transmission>, h: nat)
    requires Carries(a, h) && a <= b
    ensures Carries(b, h)
  {
    var p :| 0 <= p < |a| && a[p].handle == h;
    assert b[p] == a[p];
  }

  lemma WireGrows(t: Sender.State, e: Sender.Event)
    ensures var u := Sender.Apply(t, e);
            && t.wire <= u.wire
            && (|u.sends| > |t.sends| ==> |u.sends| == |t.sends| + 1 && Carries(u.wire, |t.sends|))
  {
    if e.OutletAccepts? && t.pc.Committed? {
      var u := Sender.Apply(t, e);
      if |u.sends| > |t.sends| { assert u.wire[|t.wire|].handle == |t.sends|; }
    }
  }

  lemma ApplyKeepsWire(t: Sender.State, e: Sender.Event)
    requires AllOnWire(t)
    ensures AllOnWire(Sender.Apply(t, e))
  {
    var u := Sender.Apply(t, e);
    WireGrows(t, e);
    forall h | 0 <= h < |u.sends|
      ensures Carries(u.wire, h)
    {
      if h < |t.sends| { CarriesStill(t.wire, u.wire, h); }
    }
  }

  lemma {:induction false} RunOnWire(rtt: real, events: seq<Event>)
    ensures AllOnWire(Run(Init(rtt), events).tx)
  {
    if events != [] {
      var s, e := Run(Init(rtt), events[..|events| - 1]), events[|events| - 1];
      RunOnWire(rtt, events[..|events| - 1]);
      if e.Sending? { ApplyKeepsWire(s.tx, e.txEvent); }
    }
  }

  // ---------------------------------------------------------------- continuations

  /** Only the network and the receiver's workers move. */
  ghost predicate Onward(events: seq<Event>) {
    forall i :: 0 <= i < |events| ==>
      events[i].Network? || (events[i].Receiving? && events[i].rxEvent != Receiver.Close)
  }

  lemma {:induction false} RunConcat(s: State, a: seq<Event>, b: seq<Event>)
    ensures Run(s, a + b) == Run(Run(s, a), b)
  {
    if b == [] {
      assert a + b == a;
    } else {
      RunConcat(s, a, b[..|b| - 1]);
      assert (a + b)[..|a + b| - 1] == a + b[..|b| - 1];
    }
  }

  lemma {:induction false} OnwardKeeps(s: State, more: seq<Event>)
    requires Inv(s) && Onward(more)
    ensures Inv(Run(s, more)) && Run(s, more).tx == s.tx
  {
    if more != [] {
      OnwardKeeps(s, more[..|more| - 1]);
      ApplyKeepsInv(Run(s, more[..|more| - 1]), more[|more| - 1]);
    }
  }

  lemma OnwardConcat(s: State, a: seq<Event>, b: seq<Event>)
    requires Inv(s) && Onward(a) && Onward(b)
    ensures Onward(a + b) && Run(s, a + b) == Run(Run(s, a), b) && Inv(Run(s, a)) && Run(s, a).tx == s.tx
  {
    RunConcat(s, a, b);
    OnwardKeeps(s, a);
  }

  // ---------------------------------------------------------------- the worker that owns the lock finishes

  /** What the owner of the lock does next. */
  ghost function OwnerEvent(r: Receiver.State): Receiver.Event
    requires r.lock.HeldBy? && r.lock.worker in r.workers
  {
    var w := r.lock.worker;
    match r.workers[w]
    case Dispatching(batch) => if batch == [] then Receiver.Release(w) else Receiver.Dispatch(w)
    case _ => Receiver.Process(w)
  }

  ghost predicate Locked(r: Receiver.State) {
    r.lock.HeldBy? && r.lock.worker in r.workers && r.workers[r.lock.worker].Locked?
  }

  lemma OwnerStep(r: Receiver.State)
    requires Receiver.Inv(r) && r.lock.HeldBy?
    ensures r.lock.worker in r.workers && OwnerEvent(r) != Receiver.Close && !OwnerEvent(r).Arrive?
    ensures var u := Receiver.Apply(r, OwnerEvent(r));
            && |u.drained| >= |r.drained|
            && (u.lock.HeldBy? ==> !Locked(u) && (Locked(r) || |Receiver.Undispatched(u)| < |Receiver.Undispatched(r)|))
  {
  }

  lemma {:induction false} Unlock(s: State) returns (more: seq<Event>)
    requires Inv(s)
    ensures Onward(more) && Run(s, more).rx.lock == Receiver.Free
    ensures |Run(s, more).rx.drained| >= |s.rx.drained|
    decreases Locked(s.rx), |Receiver.Undispatched(s.rx)|
  {
    if s.rx.lock == Receiver.Free {
      more := [];
    } else {
      OwnerStep(s.rx);
      var e := Receiving(OwnerEvent(s.rx));
      var u := Apply(s, e);
      assert Run(s, [e]) == Apply(Run(s, []), e);
      ApplyKeepsInv(s, e);
      if u.rx.lock == Receiver.Free {
        more := [e];
      } else {
        var rest := Unlock(u);
        OnwardConcat(s, [e], rest);
        more := [e] + rest;
      }
    }
  }

  // ---------------------------------------------------------------- the next message arrives

  lemma {:induction false} Above(a: set<nat>) returns (n: nat)
    ensures forall x :: x in a ==> x < n
  {
    if a == {} {
      n := 0;
    } else {
      var x :| x in a;
      var m := Above(a - {x});
      n := if m <= x then x + 1 else m;
      assert forall y :: y in a ==> y == x || y in a - {x};
    }
  }

  /** A transmission of the message the receiver waits for. */
  lemma NextOnWire(s: State) returns (p: nat)
    requires Inv(s) && AllOnWire(s.tx) && |s.tx.sends| < SEQ_MODULUS && |s.rx.drained| < |s.tx.sends|
    ensures p < |s.tx.wire|
    ensures var n := |s.rx.drained|;
            Parse(s.tx.wire[p].raw) == Parsed(Rx(n, s.tx.sends[n])) && s.rx.next == n
  {
    var n := |s.rx.drained|;
    assert Carries(s.tx.wire, n);
    p :| 0 <= p < |s.tx.wire| && s.tx.wire[p].handle == n;
    ParsePack(n, s.tx.sends[n], []);
    assert s.tx.wire[p].raw + [] == s.tx.wire[p].raw;
    Receiver.CursorIs(s.rx);
  }

  /** A free worker takes the expected message through the lock into the drained list. */
  lemma ExpectedTaken(r: Receiver.State, w: nat, data: seq<octet>)
    requires w !in r.workers && r.lock == Receiver.Free && !Holds(r.ring, r.next)
    requires Parse(data).Parsed? && Parse(data).env.sequence == r.next
    ensures var a := Receiver.Apply(r, Receiver.Arrive(w, data, true));
            var u := Receiver.Apply(Receiver.Apply(a, Receiver.Acquire(w)), Receiver.Process(w));
            |u.drained| > |r.drained|
  {
    var env := Parse(data).env;
    AcceptedIffInWindow(r.next, r.next);
    var a := Receiver.Apply(r, Receiver.Arrive(w, data, true));
    var b := Receiver.Apply(a, Receiver.Acquire(w));
    assert b.workers[w] == Receiver.Locked(env) && b.ring == r.ring && b.next == r.next && b.drained == r.drained;
    ExpectedIsDrained(r.ring, r.next, env);
    Receiver.ProcessPath(b, w);
  }

  lemma RunThree(s: State, a: Event, b: Event, c: Event)
    ensures Run(s, [a, b, c]) == Apply(Apply(Apply(s, a), b), c)
  {
    assert [a, b, c][..2] == [a, b] && [a, b][..1] == [a];
    assert Run(s, [a]) == Apply(Run(s, []), a);
  }

  lemma DeliverNext(s: State) returns (more: seq<Event>)
    requires Inv(s) && AllOnWire(s.tx) && |s.tx.sends| < SEQ_MODULUS && |s.rx.drained| < |s.tx.sends|
    requires s.rx.lock == Receiver.Free
    ensures Onward(more) && |Run(s, more).rx.drained| > |s.rx.drained|
  {
    var p := NextOnWire(s);
    var w := Above(s.rx.workers.Keys);
    more := [Network(p, w, true), Receiving(Receiver.Acquire(w)), Receiving(Receiver.Process(w))];
    RunThree(s, more[0], more[1], more[2]);
    ExpectedTaken(s.rx, w, s.tx.wire[p].raw);
  }

  // ---------------------------------------------------------------- everything arrives

  lemma AllDelivered(s: State)
    requires Inv(s) && |s.tx.sends| < SEQ_MODULUS && s.rx.lock == Receiver.Free
    requires |s.rx.drained| >= |s.tx.sends|
    ensures Messages(s.rx.dispatched) == s.tx.sends
  {
    DrainedIsPrefix(s);
    assert s.rx.dispatched + [] == s.rx.dispatched;
  }

  lemma {:induction false} Finish(s: State) returns (more: seq<Event>)
    requires Inv(s) && AllOnWire(s.tx) && |s.tx.sends| < SEQ_MODULUS
    ensures Onward(more) && Run(s, more).tx == s.tx && Messages(Run(s, more).rx.dispatched) == s.tx.sends
    decreases |s.tx.sends| - |s.rx.drained|
  {
    more := Unlock(s);
    OnwardKeeps(s, more);
    var u := Run(s, more);
    if |u.rx.drained| >= |s.tx.sends| {
      AllDelivered(u);
    } else {
      var next := DeliverNext(u);
      OnwardKeeps(u, next);
      var rest := Finish(Run(u, next));
      OnwardConcat(u, next, rest);
      OnwardConcat(s, more, next + rest);
      more := more + (next + rest);
    }
  }

  /** From every reachable state with fewer than 65536 sends, the network and the receiver alone can
      hand the handlers everything that was sent, in order. */
  lemma Completes(rtt: real, events: seq<Event>)
    requires |Run(Init(rtt), events).tx.sends| < SEQ_MODULUS
    ensures var s := Run(Init(rtt), events);
            exists more :: Onward(more) && Run(s, more).tx == s.tx && Messages(Run(s, more).rx.dispatched) == s.tx.sends
  {
    RunKeepsInv(rtt, events);
    RunOnWire(rtt, events);
    var more := Finish(Run(Init(rtt), events));
    assert Onward(more);
  }
}
