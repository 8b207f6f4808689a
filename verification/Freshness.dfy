/** Channels of any length (`pkg/channel/channel.go`): what must be true of the packets that get past
    the acceptance test for delivery to stay in order and duplicate-free after the sequence space has
    wrapped. */
module Freshness {
  import opened ReceiveRing
  import opened Envelope
  import Sender
  import Receiver
  import opened EndToEnd

  /** What the network may do: how far, in messages, an accepted packet may be from the receiver's
      position, and whether one may arrive whose twin is hidden in the ring. */
  datatype Rule = Rule(within: nat, twins: bool)

  ghost predicate SentNear(sends: seq<Message>, env: Receiver.Env, n: nat, within: nat, h: nat) {
    SentAs(sends, env, h) && n < h + within && h < n + within
  }

  ghost predicate Timely(sends: seq<Message>, env: Receiver.Env, n: nat, within: nat) {
    exists h: nat :: SentNear(sends, env, n, within, h)
  }

  ghost predicate Allowed(rule: Rule, s: State, env: Receiver.Env) {
    Accepted(env.sequence, s.rx.next) ==>
      && Timely(s.tx.sends, env, |s.rx.drained|, rule.within)
      && (rule.twins || !HiddenTwin(s.rx.ring, s.rx.next, env.sequence))
  }

  /** The rule is about the packets that a worker puts to the acceptance test under the lock. */
  ghost predicate StepAllowed(rule: Rule, s: State, e: Event) {
    e.Receiving? && e.rxEvent.Process? && e.rxEvent.w in s.rx.workers && s.rx.workers[e.rxEvent.w].Locked?
    ==> Allowed(rule, s, s.rx.workers[e.rxEvent.w].env)
  }

  ghost predicate RunAllowed(rule: Rule, s: State, events: seq<Event>) {
    events == [] ||
    (var init := events[..|events| - 1];
     RunAllowed(rule, s, init) && StepAllowed(rule, Run(s, init), events[|events| - 1]))
  }

  /** The rules under which delivery is proved below: 65488 is the sequence space minus the window. */
  predicate Strict(rule: Rule) {
    rule.within <= if rule.twins then 3 else SEQ_MODULUS - WINDOW_MAX
  }

  // ---------------------------------------------------------------- the ring of a fresh run

  /** How far ahead of the receiver's position the ring reaches. */
  function Width(rule: Rule): nat { if rule.twins then 2 else WINDOW_MAX }

  ghost predicate SentAt(sends: seq<Message>, env: Receiver.Env, lo: nat, hi: nat, h: nat) {
    SentAs(sends, env, h) && lo <= h <= hi
  }

  /** Sent as one of the messages lo .. hi. */
  ghost predicate Placed(sends: seq<Message>, env: Receiver.Env, lo: nat, hi: nat) {
    exists h: nat :: SentAt(sends, env, lo, hi, h)
  }

  ghost predicate AllPlaced(sends: seq<Message>, ring: seq<Receiver.Env>, lo: nat, hi: nat) {
    forall i :: 0 <= i < |ring| ==> Placed(sends, ring[i], lo, hi)
  }

  ghost predicate Matched(sends: seq<Message>, envs: seq<Receiver.Env>, n: nat) {
    forall k :: 0 <= k < |envs| ==> SentAs(sends, envs[k], n + k)
  }

  /** No entry stands behind a larger one that it would be inserted before. */
  ghost predicate Untwinnable(ring: seq<Receiver.Env>, next: Seq16) {
    forall i, j :: 0 <= i < j < |ring| ==> !InsertsBefore(ring[j].sequence, ring[i].sequence, next)
  }

  /** The ring holds each of the next few messages at most once. */
  ghost predicate RingOk(rule: Rule, sends: seq<Message>, ring: seq<Receiver.Env>, next: Seq16, n: nat) {
    && Distinct(ring) && AllPlaced(sends, ring, n, n + Width(rule))
    && (rule.twins ==> Untwinnable(ring, next))
  }

  /** What was drained are the messages in order, and the ring is as it should be. */
  ghost predicate Exact(rule: Rule, s: State) {
    && Matched(s.tx.sends, s.rx.drained, 0)
    && RingOk(rule, s.tx.sends, s.rx.ring, s.rx.next, |s.rx.drained|)
  }

  lemma NearInWindow(h: int, n: int, s: int, next: int)
    requires s == h % SEQ_MODULUS && next == n % SEQ_MODULUS && (s - next) % SEQ_MODULUS <= WINDOW_MAX
    requires -(SEQ_MODULUS - WINDOW_MAX) < h - n < SEQ_MODULUS - WINDOW_MAX
    ensures 0 <= h - n <= WINDOW_MAX
  {
    assert (h - n) % SEQ_MODULUS == (s - next) % SEQ_MODULUS;
  }

  /** An accepted packet from near enough is one of the next few. */
  lemma TimelyIsPlaced(rule: Rule, sends: seq<Message>, env: Receiver.Env, n: nat, next: Seq16)
    requires Strict(rule) && Timely(sends, env, n, rule.within)
    requires next == n % SEQ_MODULUS && Accepted(env.sequence, next)
    ensures Placed(sends, env, n, n + Width(rule))
  {
    var h: nat :| SentNear(sends, env, n, rule.within, h);
    AcceptedIffInWindow(env.sequence, next);
    NearInWindow(h, n, env.sequence, next);
    assert SentAt(sends, env, n, n + Width(rule), h);
  }

  lemma EmplacePlaced(sends: seq<Message>, ring: seq<Receiver.Env>, next: Seq16, env: Receiver.Env, lo: nat, hi: nat)
    requires AllPlaced(sends, ring, lo, hi) && Placed(sends, env, lo, hi)
    ensures AllPlaced(sends, Emplace(ring, next, env), lo, hi)
  {
  }

  lemma InsertUntwinnable(ring: seq<Receiver.Env>, next: Seq16, i: nat, env: Receiver.Env)
    requires Untwinnable(ring, next) && i <= |ring|
    requires i < |ring| ==> InsertsBefore(env.sequence, ring[i].sequence, next)
    requires forall k :: 0 <= k < i ==> !InsertsBefore(env.sequence, ring[k].sequence, next)
    ensures Untwinnable(ring[..i] + [env] + ring[i..], next)
  {
    var r := ring[..i] + [env] + ring[i..];
    assert forall k :: 0 <= k < i ==> r[k] == ring[k];
    assert forall k :: i < k < |r| ==> r[k] == ring[k - 1];
    assert forall k :: i < k < |ring| ==> !InsertsBefore(ring[k].sequence, ring[i].sequence, next);
  }

  lemma EmplaceUntwinnable(ring: seq<Receiver.Env>, next: Seq16, env: Receiver.Env)
    requires Untwinnable(ring, next)
    ensures Untwinnable(Emplace(ring, next, env), next) && !HiddenTwin(ring, next, env.sequence)
  {
    var slot := FindSlot(ring, next, env.sequence, 0);
    if slot.At? { InsertUntwinnable(ring, next, slot.index, env); }
  }

  lemma SameInWindow(h: nat, n: nat)
    requires n <= h <= n + WINDOW_MAX && h % SEQ_MODULUS == n % SEQ_MODULUS
    ensures h == n
  {
  }

  /** The expected entry is message `n`. */
  lemma ExpectedIs(sends: seq<Message>, env: Receiver.Env, n: nat, hi: nat)
    requires Placed(sends, env, n, hi) && hi <= n + WINDOW_MAX && env.sequence == n % SEQ_MODULUS
    ensures SentAs(sends, env, n)
  {
    var h: nat :| SentAt(sends, env, n, hi, h);
    SameInWindow(h, n);
  }

  /** Any other entry is a later one. */
  lemma OtherIsLater(sends: seq<Message>, env: Receiver.Env, n: nat, hi: nat)
    requires Placed(sends, env, n, hi) && env.sequence != n % SEQ_MODULUS
    ensures Placed(sends, env, n + 1, hi)
  {
    var h: nat :| SentAt(sends, env, n, hi, h);
    assert SentAt(sends, env, n + 1, hi, h);
  }

  lemma WithoutPlaced(sends: seq<Message>, ring: seq<Receiver.Env>, i: nat, n: nat, hi: nat)
    requires Distinct(ring) && AllPlaced(sends, ring, n, hi) && i < |ring| && ring[i].sequence == n % SEQ_MODULUS
    ensures Distinct(Without(ring, i)) && AllPlaced(sends, Without(ring, i), n + 1, hi)
  {
    var r := Without(ring, i);
    assert forall k :: 0 <= k < i ==> r[k] == ring[k];
    assert forall k :: i <= k < |r| ==> r[k] == ring[k + 1];
    forall k | 0 <= k < |r|
      ensures Placed(sends, r[k], n + 1, hi)
    {
      OtherIsLater(sends, r[k], n, hi);
    }
  }

  lemma MatchedCons(sends: seq<Message>, x: Receiver.Env, out: seq<Receiver.Env>, n: nat)
    requires SentAs(sends, x, n) && Matched(sends, out, n + 1)
    ensures Matched(sends, [x] + out, n)
  {
    forall k | 0 <= k < |[x] + out|
      ensures SentAs(sends, ([x] + out)[k], n + k)
    {
      if k > 0 { assert SentAs(sends, out[k - 1], n + 1 + (k - 1)); }
    }
  }

  /** Draining such a ring yields the next messages in order and leaves such a ring. */
  lemma {:induction false} DrainPlaced(sends: seq<Message>, ring: seq<Receiver.Env>, next: Seq16, n: nat, hi: nat)
    requires Distinct(ring) && AllPlaced(sends, ring, n, hi) && hi <= n + WINDOW_MAX && next == n % SEQ_MODULUS
    ensures var d := Drain(ring, next);
            Matched(sends, d.out, n) && Distinct(d.ring) && AllPlaced(sends, d.ring, n + |d.out|, hi)
    decreases |ring|
  {
    var i := IndexOf(ring, next);
    if i < |ring| {
      Sender.NextIsMod(n);
      ExpectedIs(sends, ring[i], n, hi);
      WithoutPlaced(sends, ring, i, n, hi);
      DrainPlaced(sends, Without(ring, i), Next(next), n + 1, hi);
      MatchedCons(sends, ring[i], Drain(Without(ring, i), Next(next)).out, n);
    }
  }

  lemma PlacedWider(sends: seq<Message>, ring: seq<Receiver.Env>, lo: nat, hi: nat, wider: nat)
    requires AllPlaced(sends, ring, lo, hi) && hi <= wider
    ensures AllPlaced(sends, ring, lo, wider)
  {
    forall i | 0 <= i < |ring|
      ensures Placed(sends, ring[i], lo, wider)
    {
      var h: nat :| SentAt(sends, ring[i], lo, hi, h);
      assert SentAt(sends, ring[i], lo, wider, h);
    }
  }

  /** An entry that can only be message `h`. */
  lemma OnlyOne(sends: seq<Message>, env: Receiver.Env, h: nat)
    requires Placed(sends, env, h, h)
    ensures env.sequence == h % SEQ_MODULUS
  {
    var g: nat :| SentAt(sends, env, h, h, g);
  }

  /** A distinct ring with at most one message to hold has at most one entry; one with none, none. */
  lemma AtMostOne(sends: seq<Message>, ring: seq<Receiver.Env>, lo: nat, hi: nat)
    requires Distinct(ring) && AllPlaced(sends, ring, lo, hi) && hi <= lo
    ensures |ring| <= 1
  {
    if |ring| > 1 {
      PlacedWider(sends, ring, lo, hi, lo);
      OnlyOne(sends, ring[0], lo);
      OnlyOne(sends, ring[1], lo);
    }
  }

  lemma MatchedAppend(sends: seq<Message>, a: seq<Receiver.Env>, b: seq<Receiver.Env>)
    requires Matched(sends, a, 0) && Matched(sends, b, |a|)
    ensures Matched(sends, a + b, 0)
  {
    forall k | 0 <= k < |a + b|
      ensures SentAs(sends, (a + b)[k], k)
    {
      if k >= |a| { assert SentAs(sends, b[k - |a|], |a| + (k - |a|)); }
    }
  }

  lemma EmplaceStep(rule: Rule, sends: seq<Message>, ring: seq<Receiver.Env>, next: Seq16, env: Receiver.Env, n: nat)
    requires RingOk(rule, sends, ring, next, n) && Placed(sends, env, n, n + Width(rule))
    requires rule.twins || !HiddenTwin(ring, next, env.sequence)
    ensures RingOk(rule, sends, Emplace(ring, next, env), next, n)
  {
    if rule.twins { EmplaceUntwinnable(ring, next, env); }
    EmplaceDistinctIff(ring, next, env);
    EmplacePlaced(sends, ring, next, env, n, n + Width(rule));
  }

  lemma DrainCursor(ring: seq<Receiver.Env>, next: Seq16, n: nat)
    requires next == n % SEQ_MODULUS
    ensures var d := Drain(ring, next);
            && d.next == (n + |d.out|) % SEQ_MODULUS
            && (forall i :: 0 <= i < |d.ring| ==> d.ring[i].sequence != d.next)
            && (d.out == [] ==> d.ring == ring && d.next == next)
  {
    DrainConsecutive(ring, next);
    AdvanceFrom(n, |Drain(ring, next).out|);
  }

  lemma DrainUntwinnable(sends: seq<Message>, ring: seq<Receiver.Env>, next: Seq16, n: nat)
    requires Untwinnable(ring, next) && next == n % SEQ_MODULUS
    requires var d := Drain(ring, next); Distinct(d.ring) && AllPlaced(sends, d.ring, n + |d.out|, n + 2)
    ensures Untwinnable(Drain(ring, next).ring, Drain(ring, next).next)
  {
    var d := Drain(ring, next);
    DrainCursor(ring, next, n);
    if d.out != [] { AfterMove(sends, d.ring, n, |d.out|); }
  }

  lemma DrainReach(rule: Rule, sends: seq<Message>, ring: seq<Receiver.Env>, next: Seq16, n: nat)
    requires Distinct(ring) && AllPlaced(sends, ring, n, n + Width(rule)) && next == n % SEQ_MODULUS
    ensures var d := Drain(ring, next);
            && Matched(sends, d.out, n) && Distinct(d.ring)
            && AllPlaced(sends, d.ring, n + |d.out|, n + Width(rule))
            && AllPlaced(sends, d.ring, n + |d.out|, n + |d.out| + Width(rule))
  {
    var d := Drain(ring, next);
    DrainPlaced(sends, ring, next, n, n + Width(rule));
    PlacedWider(sends, d.ring, n + |d.out|, n + Width(rule), n + |d.out| + Width(rule));
  }

  lemma DrainStep(rule: Rule, sends: seq<Message>, ring: seq<Receiver.Env>, next: Seq16, n: nat)
    requires RingOk(rule, sends, ring, next, n) && next == n % SEQ_MODULUS
    ensures var d := Drain(ring, next);
            Matched(sends, d.out, n) && RingOk(rule, sends, d.ring, d.next, n + |d.out|)
  {
    DrainReach(rule, sends, ring, next, n);
    if rule.twins { DrainUntwinnable(sends, ring, next, n); }
  }

  /** Accepting one packet and draining. */
  lemma InboundStep(rule: Rule, sends: seq<Message>, ring: seq<Receiver.Env>, next: Seq16, env: Receiver.Env, n: nat)
    requires RingOk(rule, sends, ring, next, n) && next == n % SEQ_MODULUS && Accepted(env.sequence, next)
    requires Strict(rule) && Timely(sends, env, n, rule.within)
    requires rule.twins || !HiddenTwin(ring, next, env.sequence)
    ensures var d := Drain(Emplace(ring, next, env), next);
            Matched(sends, d.out, n) && RingOk(rule, sends, d.ring, d.next, n + |d.out|)
  {
    TimelyIsPlaced(rule, sends, env, n, next);
    EmplaceStep(rule, sends, ring, next, env, n);
    DrainStep(rule, sends, Emplace(ring, next, env), next, n);
  }

  /** Once the cursor has moved past `n`, of the messages up to n + 2 at most the last can wait. */
  lemma AfterMove(sends: seq<Message>, ring: seq<Receiver.Env>, n: nat, k: nat)
    requires Distinct(ring) && AllPlaced(sends, ring, n + k, n + 2) && k >= 1
    requires forall i :: 0 <= i < |ring| ==> ring[i].sequence != (n + k) % SEQ_MODULUS
    ensures |ring| <= 1
  {
    forall i | 0 <= i < |ring|
      ensures Placed(sends, ring[i], n + k + 1, n + 2)
    {
      OtherIsLater(sends, ring[i], n + k, n + 2);
    }
    AtMostOne(sends, ring, n + k + 1, n + 2);
  }

  lemma PositionIs(s: State)
    requires Inv(s)
    ensures s.rx.next == |s.rx.drained| % SEQ_MODULUS
  {
  }

  lemma ProcessKeepsExact(rule: Rule, s: State, w: nat)
    requires s.rx.next == |s.rx.drained| % SEQ_MODULUS && Exact(rule, s)
    requires w in s.rx.workers && s.rx.workers[w].Locked?
    requires Strict(rule) && Allowed(rule, s, s.rx.workers[w].env)
    ensures Exact(rule, s.(rx := Receiver.ProcessStep(s.rx, w, s.rx.workers[w].env)))
  {
    var r, env := s.rx, s.rx.workers[w].env;
    if Accepted(env.sequence, r.next) && FindSlot(r.ring, r.next, env.sequence, 0).At? {
      var d := Drain(Emplace(r.ring, r.next, env), r.next);
      InboundStep(rule, s.tx.sends, r.ring, r.next, env, |r.drained|);
      MatchedAppend(s.tx.sends, r.drained, d.out);
      var r' := Receiver.ProcessStep(r, w, env);
      assert r'.ring == d.ring && r'.next == d.next && r'.drained == r.drained + d.out;
    }
  }

  // ---------------------------------------------------------------- every run

  lemma PlacedGrows(a: seq<Message>, b: seq<Message>, env: Receiver.Env, lo: nat, hi: nat)
    requires Placed(a, env, lo, hi) && a <= b
    ensures Placed(b, env, lo, hi)
  {
    var h: nat :| SentAt(a, env, lo, hi, h);
    assert SentAt(b, env, lo, hi, h);
  }

  lemma SendsKeepExact(rule: Rule, s: State, t: Sender.State)
    requires Exact(rule, s) && s.tx.sends <= t.sends
    ensures Exact(rule, s.(tx := t))
  {
    var n := |s.rx.drained|;
    forall i | 0 <= i < |s.rx.ring|
      ensures Placed(t.sends, s.rx.ring[i], n, n + Width(rule))
    {
      PlacedGrows(s.tx.sends, t.sends, s.rx.ring[i], n, n + Width(rule));
    }
  }

  /** Apart from processing, the receiver only ever empties the ring. */
  lemma OtherReceiving(r: Receiver.State, e: Receiver.Event)
    requires !e.Process?
    ensures var u := Receiver.Apply(r, e);
            u.drained == r.drained && u.next == r.next && (u.ring == r.ring || u.ring == [])
  {
  }

  lemma ApplyKeepsExact(rule: Rule, s: State, e: Event)
    requires Inv(s) && Exact(rule, s) && Strict(rule) && StepAllowed(rule, s, e)
    ensures Exact(rule, Apply(s, e))
  {
    match e
    case Sending(t) =>
      SendsGrow(s.tx, t);
      SendsKeepExact(rule, s, Sender.Apply(s.tx, t));
    case Receiving(r) =>
      if !r.Process? {
        OtherReceiving(s.rx, r);
      } else if r.w in s.rx.workers && s.rx.workers[r.w].Locked? {
        PositionIs(s);
        ProcessKeepsExact(rule, s, r.w);
      }
    case Network(p, w, unpacks) =>
      if p < |s.tx.wire| { OtherReceiving(s.rx, Receiver.Arrive(w, s.tx.wire[p].raw, unpacks)); }
  }

  lemma {:induction false} RunKeepsExact(rule: Rule, rtt: real, events: seq<Event>)
    requires Strict(rule) && RunAllowed(rule, Init(rtt), events)
    ensures Exact(rule, Run(Init(rtt), events))
  {
    if events != [] {
      var init := events[..|events| - 1];
      RunKeepsExact(rule, rtt, init);
      RunKeepsInv(rtt, init);
      ApplyKeepsExact(rule, Run(Init(rtt), init), events[|events| - 1]);
    }
  }

  lemma DispatchedIs(s: State, k: nat)
    requires Inv(s) && Matched(s.tx.sends, s.rx.drained, 0) && k < |s.rx.dispatched|
    ensures k < |s.tx.sends| && s.rx.dispatched[k].message == s.tx.sends[k]
  {
    assert s.rx.dispatched[k] == (s.rx.dispatched + Receiver.Undispatched(s.rx))[k];
    assert SentAs(s.tx.sends, s.rx.drained[k], 0 + k);
  }

  lemma MatchedIsPrefix(s: State)
    requires Inv(s) && Matched(s.tx.sends, s.rx.drained, 0)
    ensures Messages(s.rx.dispatched) <= s.tx.sends
  {
    if s.rx.dispatched != [] { DispatchedIs(s, |s.rx.dispatched| - 1); }
    forall k | 0 <= k < |s.rx.dispatched|
      ensures s.rx.dispatched[k].message == s.tx.sends[k]
    {
      DispatchedIs(s, k);
    }
  }

  /** In runs of any length: if every packet that is accepted was sent at most 65487 messages away
      from the receiver's position and has no hidden twin in the ring, or at most two messages away,
      the handlers have seen a prefix of what was sent. */
  lemma FreshDelivery(rule: Rule, rtt: real, events: seq<Event>)
    requires Strict(rule) && RunAllowed(rule, Init(rtt), events)
    ensures var s := Run(Init(rtt), events); Messages(s.rx.dispatched) <= s.tx.sends
  {
    RunKeepsInv(rtt, events);
    RunKeepsExact(rule, rtt, events);
    MatchedIsPrefix(Run(Init(rtt), events));
  }
}
