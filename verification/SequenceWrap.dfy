/** What goes wrong once the 16-bit sequence space wraps (`pkg/channel/channel.go`): runs, built
    step by step from the initial state, in which an old duplicate is mistaken for a new message, in
    which the receive ring holds the same sequence twice, and in which such a twin is delivered one
    lap later although no packet was late. */
module SequenceWrap {
  import opened Bytes
  import opened ReceiveRing
  import opened Envelope
  import AdaptiveWindow
  import Sender
  import Receiver
  import opened EndToEnd
  import opened Freshness

  const HELLO := Message(1, [])

  // ---------------------------------------------------------------- reachability

  /** Some run that the rule allows leads from `s` to `t`. */
  ghost predicate Reaches(rule: Rule, s: State, t: State) {
    exists events :: Run(s, events) == t && RunAllowed(rule, s, events)
  }

  lemma ReachesSelf(rule: Rule, s: State)
    ensures Reaches(rule, s, s)
  {
    assert Run(s, []) == s;
  }

  lemma RunSnoc(rule: Rule, s: State, events: seq<Event>, e: Event)
    ensures Run(s, events + [e]) == Apply(Run(s, events), e)
    ensures RunAllowed(rule, s, events) && StepAllowed(rule, Run(s, events), e) ==> RunAllowed(rule, s, events + [e])
  {
    var all := events + [e];
    assert all[..|all| - 1] == events && all[|all| - 1] == e;
  }

  lemma ReachesOne(rule: Rule, s: State, t: State, e: Event)
    requires Reaches(rule, s, t) && StepAllowed(rule, t, e)
    ensures Reaches(rule, s, Apply(t, e))
  {
    var events :| Run(s, events) == t && RunAllowed(rule, s, events);
    RunSnoc(rule, s, events, e);
  }

  /** Every state that reaches `s` reaches `t`. */
  ghost predicate Leads(rule: Rule, s: State, t: State) {
    forall s0 :: Reaches(rule, s0, s) ==> Reaches(rule, s0, t)
  }

  lemma LeadsOn(rule: Rule, s: State, t: State, u: State)
    requires Leads(rule, s, t) && Leads(rule, t, u)
    ensures Leads(rule, s, u)
  {
  }

  lemma LeadsOne(rule: Rule, s: State, e: Event)
    requires StepAllowed(rule, s, e)
    ensures Leads(rule, s, Apply(s, e))
  {
    forall s0 | Reaches(rule, s0, s)
      ensures Reaches(rule, s0, Apply(s, e))
    {
      ReachesOne(rule, s0, s, e);
    }
  }

  // ---------------------------------------------------------------- quiet states

  /** `m` messages sent and acknowledged, `n` delivered, these entries in the ring, no one busy. */
  ghost predicate Quiet(s: State, m: nat, n: nat, ring: seq<Receiver.Env>) {
    QuietTx(s.tx, m) && QuietRx(s.rx, n, ring)
  }

  ghost predicate QuietTx(t: Sender.State, n: nat) {
    && t.pc == Sender.Idle && t.core.ring == [] && AdaptiveWindow.Inv(t.core.win)
    && t.core.nextSequence == n % SEQ_MODULUS
    && |t.sends| == |t.wire| == n
    && forall k :: 0 <= k < n ==> t.sends[k] == HELLO && t.wire[k].raw == Pack(k % SEQ_MODULUS, HELLO).raw
  }

  ghost predicate QuietRx(r: Receiver.State, n: nat, ring: seq<Receiver.Env>) {
    && r.lock == Receiver.Free && r.workers == map[] && r.ring == ring
    && r.next == n % SEQ_MODULUS && |r.drained| == |r.dispatched| == n
  }

  /** One `Send` call up to the outlet, then the enqueue and the delivery proof. */
  ghost function Transmitted(t: Sender.State): Sender.State {
    var checked := Sender.Apply(t, Sender.SendCheck(HELLO, true));
    var committed := Sender.Apply(Sender.Apply(checked, Sender.SendReserve(500)), Sender.SendCommit);
    Sender.Apply(committed, Sender.OutletAccepts)
  }

  ghost function Acknowledged(t: Sender.State, n: nat): Sender.State {
    Sender.Apply(Sender.Apply(Transmitted(t), Sender.SendEnqueue), Sender.DeliveryProved(n, 0.0))
  }

  lemma TransmittedState(t: Sender.State, n: nat)
    requires QuietTx(t, n)
    ensures var u := Transmitted(t);
            && u.core == t.core.(nextSequence := (n + 1) % SEQ_MODULUS)
            && u.pc == Sender.Transmitted(Sender.Pending(n % SEQ_MODULUS, n, HELLO, 1))
            && u.sends == t.sends + [HELLO]
            && u.wire == t.wire + [Sender.Transmission(n, Pack(n % SEQ_MODULUS, HELLO).raw)]
  {
    Sender.NextIsMod(n);
  }

  lemma AcknowledgedState(t: Sender.State, n: nat)
    requires QuietTx(t, n)
    ensures QuietTx(Acknowledged(t, n), n + 1)
  {
    TransmittedState(t, n);
    var queued := Sender.Apply(Transmitted(t), Sender.SendEnqueue);
    assert queued.core.ring == [Sender.Pending(n % SEQ_MODULUS, n, HELLO, 1)];
    assert Sender.Find(queued.core.ring, n) == 0;
  }

  lemma SendingLeads(rule: Rule, t: Sender.State, r: Receiver.State, e: Sender.Event)
    ensures Leads(rule, State(t, r), State(Sender.Apply(t, e), r))
  {
    LeadsOne(rule, State(t, r), Sending(e));
  }

  lemma AcknowledgedLeads(rule: Rule, t: Sender.State, r: Receiver.State, n: nat)
    ensures Leads(rule, State(t, r), State(Acknowledged(t, n), r))
  {
    var t1 := Sender.Apply(t, Sender.SendCheck(HELLO, true));
    var t2 := Sender.Apply(t1, Sender.SendReserve(500));
    var t3 := Sender.Apply(t2, Sender.SendCommit);
    var t5 := Sender.Apply(Transmitted(t), Sender.SendEnqueue);
    SendingLeads(rule, t, r, Sender.SendCheck(HELLO, true));
    SendingLeads(rule, t1, r, Sender.SendReserve(500));
    SendingLeads(rule, t2, r, Sender.SendCommit);
    SendingLeads(rule, t3, r, Sender.OutletAccepts);
    SendingLeads(rule, Transmitted(t), r, Sender.SendEnqueue);
    SendingLeads(rule, t5, r, Sender.DeliveryProved(n, 0.0));
  }

  /** Send one message and prove its delivery. */
  lemma SendOne(rule: Rule, s: State, m: nat, n: nat, ring: seq<Receiver.Env>) returns (u: State)
    requires Quiet(s, m, n, ring)
    ensures Quiet(u, m + 1, n, ring) && Leads(rule, s, u)
  {
    u := State(Acknowledged(s.tx, m), s.rx);
    AcknowledgedState(s.tx, m);
    AcknowledgedLeads(rule, s.tx, s.rx, m);
    assert State(s.tx, s.rx) == s;
  }

  // ---------------------------------------------------------------- one packet

  ghost function DispatchAll(s: State, k: nat): State {
    if k == 0 then s else Apply(DispatchAll(s, k - 1), Receiving(Receiver.Dispatch(0)))
  }

  lemma DispatchOne(s: State, batch: seq<Receiver.Env>)
    requires s.rx.workers == map[0 := Receiver.Dispatching(batch)] && batch != []
    ensures var u := Apply(s, Receiving(Receiver.Dispatch(0)));
            && u.tx == s.tx && u.rx.lock == s.rx.lock && u.rx.ring == s.rx.ring && u.rx.next == s.rx.next
            && u.rx.workers == map[0 := Receiver.Dispatching(batch[1..])]
            && u.rx.dispatched == s.rx.dispatched + [batch[0]] && u.rx.drained == s.rx.drained
  {
  }

  lemma BatchStep(batch: seq<Receiver.Env>, seen: seq<Receiver.Env>, k: nat)
    requires 1 <= k <= |batch|
    ensures batch[k - 1..][0] == batch[k - 1] && batch[k - 1..][1..] == batch[k..]
    ensures seen + batch[..k - 1] + [batch[k - 1]] == seen + batch[..k]
  {
  }

  lemma {:induction false} DispatchAllState(s: State, batch: seq<Receiver.Env>, k: nat)
    requires s.rx.workers == map[0 := Receiver.Dispatching(batch)] && k <= |batch|
    ensures var u := DispatchAll(s, k);
            && u.tx == s.tx && u.rx.lock == s.rx.lock && u.rx.ring == s.rx.ring && u.rx.next == s.rx.next
            && u.rx.workers == map[0 := Receiver.Dispatching(batch[k..])]
            && u.rx.dispatched == s.rx.dispatched + batch[..k] && u.rx.drained == s.rx.drained
  {
    if k == 0 {
      assert batch[0..] == batch && s.rx.dispatched + [] == s.rx.dispatched;
    } else {
      DispatchAllState(s, batch, k - 1);
      BatchStep(batch, s.rx.dispatched, k);
      DispatchOne(DispatchAll(s, k - 1), batch[k - 1..]);
    }
  }

  lemma {:induction false} DispatchAllLeads(rule: Rule, s: State, k: nat)
    ensures Leads(rule, s, DispatchAll(s, k))
  {
    if k > 0 {
      DispatchAllLeads(rule, s, k - 1);
      LeadsOne(rule, DispatchAll(s, k - 1), Receiving(Receiver.Dispatch(0)));
    }
  }

  /** Worker 0 unpacks packet `p` and takes the lock. */
  ghost function Taken(s: State, p: nat): State {
    Apply(Apply(s, Network(p, 0, true)), Receiving(Receiver.Acquire(0)))
  }

  ghost function Processed(s: State, p: nat): State {
    Apply(Taken(s, p), Receiving(Receiver.Process(0)))
  }

  function EnvOf(p: nat): Receiver.Env { Rx(p % SEQ_MODULUS, HELLO) }

  /** Packet `p` was sent, and the receiver at position `n` takes it for a new one. */
  ghost predicate Arrives(m: nat, n: nat, ring: seq<Receiver.Env>, p: nat) {
    && p < m && Accepted(p % SEQ_MODULUS, n % SEQ_MODULUS)
    && FindSlot(ring, n % SEQ_MODULUS, p % SEQ_MODULUS, 0).At?
  }

  lemma ArrivesParsed(t: Sender.State, m: nat, p: nat)
    requires QuietTx(t, m) && p < m
    ensures Parse(t.wire[p].raw) == Parsed(EnvOf(p)) && SentAs(t.sends, EnvOf(p), p)
  {
    ParsePack(p % SEQ_MODULUS, HELLO, []);
    assert t.wire[p].raw + [] == t.wire[p].raw;
  }

  lemma LockedPath(r: Receiver.State, data: seq<octet>, env: Receiver.Env)
    requires r.lock == Receiver.Free && r.workers == map[] && Parse(data) == Parsed(env)
    requires Accepted(env.sequence, r.next)
    ensures var u := Receiver.Apply(Receiver.Apply(r, Receiver.Arrive(0, data, true)), Receiver.Acquire(0));
            && u.workers == map[0 := Receiver.Locked(env)] && u.next == r.next && u.ring == r.ring
            && u.drained == r.drained && u.dispatched == r.dispatched
  {
    var a := Receiver.Apply(r, Receiver.Arrive(0, data, true));
    assert a.workers == map[0 := Receiver.Unpacked(env)] && a.next == r.next && a.ring == r.ring;
  }

  lemma TakenState(s: State, m: nat, n: nat, ring: seq<Receiver.Env>, p: nat)
    requires Quiet(s, m, n, ring) && Arrives(m, n, ring, p)
    ensures var u := Taken(s, p);
            && u.tx == s.tx && u.rx.workers == map[0 := Receiver.Locked(EnvOf(p))]
            && u.rx.next == s.rx.next && u.rx.ring == ring
            && u.rx.drained == s.rx.drained && u.rx.dispatched == s.rx.dispatched
  {
    ArrivesParsed(s.tx, m, p);
    LockedPath(s.rx, s.tx.wire[p].raw, EnvOf(p));
  }

  /** What is left of the ring, and what comes out, when packet `p` arrives. */
  ghost function Outcome(ring: seq<Receiver.Env>, n: nat, p: nat): Drained<Message> {
    Drain(Emplace(ring, n % SEQ_MODULUS, EnvOf(p)), n % SEQ_MODULUS)
  }

  lemma ProcessedState(s: State, m: nat, n: nat, ring: seq<Receiver.Env>, p: nat)
    requires Quiet(s, m, n, ring) && Arrives(m, n, ring, p)
    ensures var u, d := Processed(s, p), Outcome(ring, n, p);
            && u.tx == s.tx && u.rx.ring == d.ring && u.rx.next == d.next
            && u.rx.workers == map[0 := Receiver.Dispatching(d.out)]
            && u.rx.drained == s.rx.drained + d.out && u.rx.dispatched == s.rx.dispatched
  {
    TakenState(s, m, n, ring, p);
  }

  /** The rule lets packet `p` through at position `n`. */
  ghost predicate Permits(rule: Rule, ring: seq<Receiver.Env>, n: nat, p: nat) {
    && n < p + rule.within && p < n + rule.within
    && (rule.twins || !HiddenTwin(ring, n % SEQ_MODULUS, p % SEQ_MODULUS))
  }

  lemma ProcessedLeads(rule: Rule, s: State, m: nat, n: nat, ring: seq<Receiver.Env>, p: nat)
    requires Quiet(s, m, n, ring) && Arrives(m, n, ring, p) && Permits(rule, ring, n, p)
    ensures Leads(rule, s, Processed(s, p))
  {
    ArrivesParsed(s.tx, m, p);
    TakenState(s, m, n, ring, p);
    assert SentNear(s.tx.sends, EnvOf(p), n, rule.within, p);
    LeadsOne(rule, s, Network(p, 0, true));
    LeadsOne(rule, Apply(s, Network(p, 0, true)), Receiving(Receiver.Acquire(0)));
    LeadsOne(rule, Taken(s, p), Receiving(Receiver.Process(0)));
  }

  lemma ReleasedState(s: State)
    requires s.rx.workers == map[0 := Receiver.Dispatching([])]
    ensures Apply(s, Receiving(Receiver.Release(0))) == s.(rx := s.rx.(lock := Receiver.Free, workers := map[]))
  {
  }

  ghost function Received(s: State, p: nat, k: nat): State {
    Apply(DispatchAll(Processed(s, p), k), Receiving(Receiver.Release(0)))
  }

  lemma OutcomeCursor(ring: seq<Receiver.Env>, n: nat, p: nat)
    ensures Outcome(ring, n, p).next == (n + |Outcome(ring, n, p).out|) % SEQ_MODULUS
  {
    DrainConsecutive(Emplace(ring, n % SEQ_MODULUS, EnvOf(p)), n % SEQ_MODULUS);
    AdvanceFrom(n, |Outcome(ring, n, p).out|);
  }

  lemma FinishedState(s: State, out: seq<Receiver.Env>)
    requires s.rx.workers == map[0 := Receiver.Dispatching(out)]
    ensures var u := Apply(DispatchAll(s, |out|), Receiving(Receiver.Release(0)));
            && u.tx == s.tx && u.rx.lock == Receiver.Free && u.rx.workers == map[] && u.rx.ring == s.rx.ring
            && u.rx.next == s.rx.next && u.rx.drained == s.rx.drained && u.rx.dispatched == s.rx.dispatched + out
  {
    DispatchAllState(s, out, |out|);
    assert out[..|out|] == out && out[|out|..] == [];
    ReleasedState(DispatchAll(s, |out|));
  }

  lemma ReceivedState(s: State, m: nat, n: nat, ring: seq<Receiver.Env>, p: nat)
    requires Quiet(s, m, n, ring) && Arrives(m, n, ring, p)
    ensures var d := Outcome(ring, n, p); Quiet(Received(s, p, |d.out|), m, n + |d.out|, d.ring)
  {
    ProcessedState(s, m, n, ring, p);
    FinishedState(Processed(s, p), Outcome(ring, n, p).out);
    OutcomeCursor(ring, n, p);
  }

  /** Packet `p` arrives and is carried through the whole inbound path by worker 0. */
  lemma Receive(rule: Rule, s: State, m: nat, n: nat, ring: seq<Receiver.Env>, p: nat) returns (u: State)
    requires Quiet(s, m, n, ring) && Arrives(m, n, ring, p) && Permits(rule, ring, n, p)
    ensures var d := Outcome(ring, n, p); Quiet(u, m, n + |d.out|, d.ring)
    ensures Leads(rule, s, u)
  {
    var k := |Outcome(ring, n, p).out|;
    u := Received(s, p, k);
    ReceivedState(s, m, n, ring, p);
    ProcessedLeads(rule, s, m, n, ring, p);
    DispatchAllLeads(rule, Processed(s, p), k);
    LeadsOne(rule, DispatchAll(Processed(s, p), k), Receiving(Receiver.Release(0)));
  }

  // ---------------------------------------------------------------- rounds

  lemma {:induction false} AbsentHasSlot(ring: seq<Receiver.Env>, next: Seq16, s: Seq16, i: nat)
    requires !Holds(ring, s) && i <= |ring|
    ensures FindSlot(ring, next, s, i).At?
    decreases |ring| - i
  {
    if i < |ring| { AbsentHasSlot(ring, next, s, i + 1); }
  }

  lemma InsertedIndex(ring: seq<Receiver.Env>, i: nat, env: Receiver.Env)
    requires i <= |ring| && !Holds(ring, env.sequence)
    ensures var r := ring[..i] + [env] + ring[i..];
            IndexOf(r, env.sequence) == i && Without(r, i) == ring
  {
    var r := ring[..i] + [env] + ring[i..];
    assert r[i] == env;
    assert forall k :: 0 <= k < i ==> r[k] == ring[k];
  }

  lemma NotHeldStays(ring: seq<Receiver.Env>, s: Seq16)
    requires !Holds(ring, s)
    ensures Drain(ring, s) == Drained(ring, s, [])
  {
  }

  /** The expected message, if the ring does not hold it, is drained first, and then whatever the
      ring holds next. */
  lemma ExpectedArrives(ring: seq<Receiver.Env>, m: nat, n: nat)
    requires !Holds(ring, n % SEQ_MODULUS) && n < m
    ensures Arrives(m, n, ring, n) && !HiddenTwin(ring, n % SEQ_MODULUS, n % SEQ_MODULUS)
    ensures var d := Drain(ring, (n + 1) % SEQ_MODULUS);
            Outcome(ring, n, n) == Drained(d.ring, d.next, [EnvOf(n)] + d.out)
  {
    var s := n % SEQ_MODULUS;
    AcceptedIffInWindow(s, s);
    AbsentHasSlot(ring, s, s, 0);
    InsertedIndex(ring, FindSlot(ring, s, s, 0).index, EnvOf(n));
    Sender.NextIsMod(n);
  }

  /** One message sent, delivered in order and acknowledged. */
  lemma Round(rule: Rule, s: State, n: nat, ring: seq<Receiver.Env>) returns (u: State)
    requires Quiet(s, n, n, ring) && rule.within > 0
    requires !Holds(ring, n % SEQ_MODULUS) && !Holds(ring, (n + 1) % SEQ_MODULUS)
    ensures Quiet(u, n + 1, n + 1, ring) && Leads(rule, s, u)
  {
    var t := SendOne(rule, s, n, n, ring);
    ExpectedArrives(ring, n + 1, n);
    NotHeldStays(ring, (n + 1) % SEQ_MODULUS);
    u := Receive(rule, t, n + 1, n, ring, n);
  }

  /** Nothing in the ring is expected at positions lo .. hi. */
  ghost predicate Clear(ring: seq<Receiver.Env>, lo: nat, hi: nat) {
    forall k :: lo <= k <= hi ==> !Holds(ring, k % SEQ_MODULUS)
  }

  lemma {:induction false} Rounds(rule: Rule, s: State, n: nat, ring: seq<Receiver.Env>, target: nat) returns (u: State)
    requires Quiet(s, n, n, ring) && Clear(ring, n, target) && n <= target && rule.within > 0
    ensures Quiet(u, target, target, ring) && Leads(rule, s, u)
    decreases target - n
  {
    if n == target {
      u := s;
    } else {
      assert !Holds(ring, n % SEQ_MODULUS) && !Holds(ring, (n + 1) % SEQ_MODULUS);
      var v := Round(rule, s, n, ring);
      u := Rounds(rule, v, n + 1, ring, target);
    }
  }

  /** A packet that is not the next one arrives and waits. */
  lemma Buffer(rule: Rule, s: State, m: nat, n: nat, ring: seq<Receiver.Env>, p: nat, after: seq<Receiver.Env>)
    returns (u: State)
    requires Quiet(s, m, n, ring) && Arrives(m, n, ring, p) && Permits(rule, ring, n, p)
    requires after == Emplace(ring, n % SEQ_MODULUS, EnvOf(p)) && !Holds(after, n % SEQ_MODULUS)
    ensures Quiet(u, m, n, after) && Leads(rule, s, u)
  {
    NotHeldStays(after, n % SEQ_MODULUS);
    u := Receive(rule, s, m, n, ring, p);
  }

  // ---------------------------------------------------------------- an old duplicate

  /** 65488 messages, then the first packet again. */
  lemma OldDuplicate(rule: Rule) returns (u: State)
    requires rule.within > SEQ_MODULUS - WINDOW_MAX
    ensures Quiet(u, SEQ_MODULUS - WINDOW_MAX, SEQ_MODULUS - WINDOW_MAX, [EnvOf(0)]) && Leads(rule, Init(0.0), u)
  {
    var n := SEQ_MODULUS - WINDOW_MAX;
    var s := Rounds(rule, Init(0.0), 0, [], n);
    AcceptedIffInWindow(0, n);
    u := Buffer(rule, s, n, n, [], 0, [EnvOf(0)]);
  }

  /** The last two steps of the lap: message 65535 is delivered, and the old packet after it. */
  lemma LapEnds(rule: Rule, s: State) returns (u: State)
    requires Quiet(s, SEQ_MAX, SEQ_MAX, [EnvOf(0)]) && rule.within > 0
    ensures Quiet(u, SEQ_MODULUS, SEQ_MODULUS + 1, []) && Leads(rule, s, u)
  {
    var t := SendOne(rule, s, SEQ_MAX, SEQ_MAX, [EnvOf(0)]);
    ExpectedArrives([EnvOf(0)], SEQ_MODULUS, SEQ_MAX);
    assert Without([EnvOf(0)], 0) == [];
    NotHeldStays([], 1);
    assert Drain([EnvOf(0)], 0) == Drained([], 1, [EnvOf(0)]);
    u := Receive(rule, t, SEQ_MODULUS, SEQ_MAX, [EnvOf(0)], SEQ_MAX);
  }

  /** A run that hands the handlers more messages than were sent. */
  lemma TooManyDelivered(rule: Rule, s: State, m: nat, n: nat)
    requires Quiet(s, m, n, []) && n > m && Leads(rule, Init(0.0), s)
    ensures exists events :: RunAllowed(rule, Init(0.0), events) && Broken(0.0, events, m)
  {
    ReachesSelf(rule, Init(0.0));
    var events :| Run(Init(0.0), events) == s && RunAllowed(rule, Init(0.0), events);
    assert |Messages(s.rx.dispatched)| == n;
    assert Broken(0.0, events, m);
  }

  /** Between two laps at its own sequence a waiting packet is not expected. */
  lemma ClearBetween(env: Receiver.Env, lap: nat, lo: nat, hi: nat)
    requires lap * SEQ_MODULUS + env.sequence < lo && hi < (lap + 1) * SEQ_MODULUS + env.sequence
    ensures Clear([env], lo, hi)
  {
    forall k | lo <= k <= hi
      ensures !Holds([env], k % SEQ_MODULUS)
    {
      assert k % SEQ_MODULUS != env.sequence;
    }
  }

  lemma OldDuplicateRun(rule: Rule) returns (u: State)
    requires rule.within > SEQ_MODULUS - WINDOW_MAX
    ensures Quiet(u, SEQ_MODULUS, SEQ_MODULUS + 1, []) && Leads(rule, Init(0.0), u)
  {
    var s := OldDuplicate(rule);
    ClearBetween(EnvOf(0), 0, SEQ_MODULUS - WINDOW_MAX, SEQ_MAX);
    var t := Rounds(rule, s, SEQ_MODULUS - WINDOW_MAX, [EnvOf(0)], SEQ_MAX);
    LeadsOn(rule, Init(0.0), s, t);
    u := LapEnds(rule, t);
    LeadsOn(rule, Init(0.0), t, u);
  }

  lemma OldDuplicateDelivered(rule: Rule)
    requires rule.within > SEQ_MODULUS - WINDOW_MAX
    ensures exists events :: RunAllowed(rule, Init(0.0), events) && Broken(0.0, events, SEQ_MODULUS)
  {
    var u := OldDuplicateRun(rule);
    TooManyDelivered(rule, u, SEQ_MODULUS, SEQ_MODULUS + 1);
  }

  /** After `m` sends the handlers have not seen a prefix of what was sent. */
  ghost predicate Broken(rtt: real, events: seq<Event>, m: nat) {
    var s := Run(Init(rtt), events);
    |s.tx.sends| == m && !(Messages(s.rx.dispatched) <= s.tx.sends)
  }

  /** The bound of 65535 sends in `EndToEnd.DeliveredPrefix` is tight: with 65536 sends there is
      a run that delivers an old duplicate as a new message. */
  lemma WrapDeliversDuplicate()
    ensures exists events :: Broken(0.0, events, SEQ_MODULUS)
  {
    OldDuplicateDelivered(Rule(SEQ_MODULUS, false));
    var events :| RunAllowed(Rule(SEQ_MODULUS, false), Init(0.0), events) && Broken(0.0, events, SEQ_MODULUS);
  }

  /** Every run with at most `n` sends hands the handlers a prefix of what was sent. */
  ghost predicate PrefixUpTo(n: nat) {
    forall rtt: real, events, m: nat :: m <= n ==> !Broken(rtt, events, m)
  }

  /** In-order, duplicate-free delivery is guaranteed exactly up to 65535 sends. */
  lemma PrefixUpToIff(n: nat)
    ensures PrefixUpTo(n) <==> n < SEQ_MODULUS
  {
    if n < SEQ_MODULUS {
      forall rtt: real, events, m: nat | m <= n
        ensures !Broken(rtt, events, m)
      {
        if |Run(Init(rtt), events).tx.sends| == m { DeliveredPrefix(rtt, events); }
      }
    } else {
      WrapDeliversDuplicate();
      var events :| Broken(0.0, events, SEQ_MODULUS);
    }
  }

  // ---------------------------------------------------------------- a twin in the ring

  const ONE := Rx(1, HELLO)
  const TWO := Rx(2, HELLO)

  lemma TwinRings()
    ensures Emplace([], SEQ_MAX, TWO) == [TWO] && FindSlot<Message>([], SEQ_MAX, 2, 0) == At(0)
    ensures Emplace([TWO], SEQ_MAX, ONE) == [TWO, ONE] && FindSlot([TWO], SEQ_MAX, 1, 0) == At(1)
    ensures Emplace([TWO, ONE], 0, ONE) == [ONE, TWO, ONE] && FindSlot([TWO, ONE], 0, 1, 0) == At(0)
    ensures Accepted(2, SEQ_MAX) && Accepted(1, SEQ_MAX) && Accepted(1, 0)
  {
    AcceptedIffInWindow(2, SEQ_MAX);
    AcceptedIffInWindow(1, SEQ_MAX);
    AcceptedIffInWindow(1, 0);
  }

  lemma TwinNumbers()
    ensures EnvOf(SEQ_MODULUS + 1) == ONE && EnvOf(SEQ_MODULUS + 2) == TWO
    ensures SEQ_MAX % SEQ_MODULUS == SEQ_MAX && SEQ_MODULUS % SEQ_MODULUS == 0
  {
  }

  /** Sequences 2 and 1 of the next lap arrive in that order before the wrap. */
  lemma TwinsWait(rule: Rule) returns (u: State)
    requires rule.within >= 4 && rule.twins
    ensures Quiet(u, SEQ_MODULUS + 3, SEQ_MAX, [TWO, ONE]) && Leads(rule, Init(0.0), u)
  {
    TwinRings();
    TwinNumbers();
    var s := Rounds(rule, Init(0.0), 0, [], SEQ_MAX);
    s := SendOne(rule, s, SEQ_MAX, SEQ_MAX, []);
    s := SendOne(rule, s, SEQ_MODULUS, SEQ_MAX, []);
    s := SendOne(rule, s, SEQ_MODULUS + 1, SEQ_MAX, []);
    s := SendOne(rule, s, SEQ_MODULUS + 2, SEQ_MAX, []);
    s := Buffer(rule, s, SEQ_MODULUS + 3, SEQ_MAX, [], SEQ_MODULUS + 2, [TWO]);
    u := Buffer(rule, s, SEQ_MODULUS + 3, SEQ_MAX, [TWO], SEQ_MODULUS + 1, [TWO, ONE]);
  }

  /** Message 65535 is delivered, the cursor wraps, and sequence 1 arrives once more. */
  lemma TwinArrives(rule: Rule) returns (u: State)
    requires rule.within >= 4 && rule.twins
    ensures Quiet(u, SEQ_MODULUS + 3, SEQ_MODULUS, [ONE, TWO, ONE]) && Leads(rule, Init(0.0), u)
  {
    TwinRings();
    TwinNumbers();
    var s := TwinsWait(rule);
    ExpectedArrives([TWO, ONE], SEQ_MODULUS + 3, SEQ_MAX);
    NotHeldStays([TWO, ONE], 0);
    var t := Receive(rule, s, SEQ_MODULUS + 3, SEQ_MAX, [TWO, ONE], SEQ_MAX);
    u := Buffer(rule, t, SEQ_MODULUS + 3, SEQ_MODULUS, [TWO, ONE], SEQ_MODULUS + 1, [ONE, TWO, ONE]);
  }

  /** Sequences 2 and 1 buffered in arrival order before the wrap let a second 1 in after it, once
      65536 messages have been drained. */
  lemma WrapDuplicatesInRing()
    ensures exists events :: var s := Run(Init(0.0), events);
                             |s.rx.drained| == SEQ_MODULUS && !Distinct(s.rx.ring)
  {
    var rule := Rule(4, true);
    ReachesSelf(rule, Init(0.0));
    var s := TwinArrives(rule);
    assert s.rx.ring[0].sequence == s.rx.ring[2].sequence;
    var events :| Run(Init(0.0), events) == s && RunAllowed(rule, Init(0.0), events);
  }

  /** In every run that has drained at most `n` messages the ring holds no sequence twice. */
  ghost predicate DistinctUpTo(n: nat) {
    forall rtt: real, events :: |Run(Init(rtt), events).rx.drained| <= n ==> Distinct(Run(Init(rtt), events).rx.ring)
  }

  /** The ring is guaranteed duplicate-free exactly up to 65535 drained messages. */
  lemma DistinctUpToIff(n: nat)
    ensures DistinctUpTo(n) <==> n < SEQ_MODULUS
  {
    if n < SEQ_MODULUS {
      forall rtt: real, events | |Run(Init(rtt), events).rx.drained| <= n
        ensures Distinct(Run(Init(rtt), events).rx.ring)
      {
        RunKeepsInv(rtt, events);
      }
    } else {
      WrapDuplicatesInRing();
      var events :| var s := Run(Init(0.0), events);
                    |s.rx.drained| == SEQ_MODULUS && !Distinct(s.rx.ring);
      assert |Run(Init(0.0), events).rx.drained| <= n;
    }
  }

  // ---------------------------------------------------------------- the twin, one lap later

  lemma TwinLeft()
    ensures Drain([ONE, TWO, ONE], 1) == Drained([ONE], 3, [ONE, TWO])
  {
    assert Without([ONE, TWO, ONE], 0) == [TWO, ONE];
    assert IndexOf([TWO, ONE], 2) == 0 && Without([TWO, ONE], 0) == [ONE];
    NotHeldStays([ONE], 3);
    assert Drain([TWO, ONE], 2) == Drained([ONE], 3, [TWO] + []);
    assert [ONE] + ([TWO] + []) == [ONE, TWO];
  }

  /** Delivering the pair leaves the twin behind, alone in the ring. */
  lemma TwinStays(rule: Rule) returns (u: State)
    requires rule.within >= 4 && rule.twins
    ensures Quiet(u, SEQ_MODULUS + 3, SEQ_MODULUS + 3, [ONE]) && Leads(rule, Init(0.0), u)
  {
    var s := TwinArrives(rule);
    TwinNumbers();
    ExpectedArrives([ONE, TWO, ONE], SEQ_MODULUS + 3, SEQ_MODULUS);
    TwinLeft();
    u := Receive(rule, s, SEQ_MODULUS + 3, SEQ_MODULUS, [ONE, TWO, ONE], SEQ_MODULUS);
  }

  /** At the end of the next lap it is delivered as a new message. */
  lemma TwinDelivered(rule: Rule, s: State) returns (u: State)
    requires Quiet(s, 2 * SEQ_MODULUS, 2 * SEQ_MODULUS, [ONE]) && rule.within > 0
    ensures Quiet(u, 2 * SEQ_MODULUS + 1, 2 * SEQ_MODULUS + 2, []) && Leads(rule, s, u)
  {
    var n := 2 * SEQ_MODULUS;
    assert n % SEQ_MODULUS == 0 && (n + 1) % SEQ_MODULUS == 1;
    var t := SendOne(rule, s, n, n, [ONE]);
    ExpectedArrives([ONE], n + 1, n);
    assert Without([ONE], 0) == [];
    NotHeldStays([], 2);
    assert Drain([ONE], 1) == Drained([], 2, [ONE]);
    u := Receive(rule, t, n + 1, n, [ONE], n);
  }

  lemma TwinRun(rule: Rule) returns (u: State)
    requires rule.within >= 4 && rule.twins
    ensures Quiet(u, 2 * SEQ_MODULUS + 1, 2 * SEQ_MODULUS + 2, []) && Leads(rule, Init(0.0), u)
  {
    var s := TwinStays(rule);
    ClearBetween(ONE, 1, SEQ_MODULUS + 3, 2 * SEQ_MODULUS);
    var t := Rounds(rule, s, SEQ_MODULUS + 3, [ONE], 2 * SEQ_MODULUS);
    LeadsOn(rule, Init(0.0), s, t);
    u := TwinDelivered(rule, t);
    LeadsOn(rule, Init(0.0), t, u);
  }

  /** Freshness alone is not enough: in this run every accepted packet was sent at most three
      messages away from the receiver's position, and yet a message of one lap is delivered in the
      next. */
  lemma TwinsBreak(rule: Rule)
    requires rule.within >= 4 && rule.twins
    ensures exists events :: RunAllowed(rule, Init(0.0), events) && Broken(0.0, events, 2 * SEQ_MODULUS + 1)
  {
    var u := TwinRun(rule);
    TooManyDelivered(rule, u, 2 * SEQ_MODULUS + 1, 2 * SEQ_MODULUS + 2);
  }

  // ---------------------------------------------------------------- exactly which rules are enough

  /** Every run that the rule allows, however long, delivers a prefix. */
  ghost predicate Enough(rule: Rule) {
    forall rtt: real, events, m: nat :: RunAllowed(rule, Init(rtt), events) ==> !Broken(rtt, events, m)
  }

  /** Delivery in runs of any length is guaranteed exactly when accepted packets were sent at most
      65487 messages away from the receiver's position and have no hidden twin, or, if they may have
      one, at most two. */
  lemma EnoughIff(rule: Rule)
    ensures Enough(rule) <==> Strict(rule)
  {
    if Strict(rule) {
      forall rtt: real, events, m: nat | RunAllowed(rule, Init(rtt), events)
        ensures !Broken(rtt, events, m)
      {
        FreshDelivery(rule, rtt, events);
      }
    } else if rule.twins {
      TwinsBreak(rule);
      var events :| RunAllowed(rule, Init(0.0), events) && Broken(0.0, events, 2 * SEQ_MODULUS + 1);
    } else {
      OldDuplicateDelivered(rule);
      var events :| RunAllowed(rule, Init(0.0), events) && Broken(0.0, events, SEQ_MODULUS);
    }
  }
}
