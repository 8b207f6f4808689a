/** Concurrent `HandleInbound` calls (`pkg/channel/channel.go`): any number of transport workers
    pre-check and unpack in parallel, then emplace, drain and dispatch one at a time. */
module Receiver {
  import opened ReceiveRing
  import opened Bytes
  import opened Envelope

  type Env = Rx<Message>

  /** Where a `HandleInbound` call is. */
  datatype Worker =
    | Unpacked(env: Env)               // passed the first acceptance test and unpacked
    | Locked(env: Env)                 // owns dispatchMu
    | Dispatching(batch: seq<Env>)     // owns dispatchMu, still has these to hand to the handlers

  datatype Lock = Free | HeldBy(worker: nat)

  datatype State = State(
    next: Seq16,
    ring: seq<Env>,
    lock: Lock,
    workers: map<nat, Worker>,
    arrived: set<Env>,         // every envelope that got past unpacking
    drained: seq<Env>,         // everything drained, in order
    dispatched: seq<Env>,      // everything handed to the handlers, in order
    taken: multiset<Env>,      // everything put into the ring
    cleared: multiset<Env>)    // everything in the ring when it was closed

  datatype Event =
    | Arrive(w: nat, data: seq<octet>, unpacks: bool)
    | Acquire(w: nat)
    | Process(w: nat)
    | Dispatch(w: nat)
    | Release(w: nat)
    | Close

  const INIT := State(0, [], Free, map[], {}, [], [], multiset{}, multiset{})

  function ArriveStep(s: State, w: nat, data: seq<octet>, unpacks: bool): State {
    var p := Parse(data);
    if w in s.workers || !p.Parsed? || !Accepted(p.env.sequence, s.next) || !unpacks then s
    else s.(workers := s.workers[w := Unpacked(p.env)], arrived := s.arrived + {p.env})
  }

  /** The section under both locks: test again, emplace, drain. */
  function ProcessStep(s: State, w: nat, env: Env): State {
    if !Accepted(env.sequence, s.next) || FindSlot(s.ring, s.next, env.sequence, 0) == Duplicate
    then s.(lock := Free, workers := s.workers - {w})
    else
      var d := Drain(Emplace(s.ring, s.next, env), s.next);
      s.(ring := d.ring, next := d.next, drained := s.drained + d.out, taken := s.taken + multiset{env},
         workers := s.workers[w := Dispatching(d.out)])
  }

  function Apply(s: State, e: Event): State {
    match e
    case Arrive(w, data, unpacks) => ArriveStep(s, w, data, unpacks)
    case Acquire(w) =>
      if s.lock == Free && w in s.workers && s.workers[w].Unpacked?
      then s.(lock := HeldBy(w), workers := s.workers[w := Locked(s.workers[w].env)]) else s
    case Process(w) =>
      if w in s.workers && s.workers[w].Locked? then ProcessStep(s, w, s.workers[w].env) else s
    case Dispatch(w) =>
      if w in s.workers && s.workers[w].Dispatching? && s.workers[w].batch != [] then
        var b := s.workers[w].batch;
        s.(dispatched := s.dispatched + [b[0]], workers := s.workers[w := Dispatching(b[1..])])
      else s
    case Release(w) =>
      if w in s.workers && s.workers[w] == Dispatching([])
      then s.(lock := Free, workers := s.workers - {w}) else s
    case Close => s.(ring := [], cleared := s.cleared + multiset(s.ring))
  }

  function Run(s: State, events: seq<Event>): State {
    if events == [] then s
    else Apply(Run(s, events[..|events| - 1]), events[|events| - 1])
  }

  // ---------------------------------------------------------------- the invariant

  /** What the lock holder has drained and not yet dispatched. */
  function Undispatched(s: State): seq<Env> {
    if s.lock.HeldBy? && s.lock.worker in s.workers && s.workers[s.lock.worker].Dispatching?
    then s.workers[s.lock.worker].batch else []
  }

  ghost predicate LockOk(s: State) {
    && (s.lock.HeldBy? ==> s.lock.worker in s.workers && !s.workers[s.lock.worker].Unpacked?)
    && forall w :: w in s.workers && !s.workers[w].Unpacked? ==> s.lock == HeldBy(w)
  }

  ghost predicate InOrder(s: State) {
    && s.next == Advance(0, |s.drained|)
    && forall k :: 0 <= k < |s.drained| ==> s.drained[k].sequence == Advance(0, k)
  }

  ghost predicate AllIn(envs: seq<Env>, pool: set<Env>) {
    forall e :: e in envs ==> e in pool
  }

  ghost predicate OnlyArrived(s: State) {
    && AllIn(s.ring, s.arrived)
    && AllIn(s.drained, s.arrived)
    && (forall w :: w in s.workers && !s.workers[w].Dispatching? ==> s.workers[w].env in s.arrived)
  }

  ghost predicate TidyBeforeWrap(s: State) {
    |s.drained| + WINDOW_MAX < SEQ_MODULUS ==> Tidy(s.ring, s.next)
  }

  ghost predicate UnrepeatedUntilWrap(s: State) {
    |s.drained| < SEQ_MODULUS ==> Unrepeated(s.ring, s.next)
  }

  ghost predicate Inv(s: State) {
    && LockOk(s)
    && s.dispatched + Undispatched(s) == s.drained
    && InOrder(s)
    && OnlyArrived(s)
    && TidyBeforeWrap(s)
    && UnrepeatedUntilWrap(s)
    && !Holds(s.ring, s.next)
  }

  // ---------------------------------------------------------------- one locked section

  lemma EmplaceFrom(ring: seq<Env>, next: Seq16, env: Env, pool: set<Env>)
    requires env in pool && AllIn(ring, pool)
    ensures AllIn(Emplace(ring, next, env), pool)
  {
  }

  lemma DrainFrom(ring: seq<Env>, next: Seq16, pool: set<Env>)
    requires AllIn(ring, pool)
    ensures AllIn(Drain(ring, next).ring, pool) && AllIn(Drain(ring, next).out, pool)
  {
    DrainConserves(ring, next);
    var d := Drain(ring, next);
    forall x | x in d.ring || x in d.out
      ensures x in pool
    {
      assert x in multiset(d.ring) + multiset(d.out);
      assert x in multiset(ring);
    }
  }

  lemma AdvanceAdd(a: nat, b: nat)
    ensures Advance(Advance(0, a), b) == Advance(0, a + b)
  {
    assert (a % SEQ_MODULUS + b) % SEQ_MODULUS == (a + b) % SEQ_MODULUS;
  }

  lemma DrainInOrder(s: State, ring: seq<Env>)
    requires InOrder(s)
    ensures var d := Drain(ring, s.next); InOrder(s.(next := d.next, drained := s.drained + d.out))
  {
    DrainConsecutive(ring, s.next);
    var d := Drain(ring, s.next);
    AdvanceAdd(|s.drained|, |d.out|);
    forall k | |s.drained| <= k < |s.drained + d.out|
      ensures (s.drained + d.out)[k].sequence == Advance(0, k)
    {
      AdvanceAdd(|s.drained|, k - |s.drained|);
    }
  }

  lemma CursorIs(s: State)
    requires InOrder(s) && |s.drained| < SEQ_MODULUS
    ensures s.next == |s.drained|
  {
  }

  lemma ProcessTidy(s: State, env: Env, d: Drained<Message>)
    requires InOrder(s) && TidyBeforeWrap(s) && Accepted(env.sequence, s.next)
    requires d == Drain(Emplace(s.ring, s.next, env), s.next)
    ensures TidyBeforeWrap(s.(ring := d.ring, next := d.next, drained := s.drained + d.out))
  {
    if |s.drained + d.out| + WINDOW_MAX < SEQ_MODULUS {
      CursorIs(s);
      InboundTidy(s.ring, s.next, env);
    }
  }

  lemma ProcessUnrepeated(s: State, env: Env, d: Drained<Message>)
    requires InOrder(s) && UnrepeatedUntilWrap(s) && Accepted(env.sequence, s.next)
    requires d == Drain(Emplace(s.ring, s.next, env), s.next)
    ensures UnrepeatedUntilWrap(s.(ring := d.ring, next := d.next, drained := s.drained + d.out))
  {
    if |s.drained + d.out| < SEQ_MODULUS {
      CursorIs(s);
      EmplaceUnrepeated(s.ring, s.next, env);
      DrainUnrepeated(Emplace(s.ring, s.next, env), s.next);
    }
  }

  lemma ProcessOnlyArrived(s: State, w: nat)
    requires OnlyArrived(s) && w in s.workers && s.workers[w].Locked?
    ensures OnlyArrived(ProcessStep(s, w, s.workers[w].env))
  {
    var env := s.workers[w].env;
    var r := Emplace(s.ring, s.next, env);
    EmplaceFrom(s.ring, s.next, env, s.arrived);
    DrainFrom(r, s.next, s.arrived);
    assert AllIn(s.drained + Drain(r, s.next).out, s.arrived);
  }

  lemma ProcessLock(s: State, w: nat)
    requires LockOk(s) && w in s.workers && s.workers[w].Locked? && s.dispatched + Undispatched(s) == s.drained
    ensures var s' := ProcessStep(s, w, s.workers[w].env);
            LockOk(s') && s'.dispatched + Undispatched(s') == s'.drained
  {
    assert s.lock == HeldBy(w) && s.dispatched + [] == s.dispatched;
  }

  lemma ProcessKeepsInv(s: State, w: nat)
    requires Inv(s) && w in s.workers && s.workers[w].Locked?
    ensures Inv(ProcessStep(s, w, s.workers[w].env))
  {
    var env := s.workers[w].env;
    ProcessOnlyArrived(s, w);
    ProcessLock(s, w);
    if Accepted(env.sequence, s.next) && FindSlot(s.ring, s.next, env.sequence, 0).At? {
      var d := Drain(Emplace(s.ring, s.next, env), s.next);
      DrainInOrder(s, Emplace(s.ring, s.next, env));
      ProcessTidy(s, env, d);
      ProcessUnrepeated(s, env, d);
    }
  }

  lemma ApplyKeepsInv(s: State, e: Event)
    requires Inv(s)
    ensures Inv(Apply(s, e))
  {
    match e
    case Process(w) =>
      if w in s.workers && s.workers[w].Locked? { ProcessKeepsInv(s, w); }
    case Dispatch(w) =>
      if w in s.workers && s.workers[w].Dispatching? && s.workers[w].batch != [] {
        var b := s.workers[w].batch;
        assert s.dispatched + [b[0]] + b[1..] == s.dispatched + b;
      }
    case _ =>
  }

  lemma InitInv()
    ensures Inv(INIT)
  {
  }

  lemma {:induction false} RunKeepsInv(events: seq<Event>)
    ensures Inv(Run(INIT, events))
  {
    if events == [] {
      InitInv();
    } else {
      RunKeepsInv(events[..|events| - 1]);
      ApplyKeepsInv(Run(INIT, events[..|events| - 1]), events[|events| - 1]);
    }
  }

  // ---------------------------------------------------------------- what every run guarantees

  /** For any interleaving of workers: the handler log plus the lock holder's undispatched batch
      is the drained list, so handlers see messages in drain order. */
  lemma DispatchOrder(events: seq<Event>)
    ensures var s := Run(INIT, events); s.dispatched + Undispatched(s) == s.drained
  {
    RunKeepsInv(events);
  }

  /** The k-th message handed to the handlers carries sequence k mod 65536, in every run. */
  lemma DispatchedSequences(events: seq<Event>, k: nat)
    requires k < |Run(INIT, events).dispatched|
    ensures Run(INIT, events).dispatched[k].sequence == k % SEQ_MODULUS
    ensures Run(INIT, events).dispatched[k] in Run(INIT, events).arrived
  {
    RunKeepsInv(events);
    var s := Run(INIT, events);
    assert s.dispatched[k] == (s.dispatched + Undispatched(s))[k] == s.drained[k];
  }

  lemma TidyState(s: State)
    requires Inv(s) && |s.drained| + WINDOW_MAX < SEQ_MODULUS
    ensures s.next == |s.drained| && Tidy(s.ring, s.next) && Distinct(s.ring) && |s.ring| <= WINDOW_MAX
  {
    TidyBound(s.ring, s.next);
  }

  /** Before the sequence space wraps, the ring is strictly sorted, duplicate-free, lies in
      next+1 .. next+48 and so holds at most 48 entries. */
  lemma RingBeforeWrap(events: seq<Event>)
    requires |Run(INIT, events).drained| + WINDOW_MAX < SEQ_MODULUS
    ensures var s := Run(INIT, events);
            s.next == |s.drained| && Tidy(s.ring, s.next) && Distinct(s.ring) && |s.ring| <= WINDOW_MAX
  {
    RunKeepsInv(events);
    TidyState(Run(INIT, events));
  }

  /** Until 65536 messages have been drained the ring holds no sequence twice, also while wrapped
      entries wait in it. */
  lemma RingDistinct(events: seq<Event>)
    requires |Run(INIT, events).drained| < SEQ_MODULUS
    ensures Distinct(Run(INIT, events).ring)
  {
    RunKeepsInv(events);
  }

  /** What was put into the ring was drained, is still there, or was in it when it was closed. */
  ghost predicate Conserved(s: State) {
    s.taken == multiset(s.drained) + multiset(s.ring) + s.cleared
  }

  lemma Balance(ring: multiset<Env>, more: multiset<Env>, left: multiset<Env>, out: multiset<Env>,
                drained: multiset<Env>, cleared: multiset<Env>)
    requires ring + more == left + out
    ensures drained + ring + cleared + more == drained + out + left + cleared
  {
    assert drained + ring + cleared + more == drained + cleared + (ring + more);
  }

  lemma ProcessConserves(s: State, env: Env, d: Drained<Message>)
    requires Conserved(s) && FindSlot(s.ring, s.next, env.sequence, 0).At?
    requires d == Drain(Emplace(s.ring, s.next, env), s.next)
    ensures s.taken + multiset{env} == multiset(s.drained + d.out) + multiset(d.ring) + s.cleared
  {
    EmplaceConserves(s.ring, s.next, env);
    DrainConserves(Emplace(s.ring, s.next, env), s.next);
    Balance(multiset(s.ring), multiset{env}, multiset(d.ring), multiset(d.out), multiset(s.drained), s.cleared);
    assert multiset(s.drained + d.out) == multiset(s.drained) + multiset(d.out);
  }

  lemma ApplyConserves(s: State, e: Event)
    requires Conserved(s)
    ensures Conserved(Apply(s, e))
  {
    match e
    case Process(w) =>
      if w in s.workers && s.workers[w].Locked? {
        var env := s.workers[w].env;
        if Accepted(env.sequence, s.next) && FindSlot(s.ring, s.next, env.sequence, 0).At? {
          ProcessConserves(s, env, Drain(Emplace(s.ring, s.next, env), s.next));
        }
      }
    case _ =>
  }

  /** In every run nothing that was put into the ring is lost before it is closed: it was drained or
      is still there, as often as it was put in. */
  lemma {:induction false} NothingLost(events: seq<Event>)
    ensures var s := Run(INIT, events); s.taken == multiset(s.drained) + multiset(s.ring) + s.cleared
    ensures (forall i :: 0 <= i < |events| ==> events[i] != Close) ==> Run(INIT, events).cleared == multiset{}
  {
    if events != [] {
      NothingLost(events[..|events| - 1]);
      ApplyConserves(Run(INIT, events[..|events| - 1]), events[|events| - 1]);
    }
    if forall i :: 0 <= i < |events| ==> events[i] != Close { NeverCleared(events); }
  }

  lemma KeepsCleared(s: State, e: Event)
    requires e != Close
    ensures Apply(s, e).cleared == s.cleared
  {
  }

  lemma {:induction false} NeverCleared(events: seq<Event>)
    requires forall i :: 0 <= i < |events| ==> events[i] != Close
    ensures Run(INIT, events).cleared == multiset{}
  {
    if events != [] {
      NeverCleared(events[..|events| - 1]);
      KeepsCleared(Run(INIT, events[..|events| - 1]), events[|events| - 1]);
    }
  }

  /** A packet that parses and is in the window gets past the first test; under the lock it is put
      into the ring unless a test refuses it by then; and if it is the expected one it is drained at
      once. */
  lemma PacketPath(s: State, w: nat, data: seq<octet>, unpacks: bool)
    ensures w !in s.workers && unpacks && Parse(data).Parsed? && Accepted(Parse(data).env.sequence, s.next) ==>
              var u := Apply(s, Arrive(w, data, unpacks)); w in u.workers && u.workers[w] == Unpacked(Parse(data).env)
  {
  }

  lemma ProcessPath(s: State, w: nat)
    requires w in s.workers && s.workers[w].Locked?
    ensures var env, u := s.workers[w].env, Apply(s, Process(w));
            var added := Accepted(env.sequence, s.next) && FindSlot(s.ring, s.next, env.sequence, 0).At?;
            && u.taken == s.taken + (if added then multiset{env} else multiset{})
            && (added && env.sequence == s.next && !Holds(s.ring, s.next) ==>
                  |u.drained| > |s.drained| && u.drained[|s.drained|] == env)
  {
    var env := s.workers[w].env;
    if env.sequence == s.next && !Holds(s.ring, s.next) { ExpectedIsDrained(s.ring, s.next, env); }
  }

  /** Closing empties the ring and moves neither the cursor nor anything already drained. */
  lemma CloseLaw(s: State)
    ensures var u := Apply(s, Close);
            && u.ring == [] && u.next == s.next && u.drained == s.drained && u.dispatched == s.dispatched
            && u.workers == s.workers && u.lock == s.lock
  {
  }
}
