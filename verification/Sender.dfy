/** The send side of `pkg/channel/channel.go`: sequence reservation around a fallible outlet,
    retries, delivery proofs, and the wait-for-room / wait-for-idle wakeups. */
module Sender {
  import opened ReceiveRing
  import opened Bytes
  import opened Envelope
  import AdaptiveWindow

  const MAX_TRIES := 5

  /** An outstanding envelope.  `handle` identifies the packet the outlet returned. */
  datatype Pending = Pending(sequence: Seq16, handle: nat, message: Message, tries: nat)

  /** The fields that the channel mutex protects. */
  datatype Core = Core(win: AdaptiveWindow.Window, ring: seq<Pending>, nextSequence: Seq16, generation: nat)

  // ---------------------------------------------------------------- callbacks under the mutex

  function Find(ring: seq<Pending>, handle: nat): (i: nat)
    ensures i <= |ring|
    ensures i < |ring| ==> ring[i].handle == handle
    ensures forall k :: 0 <= k < i ==> ring[k].handle != handle
  {
    if ring == [] then 0
    else if ring[0].handle == handle then 0
    else 1 + Find(ring[1..], handle)
  }

  function RemoveAt(ring: seq<Pending>, i: nat): seq<Pending>
    requires i < |ring|
  {
    ring[..i] + ring[i + 1..]
  }

  /** What `signalReadyLocked` does: every waiter on the old generation is released. */
  function Signal(k: Core): Core { k.(generation := k.generation + 1) }

  datatype TimeoutOutcome = Unknown | GaveUp | Resent

  function TimeoutOutcomeOf(k: Core, handle: nat, resendOk: bool): TimeoutOutcome {
    var i := Find(k.ring, handle);
    if i == |k.ring| then Unknown
    else if k.ring[i].tries >= MAX_TRIES || !resendOk then GaveUp
    else Resent
  }

  function HandleTimeout(k: Core, handle: nat, resendOk: bool): Core {
    var i := Find(k.ring, handle);
    var shrunk := k.(win := AdaptiveWindow.OnTimeout(k.win));
    match TimeoutOutcomeOf(k, handle, resendOk)
    case Unknown => k
    case GaveUp => Signal(shrunk.(ring := RemoveAt(k.ring, i)))
    case Resent => shrunk.(ring := k.ring[i := k.ring[i].(tries := k.ring[i].tries + 1)])
  }

  function HandleDelivered(k: Core, handle: nat, rtt: real): Core {
    var i := Find(k.ring, handle);
    if i == |k.ring| then k
    else Signal(k.(ring := RemoveAt(k.ring, i), win := AdaptiveWindow.OnDelivered(k.win, rtt)))
  }

  // ---------------------------------------------------------------- the system

  /** Progress of the one `Send` call that holds sendMu. */
  datatype SendPc =
    | Idle
    | Checked(message: Message)                     // window had room
    | Reserved(message: Message, sequence: Seq16)   // packed with this sequence, size fits
    | Committed(message: Message, sequence: Seq16)  // nextSequence advanced, outlet being called
    | Transmitted(pending: Pending)                 // outlet accepted, not in the ring yet

  datatype Waiter =
    | Captured(generation: nat)                     // WaitReady, between capture and check
    | BlockedReady(generation: nat, sawDown: bool)  // WaitReady in its select
    | BlockedIdle(generation: nat)                  // WaitTxIdle in its select

  datatype Transmission = Transmission(handle: nat, raw: seq<octet>)

  datatype State = State(
    core: Core,
    pc: SendPc,
    waiters: map<nat, Waiter>,
    sends: seq<Message>,       // every send the outlet accepted, in order
    wire: seq<Transmission>,   // every transmission, first or repeated
    delivered: set<nat>,       // handles whose delivery was proved
    gaveUp: set<nat>,          // handles dropped after the last try or a failed resend
    dropped: set<nat>,         // handles dropped by Close
    failed: set<nat>)          // handles whose resend the outlet refused

  datatype Event =
    | SendCheck(message: Message, up: bool)
    | SendReserve(mdu: int)
    | SendCommit
    | OutletFails
    | OutletAccepts
    | SendEnqueue
    | TimeoutFires(handle: nat, resendOk: bool)
    | DeliveryProved(handle: nat, rtt: real)
    | NotifyClosed
    | Close
    | WaitCapture(i: nat)
    | WaitCheck(i: nat, up: bool)
    | WaitIdle(i: nat)
    | WaitLeave(i: nat)        // woken by a closed generation, a timer or the context

  function Init(rtt: real): State {
    State(Core(AdaptiveWindow.Initial(rtt), [], 0, 0), Idle, map[], [], [], {}, {}, {}, {})
  }

  predicate HasRoom(k: Core) { |k.ring| < k.win.size }

  function Handles(ring: seq<Pending>): set<nat> {
    set i | 0 <= i < |ring| :: ring[i].handle
  }

  function CommitStep(s: State): State
    requires s.pc.Reserved?
  {
    if s.core.nextSequence != s.pc.sequence then s.(pc := Idle)
    else s.(pc := Committed(s.pc.message, s.pc.sequence),
            core := s.core.(nextSequence := Next(s.pc.sequence)))
  }

  /** The outlet put the envelope on the wire and returned a packet; handles are numbered in that
      order. */
  function AcceptStep(s: State): State
    requires s.pc.Committed?
  {
    var p := Pack(s.pc.sequence, s.pc.message);
    if p == BodyTooLarge then s
    else
      var h := |s.sends|;
      s.(pc := Transmitted(Pending(s.pc.sequence, h, s.pc.message, 1)),
         sends := s.sends + [s.pc.message], wire := s.wire + [Transmission(h, p.raw)])
  }

  function TimeoutStep(s: State, handle: nat, resendOk: bool): State {
    var s' := s.(core := HandleTimeout(s.core, handle, resendOk));
    match TimeoutOutcomeOf(s.core, handle, resendOk)
    case Unknown => s
    case GaveUp =>
      var refused := s.core.ring[Find(s.core.ring, handle)].tries < MAX_TRIES && !resendOk;
      s'.(gaveUp := s.gaveUp + {handle}, failed := if refused then s.failed + {handle} else s.failed)
    case Resent =>
      var e := s.core.ring[Find(s.core.ring, handle)];
      var p := Pack(e.sequence, e.message);
      if p == BodyTooLarge then s else s'.(wire := s.wire + [Transmission(handle, p.raw)])
  }

  function DeliveredStep(s: State, handle: nat, rtt: real): State {
    if Find(s.core.ring, handle) == |s.core.ring| then s
    else s.(core := HandleDelivered(s.core, handle, rtt), delivered := s.delivered + {handle})
  }

  function Apply(s: State, e: Event): State {
    match e
    case SendCheck(m, up) =>
      if s.pc == Idle && up && HasRoom(s.core) then s.(pc := Checked(m)) else s
    case SendReserve(mdu) =>
      if !s.pc.Checked? then s
      else
        var p := Pack(s.core.nextSequence, s.pc.message);
        if p == BodyTooLarge || |p.raw| > mdu then s.(pc := Idle)
        else s.(pc := Reserved(s.pc.message, s.core.nextSequence))
    case SendCommit => if s.pc.Reserved? then CommitStep(s) else s
    case OutletFails =>
      if s.pc.Committed? then s.(pc := Idle, core := s.core.(nextSequence := s.pc.sequence)) else s
    case OutletAccepts => if s.pc.Committed? then AcceptStep(s) else s
    case SendEnqueue =>
      if s.pc.Transmitted? then s.(pc := Idle, core := s.core.(ring := s.core.ring + [s.pc.pending])) else s
    case TimeoutFires(handle, resendOk) => TimeoutStep(s, handle, resendOk)
    case DeliveryProved(handle, rtt) => DeliveredStep(s, handle, rtt)
    case NotifyClosed => s.(core := Signal(s.core))
    case Close => s.(core := Signal(s.core.(ring := [])), dropped := s.dropped + Handles(s.core.ring))
    case WaitCapture(i) =>
      if i in s.waiters then s else s.(waiters := s.waiters[i := Captured(s.core.generation)])
    case WaitCheck(i, up) =>
      if i !in s.waiters || !s.waiters[i].Captured? then s
      else if up && HasRoom(s.core) then s.(waiters := s.waiters - {i})
      else s.(waiters := s.waiters[i := BlockedReady(s.waiters[i].generation, !up)])
    case WaitIdle(i) =>
      if i in s.waiters || s.core.ring == [] then s
      else s.(waiters := s.waiters[i := BlockedIdle(s.core.generation)])
    case WaitLeave(i) => s.(waiters := s.waiters - {i})
  }

  /** The steps of one `Send` call that nothing interrupts. */
  function SendCall(s: State, m: Message, up: bool, mdu: int, accepted: bool): State {
    var called := Apply(Apply(Apply(s, SendCheck(m, up)), SendReserve(mdu)), SendCommit);
    Apply(Apply(called, if accepted then OutletAccepts else OutletFails), SendEnqueue)
  }

  function Run(s: State, events: seq<Event>): State {
    if events == [] then s
    else Apply(Run(s, events[..|events| - 1]), events[|events| - 1])
  }

  // ---------------------------------------------------------------- invariant: sequences

  ghost predicate Numbered(sends: seq<Message>, p: Pending) {
    && p.handle < |sends| && p.message == sends[p.handle]
    && p.sequence == p.handle % SEQ_MODULUS
    && 1 <= p.tries <= MAX_TRIES
    && |p.message.body| <= SEQ_MAX
  }

  ghost predicate SequenceInv(s: State) {
    && s.core.nextSequence == (|s.sends| + if s.pc.Committed? then 1 else 0) % SEQ_MODULUS
    && (s.pc.Reserved? ==> s.pc.sequence == s.core.nextSequence)
    && (s.pc.Committed? ==> s.pc.sequence == |s.sends| % SEQ_MODULUS)
    && (s.pc.Reserved? || s.pc.Committed? ==> |s.pc.message.body| <= SEQ_MAX)
    && (s.pc.Transmitted? ==> Numbered(s.sends, s.pc.pending) && s.pc.pending.handle == |s.sends| - 1)
    && forall i :: 0 <= i < |s.core.ring| ==> Numbered(s.sends, s.core.ring[i])
  }

  ghost predicate WireInv(s: State) {
    forall i :: 0 <= i < |s.wire| ==>
      && s.wire[i].handle < |s.sends|
      && |s.sends[s.wire[i].handle].body| <= SEQ_MAX
      && s.wire[i].raw == Pack(s.wire[i].handle % SEQ_MODULUS, s.sends[s.wire[i].handle]).raw
  }

  lemma NextIsMod(n: nat)
    ensures Next(n % SEQ_MODULUS) == (n + 1) % SEQ_MODULUS
  {
    assert (n % SEQ_MODULUS + 1) % SEQ_MODULUS == (n + 1) % SEQ_MODULUS;
  }

  lemma TimeoutKeepsSequence(s: State, handle: nat, resendOk: bool)
    requires SequenceInv(s)
    ensures SequenceInv(TimeoutStep(s, handle, resendOk))
  {
  }

  lemma DeliveredKeepsSequence(s: State, handle: nat, rtt: real)
    requires SequenceInv(s)
    ensures SequenceInv(DeliveredStep(s, handle, rtt))
  {
  }

  lemma AcceptKeepsSequence(s: State)
    requires SequenceInv(s) && s.pc.Committed?
    ensures SequenceInv(AcceptStep(s))
  {
  }

  lemma ApplyKeepsSequence(s: State, e: Event)
    requires SequenceInv(s)
    ensures SequenceInv(Apply(s, e))
  {
    match e
    case SendCommit => NextIsMod(|s.sends|);
    case OutletAccepts => if s.pc.Committed? { AcceptKeepsSequence(s); }
    case TimeoutFires(handle, resendOk) => TimeoutKeepsSequence(s, handle, resendOk);
    case DeliveryProved(handle, rtt) => DeliveredKeepsSequence(s, handle, rtt);
    case _ =>
  }

  lemma ApplyKeepsWire(s: State, e: Event)
    requires SequenceInv(s) && WireInv(s)
    ensures WireInv(Apply(s, e))
  {
  }

  // ---------------------------------------------------------------- invariant: room and window

  ghost predicate RoomInv(s: State) {
    && AdaptiveWindow.Inv(s.core.win)
    && |s.core.ring| <= WINDOW_MAX
    && (!s.pc.Idle? ==> |s.core.ring| < WINDOW_MAX)
  }

  lemma ApplyKeepsRoom(s: State, e: Event)
    requires RoomInv(s)
    ensures RoomInv(Apply(s, e))
  {
  }

  // ---------------------------------------------------------------- invariant: accounting

  function Outstanding(s: State): set<nat> {
    Handles(s.core.ring) + if s.pc.Transmitted? then {s.pc.pending.handle} else {}
  }

  ghost predicate Ascending(ring: seq<Pending>, bound: nat) {
    && (forall i, j :: 0 <= i < j < |ring| ==> ring[i].handle < ring[j].handle)
    && (forall i :: 0 <= i < |ring| ==> ring[i].handle < bound)
  }

  function Times(h: nat, a: set<nat>): nat { if h in a then 1 else 0 }

  /** Each of 0 .. n-1 is in exactly one of the four sets, and nothing else is in any. */
  ghost predicate Partition(a: set<nat>, b: set<nat>, c: set<nat>, d: set<nat>, n: nat) {
    forall h: nat :: Times(h, a) + Times(h, b) + Times(h, c) + Times(h, d) == if h < n then 1 else 0
  }

  ghost predicate AccountInv(s: State) {
    && (s.pc.Transmitted? ==> |s.sends| > 0 && s.pc.pending.handle == |s.sends| - 1)
    && Ascending(s.core.ring, if s.pc.Transmitted? then |s.sends| - 1 else |s.sends|)
    && Partition(Outstanding(s), s.delivered, s.gaveUp, s.dropped, |s.sends|)
  }

  lemma RemoveHandles(ring: seq<Pending>, i: nat, bound: nat)
    requires i < |ring| && Ascending(ring, bound)
    ensures Ascending(RemoveAt(ring, i), bound)
    ensures Handles(RemoveAt(ring, i)) == Handles(ring) - {ring[i].handle}
  {
    var r := RemoveAt(ring, i);
    forall h | h in Handles(ring) && h != ring[i].handle
      ensures h in Handles(r)
    {
      var k :| 0 <= k < |ring| && ring[k].handle == h;
      assert r[if k < i then k else k - 1].handle == h;
    }
  }

  lemma SameHandles(ring: seq<Pending>, i: nat, p: Pending)
    requires i < |ring| && p.handle == ring[i].handle
    ensures Handles(ring[i := p]) == Handles(ring)
  {
    forall h | h in Handles(ring)
      ensures h in Handles(ring[i := p])
    {
      var k :| 0 <= k < |ring| && ring[k].handle == h;
      assert ring[i := p][k].handle == h;
    }
  }

  lemma SnocHandles(ring: seq<Pending>, p: Pending)
    ensures Handles(ring + [p]) == Handles(ring) + {p.handle}
  {
    forall h | h in Handles(ring) + {p.handle}
      ensures h in Handles(ring + [p])
    {
      if h in Handles(ring) {
        var k :| 0 <= k < |ring| && ring[k].handle == h;
        assert (ring + [p])[k].handle == h;
      } else {
        assert (ring + [p])[|ring|].handle == h;
      }
    }
  }

  /** Moving a handle out of one set of a partition into another. */
  lemma MovedPartition(out: set<nat>, del: set<nat>, gave: set<nat>, drop: set<nat>, n: nat, h: nat)
    requires Partition(out, del, gave, drop, n) && h in out
    ensures Partition(out - {h}, del + {h}, gave, drop, n) && Partition(out - {h}, del, gave + {h}, drop, n)
  {
    assert Times(h, out) + Times(h, del) + Times(h, gave) + Times(h, drop) <= 1;
  }

  lemma RemovedOutstanding(s: State, i: nat, k: Core)
    requires AccountInv(s) && i < |s.core.ring| && k.ring == RemoveAt(s.core.ring, i)
    ensures var h := s.core.ring[i].handle;
            h in Outstanding(s) && Outstanding(s.(core := k)) == Outstanding(s) - {h}
    ensures Ascending(k.ring, if s.pc.Transmitted? then |s.sends| - 1 else |s.sends|)
  {
    RemoveHandles(s.core.ring, i, if s.pc.Transmitted? then |s.sends| - 1 else |s.sends|);
  }

  lemma ResentKeepsAccount(s: State, i: nat, k: Core, wire: seq<Transmission>)
    requires AccountInv(s) && i < |s.core.ring|
    requires k.ring == s.core.ring[i := s.core.ring[i].(tries := s.core.ring[i].tries + 1)]
    ensures AccountInv(s.(core := k, wire := wire))
  {
    SameHandles(s.core.ring, i, s.core.ring[i].(tries := s.core.ring[i].tries + 1));
    assert Outstanding(s.(core := k, wire := wire)) == Outstanding(s);
  }

  lemma TimeoutKeepsAccount(s: State, handle: nat, resendOk: bool)
    requires AccountInv(s)
    ensures AccountInv(TimeoutStep(s, handle, resendOk))
  {
    var i, k := Find(s.core.ring, handle), HandleTimeout(s.core, handle, resendOk);
    match TimeoutOutcomeOf(s.core, handle, resendOk)
    case Unknown =>
    case GaveUp =>
      RemovedOutstanding(s, i, k);
      MovedPartition(Outstanding(s), s.delivered, s.gaveUp, s.dropped, |s.sends|, handle);
    case Resent =>
      ResentKeepsAccount(s, i, k, TimeoutStep(s, handle, resendOk).wire);
  }

  lemma DeliveredKeepsAccount(s: State, handle: nat, rtt: real)
    requires AccountInv(s)
    ensures AccountInv(DeliveredStep(s, handle, rtt))
  {
    var i := Find(s.core.ring, handle);
    if i < |s.core.ring| {
      RemovedOutstanding(s, i, HandleDelivered(s.core, handle, rtt));
      MovedPartition(Outstanding(s), s.delivered, s.gaveUp, s.dropped, |s.sends|, handle);
    }
  }

  lemma AcceptKeepsAccount(s: State)
    requires AccountInv(s) && s.pc.Committed?
    ensures AccountInv(AcceptStep(s))
  {
  }

  lemma EnqueueKeepsAccount(s: State)
    requires AccountInv(s)
    ensures AccountInv(Apply(s, SendEnqueue))
  {
    if s.pc.Transmitted? { SnocHandles(s.core.ring, s.pc.pending); }
  }

  lemma CloseKeepsAccount(s: State)
    requires AccountInv(s)
    ensures AccountInv(Apply(s, Close))
  {
  }

  lemma ApplyKeepsAccount(s: State, e: Event)
    requires AccountInv(s)
    ensures AccountInv(Apply(s, e))
  {
    match e
    case TimeoutFires(handle, resendOk) => TimeoutKeepsAccount(s, handle, resendOk);
    case DeliveryProved(handle, rtt) => DeliveredKeepsAccount(s, handle, rtt);
    case SendEnqueue => EnqueueKeepsAccount(s);
    case OutletAccepts => if s.pc.Committed? { AcceptKeepsAccount(s); }
    case Close => CloseKeepsAccount(s);
    case _ =>
  }

  // ---------------------------------------------------------------- invariant: tries

  function Transmissions(wire: seq<Transmission>, handle: nat): nat {
    if wire == [] then 0
    else Transmissions(wire[..|wire| - 1], handle) + if wire[|wire| - 1].handle == handle then 1 else 0
  }

  ghost predicate TriesInv(s: State) {
    && (forall h :: Transmissions(s.wire, h) <= MAX_TRIES)
    && (forall h :: h >= |s.sends| ==> Transmissions(s.wire, h) == 0)
    && (forall i :: 0 <= i < |s.core.ring| ==> Transmissions(s.wire, s.core.ring[i].handle) == s.core.ring[i].tries)
    && (s.pc.Transmitted? ==> Transmissions(s.wire, s.pc.pending.handle) == s.pc.pending.tries)
  }

  lemma SnocTransmissions(wire: seq<Transmission>, t: Transmission)
    ensures forall h :: Transmissions(wire + [t], h) == Transmissions(wire, h) + if h == t.handle then 1 else 0
  {
    assert (wire + [t])[..|wire + [t]| - 1] == wire;
  }

  lemma OneMoreTry(wire: seq<Transmission>, ring: seq<Pending>, i: nat, t: Transmission, bound: nat)
    requires i < |ring| && ring[i].handle == t.handle && Ascending(ring, bound)
    requires forall j :: 0 <= j < |ring| ==> Transmissions(wire, ring[j].handle) == ring[j].tries
    ensures var r := ring[i := ring[i].(tries := ring[i].tries + 1)];
            forall j :: 0 <= j < |r| ==> Transmissions(wire + [t], r[j].handle) == r[j].tries
  {
    SnocTransmissions(wire, t);
  }

  lemma ResentKeepsTries(s: State, handle: nat, resendOk: bool)
    requires TriesInv(s) && AccountInv(s) && TimeoutOutcomeOf(s.core, handle, resendOk).Resent?
    ensures TriesInv(TimeoutStep(s, handle, resendOk))
  {
    var i := Find(s.core.ring, handle);
    var p := Pack(s.core.ring[i].sequence, s.core.ring[i].message);
    if p.Packed? {
      var t := Transmission(handle, p.raw);
      SnocTransmissions(s.wire, t);
      OneMoreTry(s.wire, s.core.ring, i, t, if s.pc.Transmitted? then |s.sends| - 1 else |s.sends|);
    }
  }

  lemma TimeoutKeepsTries(s: State, handle: nat, resendOk: bool)
    requires TriesInv(s) && AccountInv(s)
    ensures TriesInv(TimeoutStep(s, handle, resendOk))
  {
    match TimeoutOutcomeOf(s.core, handle, resendOk)
    case Resent => ResentKeepsTries(s, handle, resendOk);
    case _ =>
  }

  lemma AcceptKeepsTries(s: State)
    requires TriesInv(s) && AccountInv(s) && s.pc.Committed?
    ensures TriesInv(AcceptStep(s))
  {
    if Pack(s.pc.sequence, s.pc.message).Packed? {
      SnocTransmissions(s.wire, Transmission(|s.sends|, Pack(s.pc.sequence, s.pc.message).raw));
    }
  }

  lemma ApplyKeepsTries(s: State, e: Event)
    requires TriesInv(s) && AccountInv(s)
    ensures TriesInv(Apply(s, e))
  {
    match e
    case TimeoutFires(handle, resendOk) => TimeoutKeepsTries(s, handle, resendOk);
    case OutletAccepts => if s.pc.Committed? { AcceptKeepsTries(s); }
    case _ =>
  }

  // ---------------------------------------------------------------- invariant: giving up

  /** Whoever was given up had a refused resend, or all five transmissions. */
  ghost predicate GaveUpInv(s: State) {
    && s.failed <= s.gaveUp
    && forall h :: h in s.gaveUp ==>
         if h in s.failed then Transmissions(s.wire, h) < 5 else Transmissions(s.wire, h) == 5
  }

  lemma GaveUpIsDone(s: State, h: nat)
    requires AccountInv(s) && h in s.gaveUp
    ensures h < |s.sends| && h !in Outstanding(s)
  {
    assert Times(h, Outstanding(s)) + Times(h, s.delivered) + Times(h, s.gaveUp) + Times(h, s.dropped)
        == if h < |s.sends| then 1 else 0;
  }

  lemma WireKeepsGaveUp(s: State, t: Transmission)
    requires GaveUpInv(s) && AccountInv(s) && (t.handle >= |s.sends| || t.handle in Outstanding(s))
    ensures GaveUpInv(s.(wire := s.wire + [t]))
  {
    SnocTransmissions(s.wire, t);
    forall h | h in s.gaveUp
      ensures Transmissions(s.wire + [t], h) == Transmissions(s.wire, h)
    {
      GaveUpIsDone(s, h);
    }
  }

  lemma EntryTransmissions(s: State, i: nat)
    requires SequenceInv(s) && AccountInv(s) && TriesInv(s) && i < |s.core.ring|
    ensures var e := s.core.ring[i];
            1 <= e.tries <= 5 && Transmissions(s.wire, e.handle) == e.tries
            && e.handle in Outstanding(s) && e.handle !in s.gaveUp
  {
    assert Numbered(s.sends, s.core.ring[i]);
    var h := s.core.ring[i].handle;
    if h in s.gaveUp { GaveUpIsDone(s, h); }
  }

  lemma TimeoutKeepsGaveUp(s: State, handle: nat, resendOk: bool)
    requires SequenceInv(s) && AccountInv(s) && TriesInv(s) && GaveUpInv(s)
    ensures GaveUpInv(TimeoutStep(s, handle, resendOk))
  {
    var i := Find(s.core.ring, handle);
    if i < |s.core.ring| {
      EntryTransmissions(s, i);
      var e := s.core.ring[i];
      if TimeoutOutcomeOf(s.core, handle, resendOk) == Resent && Pack(e.sequence, e.message).Packed? {
        WireKeepsGaveUp(s, Transmission(handle, Pack(e.sequence, e.message).raw));
      }
    }
  }

  lemma ApplyKeepsGaveUp(s: State, e: Event)
    requires SequenceInv(s) && AccountInv(s) && TriesInv(s) && GaveUpInv(s)
    ensures GaveUpInv(Apply(s, e))
  {
    match e
    case TimeoutFires(handle, resendOk) => TimeoutKeepsGaveUp(s, handle, resendOk);
    case OutletAccepts =>
      if s.pc.Committed? && Pack(s.pc.sequence, s.pc.message).Packed? {
        WireKeepsGaveUp(s, Transmission(|s.sends|, Pack(s.pc.sequence, s.pc.message).raw));
      }
    case _ =>
  }

  // ---------------------------------------------------------------- invariant: wakeups

  ghost predicate WaiterOk(k: Core, w: Waiter) {
    && w.generation <= k.generation
    && (w.BlockedReady? && w.generation == k.generation && !w.sawDown ==> !HasRoom(k))
    && (w.BlockedIdle? && w.generation == k.generation ==> k.ring != [])
  }

  ghost predicate WakeInv(s: State) {
    forall i :: i in s.waiters ==> WaiterOk(s.core, s.waiters[i])
  }

  /** A step of the shared fields that either starts a new generation or leaves no more room and
      does not empty the ring keeps every waiter sound. */
  lemma CoreStepWakes(s: State, k: Core)
    requires WakeInv(s)
    requires k.generation > s.core.generation
             || (&& k.generation == s.core.generation
                 && (HasRoom(k) ==> HasRoom(s.core)) && (k.ring == [] ==> s.core.ring == []))
    ensures WakeInv(s.(core := k))
  {
  }

  lemma ApplyKeepsWake(s: State, e: Event)
    requires WakeInv(s) && RoomInv(s)
    ensures WakeInv(Apply(s, e))
  {
    if !e.WaitCapture? && !e.WaitCheck? && !e.WaitIdle? && !e.WaitLeave? {
      CoreStepWakes(s, Apply(s, e).core);
    }
  }

  // ---------------------------------------------------------------- every run

  ghost predicate Inv(s: State) {
    SequenceInv(s) && WireInv(s) && RoomInv(s) && AccountInv(s) && TriesInv(s) && WakeInv(s)
  }

  lemma ApplyKeepsInv(s: State, e: Event)
    requires Inv(s)
    ensures Inv(Apply(s, e))
  {
    ApplyKeepsSequence(s, e);
    ApplyKeepsWire(s, e);
    ApplyKeepsRoom(s, e);
    ApplyKeepsAccount(s, e);
    ApplyKeepsTries(s, e);
    ApplyKeepsWake(s, e);
  }

  lemma InitInv(rtt: real)
    ensures Inv(Init(rtt))
  {
    InitAccount(rtt);
  }

  lemma InitAccount(rtt: real)
    ensures AccountInv(Init(rtt))
  {
    assert Outstanding(Init(rtt)) == {};
  }

  lemma {:induction false} RunKeepsInv(rtt: real, events: seq<Event>)
    ensures Inv(Run(Init(rtt), events))
  {
    if events == [] {
      InitInv(rtt);
    } else {
      RunKeepsInv(rtt, events[..|events| - 1]);
      ApplyKeepsInv(Run(Init(rtt), events[..|events| - 1]), events[|events| - 1]);
    }
  }

  lemma {:induction false} RunKeepsGaveUp(rtt: real, events: seq<Event>)
    ensures GaveUpInv(Run(Init(rtt), events))
  {
    if events != [] {
      var init := events[..|events| - 1];
      RunKeepsGaveUp(rtt, init);
      RunKeepsInv(rtt, init);
      ApplyKeepsGaveUp(Run(Init(rtt), init), events[|events| - 1]);
    }
  }

  /** An envelope is given up only after its fifth transmission or a resend that the outlet refused:
      in every run a given-up handle was transmitted five times, unless a resend of it failed
      before. */
  lemma GivenUpAfterFive(rtt: real, events: seq<Event>, h: nat)
    requires h in Run(Init(rtt), events).gaveUp
    ensures var s := Run(Init(rtt), events);
            Transmissions(s.wire, h) <= 5 && (Transmissions(s.wire, h) == 5 <==> h !in s.failed)
  {
    RunKeepsGaveUp(rtt, events);
  }

  /** A timeout of an outstanding envelope: with fewer than five tries and an outlet that resends, it
      stays in its place with one try more; otherwise it leaves the ring and the waiters are
      released.  Either way the window closes by one step. */
  lemma TimeoutLaw(k: Core, i: nat, resendOk: bool)
    requires i < |k.ring| && Find(k.ring, k.ring[i].handle) == i
    ensures var u, e := HandleTimeout(k, k.ring[i].handle, resendOk), k.ring[i];
            && (e.tries < 5 && resendOk ==>
                  && |u.ring| == |k.ring| && u.ring[i] == e.(tries := e.tries + 1)
                  && (forall j :: 0 <= j < |k.ring| && j != i ==> u.ring[j] == k.ring[j])
                  && u.generation == k.generation)
            && (e.tries >= 5 || !resendOk ==> u.ring == k.ring[..i] + k.ring[i + 1..] && u.generation > k.generation)
            && u.win == AdaptiveWindow.OnTimeout(k.win) && u.nextSequence == k.nextSequence
  {
  }

  /** In every run, a timeout that resends adds exactly one transmission, of that envelope. */
  lemma ResendTransmits(rtt: real, events: seq<Event>, i: nat)
    requires i < |Run(Init(rtt), events).core.ring| && Run(Init(rtt), events).core.ring[i].tries < 5
    ensures var s := Run(Init(rtt), events);
            var h := s.core.ring[i].handle;
            var u := Apply(s, TimeoutFires(h, true));
            && Transmissions(u.wire, h) == Transmissions(s.wire, h) + 1 && |u.wire| == |s.wire| + 1
            && Packed(u.wire[|s.wire|].raw) == Pack(s.core.ring[i].sequence, s.core.ring[i].message)
            && u.gaveUp == s.gaveUp
  {
    RunKeepsInv(rtt, events);
    var s := Run(Init(rtt), events);
    FoundByHandle(s, i);
    var e := s.core.ring[i];
    assert Numbered(s.sends, e);
    SnocTransmissions(s.wire, Transmission(e.handle, Pack(e.sequence, e.message).raw));
  }

  lemma FoundByHandle(s: State, i: nat)
    requires AccountInv(s) && i < |s.core.ring|
    ensures Find(s.core.ring, s.core.ring[i].handle) == i
  {
  }

  /** A delivery proof removes exactly its envelope, opens the window and releases the waiters. */
  lemma DeliveryLaw(k: Core, i: nat, rtt: real)
    requires i < |k.ring| && Find(k.ring, k.ring[i].handle) == i
    ensures var u := HandleDelivered(k, k.ring[i].handle, rtt);
            && u.ring == k.ring[..i] + k.ring[i + 1..] && u.generation > k.generation
            && u.win == AdaptiveWindow.OnDelivered(k.win, rtt) && u.nextSequence == k.nextSequence
  {
  }

  /** Who waits: `WaitReady` returns at once exactly if the outlet is up and the window has room,
      `WaitTxIdle` exactly if nothing is outstanding.  Anyone else blocks on the generation that was
      current before the test. */
  lemma WaitLaw(s: State, i: nat, up: bool)
    ensures i !in s.waiters ==>
              && Apply(s, WaitCapture(i)) == s.(waiters := s.waiters[i := Captured(s.core.generation)])
              && (i !in Apply(s, WaitIdle(i)).waiters <==> |s.core.ring| == 0)
              && (|s.core.ring| > 0 ==> Apply(s, WaitIdle(i)).waiters[i] == BlockedIdle(s.core.generation))
    ensures i in s.waiters && s.waiters[i].Captured? ==>
              var w := Apply(s, WaitCheck(i, up)).waiters;
              && (i !in w <==> up && |s.core.ring| < s.core.win.size)
              && (i in w ==> w[i] == BlockedReady(s.waiters[i].generation, !up))
    ensures i !in Apply(s, WaitLeave(i)).waiters
  {
  }

  /** Closing drops whatever is outstanding and changes nothing else but the generation. */
  lemma CloseLaw(s: State)
    ensures var u := Apply(s, Close);
            && u.core.ring == [] && u.core.generation > s.core.generation
            && u.core.win == s.core.win && u.core.nextSequence == s.core.nextSequence
            && (forall h :: h in u.dropped <==>
                  h in s.dropped || exists i :: 0 <= i < |s.core.ring| && s.core.ring[i].handle == h)
            && u.delivered == s.delivered && u.gaveUp == s.gaveUp && u.wire == s.wire && u.sends == s.sends
  {
  }

  /** A delivery, a give-up, a close or a dead outlet releases everyone who is waiting. */
  predicate Releases(s: State, e: Event) {
    || e.NotifyClosed? || e.Close?
    || (e.DeliveryProved? && Find(s.core.ring, e.handle) < |s.core.ring|)
    || (e.TimeoutFires? && TimeoutOutcomeOf(s.core, e.handle, e.resendOk) == GaveUp)
  }

  lemma EveryoneReleased(rtt: real, events: seq<Event>, e: Event)
    requires Releases(Run(Init(rtt), events), e)
    ensures var u := Apply(Run(Init(rtt), events), e);
            forall i :: i in u.waiters ==> u.waiters[i].generation < u.core.generation
  {
    RunKeepsInv(rtt, events);
    var s := Run(Init(rtt), events);
    assert Apply(s, e).waiters == s.waiters;
    forall i | i in s.waiters
      ensures s.waiters[i].generation <= s.core.generation
    {
      assert WaiterOk(s.core, s.waiters[i]);
    }
  }

  /** At every quiescent state the next sequence is the number of successful sends mod 65536, so
      a failed outlet send leaves no hole; every successful send is exactly one of outstanding,
      delivered, given up or dropped; at most 48 are outstanding; none was transmitted more than
      five times. */
  lemma SenderAccounting(rtt: real, events: seq<Event>)
    requires Run(Init(rtt), events).pc == Idle
    ensures var s := Run(Init(rtt), events);
            && s.core.nextSequence == |s.sends| % SEQ_MODULUS
            && Partition(Handles(s.core.ring), s.delivered, s.gaveUp, s.dropped, |s.sends|)
            && |s.core.ring| <= 48
            && forall h :: Transmissions(s.wire, h) <= 5
  {
    RunKeepsInv(rtt, events);
  }

  /** The check that the reserved sequence is still current never fails, because sendMu
      serialises every writer of the counter. */
  lemma ReservationHolds(rtt: real, events: seq<Event>)
    requires Run(Init(rtt), events).pc.Reserved?
    ensures Apply(Run(Init(rtt), events), SendCommit).pc.Committed?
  {
    RunKeepsInv(rtt, events);
  }

  /** No lost wakeup: a waiter blocked on a generation that has not been closed, which saw the
      outlet up, is blocked for a reason that still holds. */
  lemma NoLostWakeup(rtt: real, events: seq<Event>, i: nat)
    requires i in Run(Init(rtt), events).waiters
    ensures var s := Run(Init(rtt), events);
            var w := s.waiters[i];
            && (w.BlockedReady? && !w.sawDown && w.generation == s.core.generation ==> |s.core.ring| >= s.core.win.size)
            && (w.BlockedIdle? && w.generation == s.core.generation ==> s.core.ring != [])
  {
    RunKeepsInv(rtt, events);
  }
}
