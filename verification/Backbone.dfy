/** The transmit path of `pkg/backbone/hub.go`: a byte queue filled by any number of senders,
    drained by one event loop through partial socket writes, with write interest armed and
    disarmed at the poller; and the peer that decodes what arrives. */
module Backbone {
  import opened Bytes
  import opened Hdlc

  const MAX_STREAM_QUEUE_BYTES := 0x80_0000  // 8 << 20

  /** The fields of a stream that its mutex protects. */
  datatype Core = Core(txBuf: seq<octet>, wantOut: bool)

  // ---------------------------------------------------------------- critical sections

  datatype Queued = Overflow(core: Core) | Accepted(core: Core, needOut: bool)

  function QueueLocked(k: Core, payload: seq<octet>): Queued {
    var buf := k.txBuf + Frame(payload);
    if |buf| > MAX_STREAM_QUEUE_BYTES then Overflow(k.(txBuf := buf))
    else Accepted(Core(buf, true), !k.wantOut)
  }

  /** The queue is handed to the event loop; write interest goes off when it is empty. */
  function TakeLocked(k: Core): Core {
    Core([], k.wantOut && k.txBuf != [])
  }

  /** The unwritten tail goes back in front of whatever was queued meanwhile. */
  function Requeue(k: Core, buf: seq<octet>, written: nat): Core
    requires written <= |buf|
  {
    var rest := buf[written..] + k.txBuf;
    if rest == [] then Core([], false) else Core(rest, k.wantOut)
  }

  class Stream {
    var txBuf: seq<octet>
    var wantOut: bool

    ghost function State(): Core
      reads this
    {
      Core(txBuf, wantOut)
    }

    constructor ()
      ensures State() == Core([], false)
    {
      txBuf, wantOut := [], false;
    }

    /** The locked part of `QueueSend`.  `overflow` tells the caller to close the stream,
        `needOut` to arm write interest. */
    method QueueSend(payload: seq<octet>) returns (overflow: bool, needOut: bool)
      modifies this
      ensures State() == QueueLocked(old(State()), payload).core
      ensures overflow == QueueLocked(old(State()), payload).Overflow?
      ensures !overflow ==> needOut == QueueLocked(old(State()), payload).needOut
      ensures txBuf == old(txBuf) + Frame(payload) && (overflow <==> |txBuf| > 8388608)
      ensures !overflow ==> wantOut && needOut == !old(wantOut)
    {
      txBuf := AppendFrame(txBuf, payload);
      if |txBuf| > MAX_STREAM_QUEUE_BYTES {
        return true, false;
      }
      needOut := !wantOut && |txBuf| > 0;
      if needOut {
        wantOut := true;
      }
      overflow := false;
    }

    /** First locked part of `writeStream`: take the queue, or disarm when it is empty. */
    method WriteTake() returns (buf: seq<octet>, disarm: bool)
      modifies this
      ensures State() == TakeLocked(old(State()))
      ensures buf == old(txBuf) && disarm == (buf == [])
    {
      if |txBuf| == 0 {
        wantOut := false;
        return [], true;
      }
      buf, disarm := txBuf, false;
      txBuf := [];
    }

    /** Second locked part of `writeStream`, after the socket took `n` bytes of `buf`. */
    method WriteReturn(buf: seq<octet>, n: int, failed: bool) returns (disarm: bool)
      requires n <= |buf| && buf != []
      modifies this
      ensures State() == Requeue(old(State()), buf, if n < 0 then 0 else n)
      ensures disarm == (txBuf == [])
    {
      var written := n;
      if written < 0 { written := 0; }
      if failed && written == 0 {
        txBuf := buf + txBuf;
        return false;
      }
      if written < |buf| {
        txBuf := buf[written..] + txBuf;
      }
      if |txBuf| == 0 {
        wantOut := false;
        return true;
      }
      disarm := false;
    }
  }

  /** A send always queues its frame; it overflows exactly when the queue is then over 8 MiB, and
      otherwise asks for write interest exactly if no one has. */
  lemma QueueLaw(k: Core, payload: seq<octet>)
    ensures var r := QueueLocked(k, payload);
            && r.core.txBuf == k.txBuf + Frame(payload)
            && (r.Overflow? <==> |k.txBuf| + |Frame(payload)| > 8388608)
            && (r.Overflow? ==> r.core.wantOut == k.wantOut)
            && (r.Accepted? ==> r.core.wantOut && r.needOut == !k.wantOut)
  {
  }

  // ---------------------------------------------------------------- interleaved system

  /** Where a `QueueSend` call is between its atomic parts. */
  datatype Sender = Entered(payload: seq<octet>) | Arming | Closing

  datatype Loop = Polling | Writing(buf: seq<octet>, written: nat)

  datatype State = State(
    goMode: bool,
    core: Core,
    armed: bool,
    closed: bool,
    loop: Loop,
    senders: map<nat, Sender>,
    queued: seq<seq<octet>>,   // payloads framed into the queue, in order
    wire: seq<octet>,          // bytes the socket accepted
    read: nat,                // how many of them the peer has read
    peer: Decoder)

  datatype Event =
    | Enter(t: nat, payload: seq<octet>)        // passes the closed check of QueueSend
    | Append(t: nat, taken: nat)               // its locked section; `taken` is used in go mode
    | Arm(t: nat)
    | CloseBySender(t: nat)
    | Close
    | WriteEvent                               // the poller reports writable, possibly late
    | SocketTakes(n: nat)
    | WriteReturns                             // with or without an error
    | PeerReads(n: nat)

  function Min(a: nat, b: nat): nat { if a < b then a else b }

  function Init(goMode: bool): State {
    State(goMode, Core([], false), false, false, Polling, map[], [], [], 0, IDLE)
  }

  function AppendStep(s: State, t: nat, payload: seq<octet>, taken: nat): State {
    var r := QueueLocked(s.core, payload);
    var s' := s.(queued := s.queued + [payload]);
    if r.Overflow? then s'.(core := r.core, senders := s.senders[t := Closing])
    else if s.goMode then
      var buf := r.core.txBuf;
      var n := Min(taken, |buf|);
      s'.(core := Core(buf[n..], s.core.wantOut), wire := s.wire + buf[..n], senders := s.senders - {t})
    else s'.(core := r.core, senders := if r.needOut then s.senders[t := Arming] else s.senders - {t})
  }

  function TakeStep(s: State): State {
    var s' := s.(core := TakeLocked(s.core));
    if s.core.txBuf == [] then s'.(armed := false) else s'.(loop := Writing(s.core.txBuf, 0))
  }

  function SocketStep(s: State, n: nat): State
    requires s.loop.Writing? && s.loop.written + n <= |s.loop.buf|
  {
    var w := s.loop.written + n;
    s.(loop := Writing(s.loop.buf, w), wire := s.wire + s.loop.buf[s.loop.written..w])
  }

  function ReturnStep(s: State): State
    requires s.loop.Writing? && s.loop.written <= |s.loop.buf|
  {
    var k := Requeue(s.core, s.loop.buf, s.loop.written);
    s.(core := k, armed := s.armed && k.txBuf != [], loop := Polling)
  }

  /** One atomic event.  An event that is not enabled leaves the state as it is. */
  function Apply(c: Config, s: State, e: Event): State {
    match e
    case Enter(t, payload) =>
      if s.closed || t in s.senders then s else s.(senders := s.senders[t := Entered(payload)])
    case Append(t, taken) =>
      if t in s.senders && s.senders[t].Entered? then AppendStep(s, t, s.senders[t].payload, taken) else s
    case Arm(t) =>
      if t in s.senders && s.senders[t] == Arming
      then s.(armed := !s.closed, senders := s.senders - {t}) else s
    case CloseBySender(t) =>
      if t in s.senders && s.senders[t] == Closing
      then s.(closed := true, armed := false, senders := s.senders - {t}) else s
    case Close => s.(closed := true, armed := false)
    case WriteEvent =>
      if !s.goMode && s.loop.Polling? then TakeStep(s) else s
    case SocketTakes(n) =>
      if s.loop.Writing? && s.loop.written + n <= |s.loop.buf| then SocketStep(s, n) else s
    case WriteReturns =>
      if s.loop.Writing? && s.loop.written <= |s.loop.buf| then ReturnStep(s) else s
    case PeerReads(n) =>
      if s.read + n <= |s.wire|
      then s.(read := s.read + n, peer := FeedAll(c, s.peer, s.wire[s.read..s.read + n])) else s
  }

  function Run(c: Config, s: State, events: seq<Event>): State {
    if events == [] then s
    else Apply(c, Run(c, s, events[..|events| - 1]), events[|events| - 1])
  }

  // ---------------------------------------------------------------- conservation

  /** Bytes taken by the event loop and not yet accepted by the socket. */
  function InFlight(s: State): seq<octet> {
    if s.loop.Writing? && s.loop.written <= |s.loop.buf| then s.loop.buf[s.loop.written..] else []
  }

  ghost predicate LoopOk(s: State) {
    s.loop.Writing? ==> !s.goMode && s.loop.buf != [] && s.loop.written <= |s.loop.buf|
  }

  ghost predicate Accounted(s: State) {
    s.wire + (InFlight(s) + s.core.txBuf) == FrameAll(s.queued)
  }

  ghost predicate PeerInStep(c: Config, s: State) {
    s.read <= |s.wire| && s.peer == FeedAll(c, IDLE, s.wire[..s.read])
  }

  ghost predicate Conserved(c: Config, s: State) {
    LoopOk(s) && Accounted(s) && PeerInStep(c, s)
  }

  /** Framing one more payload onto the queue extends the whole byte stream by its frame. */
  lemma FrameAllSnoc(ps: seq<seq<octet>>, p: seq<octet>, wire: seq<octet>, flight: seq<octet>, buf: seq<octet>)
    requires wire + (flight + buf) == FrameAll(ps)
    ensures wire + (flight + (buf + Frame(p))) == FrameAll(ps + [p])
  {
    var f := Frame(p);
    assert (ps + [p])[..|ps + [p]| - 1] == ps;
    assert wire + (flight + (buf + f)) == wire + (flight + buf) + f;
  }

  lemma MoveToWire(wire: seq<octet>, buf: seq<octet>, n: nat)
    requires n <= |buf|
    ensures wire + buf[..n] + ([] + buf[n..]) == wire + ([] + buf)
  {
  }

  lemma AppendAccounted(s: State, t: nat, payload: seq<octet>, taken: nat)
    requires LoopOk(s) && Accounted(s)
    ensures Accounted(AppendStep(s, t, payload, taken))
  {
    FrameAllSnoc(s.queued, payload, s.wire, InFlight(s), s.core.txBuf);
    var buf := QueueLocked(s.core, payload).core.txBuf;
    if s.goMode {
      MoveToWire(s.wire, buf, Min(taken, |buf|));
    }
  }

  lemma MoveFromLoop(wire: seq<octet>, b: seq<octet>, w: nat, n: nat, rest: seq<octet>)
    requires w + n <= |b|
    ensures wire + b[w..w + n] + (b[w + n..] + rest) == wire + (b[w..] + rest)
  {
  }

  lemma {:induction false} SocketAccounted(s: State, n: nat)
    requires Accounted(s) && s.loop.Writing? && s.loop.written + n <= |s.loop.buf|
    ensures Accounted(SocketStep(s, n))
  {
    MoveFromLoop(s.wire, s.loop.buf, s.loop.written, n, s.core.txBuf);
  }

  /** Handing bytes between queue and loop moves none of them. */
  lemma TakeAccounted(s: State)
    requires Accounted(s) && s.loop.Polling?
    ensures Accounted(TakeStep(s))
  {
    assert InFlight(TakeStep(s)) + TakeStep(s).core.txBuf == InFlight(s) + s.core.txBuf;
  }

  lemma ReturnAccounted(s: State)
    requires Accounted(s) && s.loop.Writing? && s.loop.written <= |s.loop.buf|
    ensures Accounted(ReturnStep(s))
  {
    assert InFlight(ReturnStep(s)) + ReturnStep(s).core.txBuf == InFlight(s) + s.core.txBuf;
  }

  lemma ApplyAccounted(c: Config, s: State, e: Event)
    requires LoopOk(s) && Accounted(s)
    ensures Accounted(Apply(c, s, e))
  {
    match e
    case Append(t, taken) =>
      if t in s.senders && s.senders[t].Entered? { AppendAccounted(s, t, s.senders[t].payload, taken); }
    case SocketTakes(n) =>
      if s.loop.Writing? && s.loop.written + n <= |s.loop.buf| { SocketAccounted(s, n); }
    case WriteEvent => if !s.goMode && s.loop.Polling? { TakeAccounted(s); }
    case WriteReturns => if s.loop.Writing? { ReturnAccounted(s); }
    case _ =>
  }

  lemma WireGrows(c: Config, s: State, e: Event)
    requires !e.PeerReads?
    ensures var s' := Apply(c, s, e); s.wire <= s'.wire && s'.read == s.read && s'.peer == s.peer
  {
  }

  lemma ReadChunk(c: Config, wire: seq<octet>, read: nat, n: nat)
    requires read + n <= |wire|
    ensures FeedAll(c, FeedAll(c, IDLE, wire[..read]), wire[read..read + n]) == FeedAll(c, IDLE, wire[..read + n])
  {
    FeedAppend(c, IDLE, wire[..read], wire[read..read + n]);
    assert wire[..read] + wire[read..read + n] == wire[..read + n];
  }

  lemma SamePrefix(a: seq<octet>, b: seq<octet>, n: nat)
    requires a <= b && n <= |a|
    ensures a[..n] == b[..n]
  {
  }

  lemma ApplyPeer(c: Config, s: State, e: Event)
    requires PeerInStep(c, s)
    ensures PeerInStep(c, Apply(c, s, e))
  {
    if e.PeerReads? {
      if s.read + e.n <= |s.wire| { ReadChunk(c, s.wire, s.read, e.n); }
    } else {
      WireGrows(c, s, e);
      SamePrefix(s.wire, Apply(c, s, e).wire, s.read);
    }
  }

  lemma ApplyLoop(c: Config, s: State, e: Event)
    requires LoopOk(s)
    ensures LoopOk(Apply(c, s, e))
  {
  }

  lemma ApplyConserves(c: Config, s: State, e: Event)
    requires Conserved(c, s)
    ensures Conserved(c, Apply(c, s, e))
  {
    ApplyLoop(c, s, e);
    ApplyAccounted(c, s, e);
    ApplyPeer(c, s, e);
  }

  lemma {:induction false} RunConserves(c: Config, goMode: bool, events: seq<Event>)
    ensures Conserved(c, Run(c, Init(goMode), events))
  {
    if events != [] {
      RunConserves(c, goMode, events[..|events| - 1]);
      ApplyConserves(c, Run(c, Init(goMode), events[..|events| - 1]), events[|events| - 1]);
    }
  }

  /** No byte is lost, repeated or reordered between the queue and the wire, in any run. */
  lemma ByteConservation(c: Config, goMode: bool, events: seq<Event>)
    ensures var s := Run(c, Init(goMode), events);
            s.wire + (InFlight(s) + s.core.txBuf) == FrameAll(s.queued)
  {
    RunConserves(c, goMode, events);
  }

  // ---------------------------------------------------------------- end to end

  /** In every run the peer has been handed a prefix of what the queued payloads decode to, and
      all of it once every byte has been read. */
  lemma EndToEndExact(c: Config, goMode: bool, events: seq<Event>)
    ensures var s := Run(c, Init(goMode), events);
            var expected := Emitted(c, FittingPrefix(c, s.queued));
            && s.peer.packets <= expected
            && (s.read == |s.wire| && InFlight(s) + s.core.txBuf == [] ==> s.peer.packets == expected)
  {
    RunConserves(c, goMode, events);
    var s := Run(c, Init(goMode), events);
    var all := FrameAll(s.queued);
    assert all[..s.read] == s.wire[..s.read];
    assert all == all[..s.read] + all[s.read..];
    FeedAppend(c, IDLE, all[..s.read], all[s.read..]);
    FeedKeepsValid(c, IDLE, all[..s.read]);
    FeedKeepsValid(c, s.peer, all[s.read..]);
    DecodeStream(c, s.queued);
    if s.read == |s.wire| && InFlight(s) + s.core.txBuf == [] {
      assert |all| == |s.wire| + |InFlight(s) + s.core.txBuf|;
      assert all[s.read..] == [];
    }
  }

  /** For payloads of 20 bytes up to the MTU: what the peer receives is an in-order prefix of
      what was queued. */
  lemma EndToEnd(c: Config, goMode: bool, events: seq<Event>)
    requires Deliverable(c, Run(c, Init(goMode), events).queued)
    ensures Run(c, Init(goMode), events).peer.packets <= Run(c, Init(goMode), events).queued
  {
    EndToEndExact(c, goMode, events);
    var ps := Run(c, Init(goMode), events).queued;
    FittingPrefixWhole(c, ps);
    EmittedWhole(c, ps);
  }

  // ---------------------------------------------------------------- write interest

  ghost predicate Someone(s: State, at: Sender) {
    exists t :: t in s.senders && s.senders[t] == at
  }

  predicate BytesRemain(s: State) {
    s.core.txBuf != [] || s.loop.Writing?
  }

  ghost predicate Interest(s: State) {
    && (s.loop.Writing? ==> s.loop.buf != [] && s.loop.written <= |s.loop.buf|)
    && (BytesRemain(s) ==> s.core.wantOut || s.closed || Someone(s, Closing))
    && (s.core.wantOut && !s.closed ==> s.armed || Someone(s, Arming))
  }

  lemma SomeoneStays(s: State, s': State, at: Sender, t: nat)
    requires s'.senders == s.senders - {t} || (t in s'.senders && s'.senders - {t} == s.senders - {t})
    requires Someone(s, at) && (t in s.senders ==> s.senders[t] != at)
    ensures Someone(s', at)
  {
    var u :| u in s.senders && s.senders[u] == at;
    assert u in s.senders - {t};
    assert u in s'.senders && s'.senders[u] == at;
  }

  lemma AppendKeepsInterest(s: State, t: nat, taken: nat)
    requires Interest(s) && !s.goMode && t in s.senders && s.senders[t].Entered?
    ensures Interest(AppendStep(s, t, s.senders[t].payload, taken))
  {
    var s' := AppendStep(s, t, s.senders[t].payload, taken);
    var r := QueueLocked(s.core, s.senders[t].payload);
    if Someone(s, Arming) { SomeoneStays(s, s', Arming, t); }
    if Someone(s, Closing) { SomeoneStays(s, s', Closing, t); }
    if r.Overflow? {
      assert s'.senders[t] == Closing;
    } else if r.needOut {
      assert s'.senders[t] == Arming;
    }
  }

  lemma ApplyKeepsInterest(c: Config, s: State, e: Event)
    requires Interest(s) && !s.goMode
    ensures Interest(Apply(c, s, e)) && !Apply(c, s, e).goMode
  {
    var s' := Apply(c, s, e);
    match e
    case Append(t, taken) =>
      if t in s.senders && s.senders[t].Entered? { AppendKeepsInterest(s, t, taken); }
    case Enter(t, payload) =>
      if t !in s.senders && !s.closed {
        if Someone(s, Arming) { SomeoneStays(s, s', Arming, t); }
        if Someone(s, Closing) { SomeoneStays(s, s', Closing, t); }
      }
    case Arm(t) =>
      if t in s.senders && s.senders[t] == Arming && Someone(s, Closing) {
        SomeoneStays(s, s', Closing, t);
      }
    case _ =>
  }

  lemma {:induction false} RunKeepsInterest(c: Config, events: seq<Event>)
    ensures Interest(Run(c, Init(false), events)) && !Run(c, Init(false), events).goMode
  {
    if events != [] {
      RunKeepsInterest(c, events[..|events| - 1]);
      ApplyKeepsInterest(c, Run(c, Init(false), events[..|events| - 1]), events[|events| - 1]);
    }
  }

  /** A disarm never overtakes a newer arm: on an open stream that wants to write, write interest is
      armed or the sender that set the flag is about to arm it. */
  lemma WantedIsArmed(c: Config, events: seq<Event>)
    ensures var s := Run(c, Init(false), events);
            !s.closed && s.core.wantOut ==> s.armed || Someone(s, Arming)
  {
    RunKeepsInterest(c, events);
  }

  /** An event that turns write interest off on an open stream leaves no byte behind, and the next
      payload will arm again. */
  lemma DisarmOnlyWhenDrained(c: Config, events: seq<Event>, e: Event)
    ensures var s := Run(c, Init(false), events);
            var s' := Apply(c, s, e);
            s.armed && !s'.armed && !s'.closed ==> !BytesRemain(s') && !s'.core.wantOut
  {
    RunKeepsInterest(c, events);
  }

  /** In every reachable state of an open stream with bytes left, write interest is armed, or a
      sender is about to arm it, or a sender that overflowed the queue is about to close. */
  lemma NoStrandedBytes(c: Config, events: seq<Event>)
    ensures var s := Run(c, Init(false), events);
            !s.closed && BytesRemain(s) ==> s.armed || Someone(s, Arming) || Someone(s, Closing)
  {
    RunKeepsInterest(c, events);
  }

  // ---------------------------------------------------------------- without the closing sender

  ghost predicate FramesFit(payloads: seq<seq<octet>>, n: nat) {
    forall i :: 0 <= i < |payloads| ==> |Frame(payloads[i])| <= n
  }

  /** Bytes left on an open stream, and no one who will see to them. */
  ghost predicate Stranded(s: State) {
    !s.closed && BytesRemain(s) && !s.armed && !Someone(s, Arming)
  }

  /** As long as every frame fits the queue, the flag is set whenever bytes are left: while it is
      not set the queue is empty, so only a frame that is too long by itself can overflow it. */
  ghost predicate Wanted(s: State) {
    FramesFit(s.queued, MAX_STREAM_QUEUE_BYTES) && BytesRemain(s) ==> s.core.wantOut
  }

  lemma AppendKeepsWanted(s: State, t: nat, taken: nat)
    requires Wanted(s) && !s.goMode && t in s.senders && s.senders[t].Entered?
    ensures Wanted(AppendStep(s, t, s.senders[t].payload, taken))
  {
    var p := s.senders[t].payload;
    var s' := AppendStep(s, t, p, taken);
    assert s'.queued == s.queued + [p];
    if FramesFit(s'.queued, MAX_STREAM_QUEUE_BYTES) {
      assert forall i :: 0 <= i < |s.queued| ==> s'.queued[i] == s.queued[i];
      assert s'.queued[|s.queued|] == p;
      if s.core.txBuf == [] { assert s.core.txBuf + Frame(p) == Frame(p); }
    }
  }

  lemma ApplyKeepsWanted(c: Config, s: State, e: Event)
    requires Wanted(s) && LoopOk(s) && !s.goMode
    ensures Wanted(Apply(c, s, e))
  {
    match e
    case Append(t, taken) =>
      if t in s.senders && s.senders[t].Entered? { AppendKeepsWanted(s, t, taken); }
    case _ =>
  }

  lemma {:induction false} RunKeepsWanted(c: Config, events: seq<Event>)
    ensures Wanted(Run(c, Init(false), events))
  {
    if events != [] {
      var init := events[..|events| - 1];
      RunKeepsWanted(c, init);
      RunKeepsInterest(c, init);
      RunConserves(c, false, init);
      ApplyKeepsWanted(c, Run(c, Init(false), init), events[|events| - 1]);
    }
  }

  /** With frames of at most 8 MiB no byte is ever stranded. */
  lemma FittingNeverStrands(c: Config, events: seq<Event>)
    ensures var s := Run(c, Init(false), events);
            FramesFit(s.queued, MAX_STREAM_QUEUE_BYTES) ==> !Stranded(s)
  {
    RunKeepsWanted(c, events);
    RunKeepsInterest(c, events);
  }

  function OneSend(p: seq<octet>): seq<Event> { [Enter(0, p), Append(0, 0)] }

  lemma OneSendRun(c: Config, goMode: bool, p: seq<octet>)
    ensures Run(c, Init(goMode), OneSend(p))
            == AppendStep(Init(goMode).(senders := map[0 := Entered(p)]), 0, p, 0)
  {
    var one := [Enter(0, p)];
    assert OneSend(p)[..1] == one && one[..0] == [];
    assert Run(c, Init(goMode), one) == Apply(c, Init(goMode), Enter(0, p));
  }

  /** One frame that is too long by itself is stranded, until the sender that queued it closes the
      stream. */
  lemma OverlongStrands(c: Config, p: seq<octet>)
    requires |Frame(p)| > MAX_STREAM_QUEUE_BYTES
    ensures var s := Run(c, Init(false), OneSend(p)); s.queued == [p] && Stranded(s)
  {
    OneSendRun(c, false, p);
    assert [] + Frame(p) == Frame(p);
    assert [] + [p] == [p];
  }

  /** No run whose frames are at most `n` bytes strands a byte. */
  ghost predicate NeverStrandsUpTo(c: Config, n: nat) {
    forall events :: FramesFit(Run(c, Init(false), events).queued, n) ==> !Stranded(Run(c, Init(false), events))
  }

  lemma {:induction false} EscapePlain(data: seq<octet>)
    requires Plain(data)
    ensures Escape(data) == data
  {
    if data != [] {
      EscapePlain(data[..|data| - 1]);
      assert data == data[..|data| - 1] + [data[|data| - 1]];
    }
  }

  lemma NeverStrandsIfFits(c: Config, n: nat)
    requires n <= MAX_STREAM_QUEUE_BYTES
    ensures NeverStrandsUpTo(c, n)
  {
    forall events | FramesFit(Run(c, Init(false), events).queued, n)
      ensures !Stranded(Run(c, Init(false), events))
    {
      FittingNeverStrands(c, events);
    }
  }

  lemma StrandsIfLonger(c: Config, n: nat)
    requires n > MAX_STREAM_QUEUE_BYTES
    ensures !NeverStrandsUpTo(c, n)
  {
    var p: seq<octet> := seq(MAX_STREAM_QUEUE_BYTES - 1, i => 0);
    EscapePlain(p);
    OverlongStrands(c, p);
    assert FramesFit(Run(c, Init(false), OneSend(p)).queued, n);
  }

  /** Bytes are never stranded exactly as long as no frame is longer than the queue may be. */
  lemma NeverStrandsIff(c: Config, n: nat)
    ensures NeverStrandsUpTo(c, n) <==> n <= MAX_STREAM_QUEUE_BYTES
  {
    if n <= MAX_STREAM_QUEUE_BYTES { NeverStrandsIfFits(c, n); } else { StrandsIfLonger(c, n); }
  }

  // ---------------------------------------------------------------- goroutine mode

  /** Without a poller, a send that does not overflow leaves the queue empty exactly when the socket
      takes all of it. */
  lemma GoModeDrainsIff(s: State, t: nat, payload: seq<octet>, taken: nat)
    requires s.goMode && !QueueLocked(s.core, payload).Overflow?
    ensures AppendStep(s, t, payload, taken).core.txBuf == []
            <==> taken >= |s.core.txBuf| + |Frame(payload)|
  {
    var buf := s.core.txBuf + Frame(payload);
    assert |buf[Min(taken, |buf|)..]| == |buf| - Min(taken, |buf|);
  }

  ghost predicate NoSend(events: seq<Event>) {
    forall i :: 0 <= i < |events| ==> !events[i].Append?
  }

  /** What it leaves there stays there, in every continuation, until the next send. */
  lemma {:induction false} GoModeWaits(c: Config, events: seq<Event>, more: seq<Event>)
    requires NoSend(more)
    ensures var s, u := Run(c, Init(true), events), Run(c, Run(c, Init(true), events), more);
            u.core == s.core && u.wire == s.wire && u.goMode && LoopOk(u)
  {
    if more == [] {
      RunConserves(c, true, events);
      StaysGo(c, events);
    } else {
      GoModeWaits(c, events, more[..|more| - 1]);
      assert !more[|more| - 1].Append?;
    }
  }

  lemma {:induction false} StaysGo(c: Config, events: seq<Event>)
    ensures Run(c, Init(true), events).goMode
  {
    if events != [] { StaysGo(c, events[..|events| - 1]); }
  }

  /** A send whose write the socket refuses: the stream is open, bytes are left, and no one is about
      to write them. */
  lemma GoModeLeftover(c: Config, p: seq<octet>)
    requires |Frame(p)| <= MAX_STREAM_QUEUE_BYTES
    ensures var s := Run(c, Init(true), OneSend(p));
            s.core.txBuf == Frame(p) && !s.closed && s.senders == map[] && s.loop.Polling?
  {
    OneSendRun(c, true, p);
    assert [] + Frame(p) == Frame(p);
    assert Frame(p)[0..] == Frame(p);
  }

  // ---------------------------------------------------------------- after a close

  ghost predicate NoneEntered(s: State) {
    forall t :: t in s.senders ==> !s.senders[t].Entered?
  }

  lemma StaysClosed(c: Config, s: State, e: Event)
    requires s.closed && NoneEntered(s)
    ensures var u := Apply(c, s, e); u.closed && NoneEntered(u) && u.queued == s.queued && (s.armed || !u.armed)
  {
  }

  /** Once a stream is closed and the sends that had passed the test are done, nothing is queued and
      write interest is not armed again, in every continuation. */
  lemma {:induction false} ClosedIsFinal(c: Config, s: State, more: seq<Event>)
    requires s.closed && NoneEntered(s)
    ensures var u := Run(c, s, more); u.closed && NoneEntered(u) && u.queued == s.queued && (s.armed || !u.armed)
  {
    if more != [] {
      ClosedIsFinal(c, s, more[..|more| - 1]);
      StaysClosed(c, Run(c, s, more[..|more| - 1]), more[|more| - 1]);
    }
  }

  /** Both ways of closing take write interest away. */
  lemma CloseLaw(c: Config, s: State, t: nat)
    ensures var u := Apply(c, s, Close); u.closed && !u.armed
    ensures t in s.senders && s.senders[t] == Closing ==>
              var u := Apply(c, s, CloseBySender(t)); u.closed && !u.armed && t !in u.senders
  {
  }
}
