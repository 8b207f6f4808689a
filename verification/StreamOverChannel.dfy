/** Byte streams on the real channel, in one system: the writers and readers of `pkg/buffer/buffer.go`,
    any other users of the channel, and the channel of `pkg/channel/channel.go` over a lossy,
    duplicating, reordering network. */
module StreamOverChannel {
  import opened Wrappers
  import opened ReceiveRing
  import opened Bytes
  import opened Envelope
  import Sender
  import Receiver
  import EndToEnd
  import opened StreamBuffer

  const STREAM_DATA_MESSAGE_TYPE := 0xff00

  /** The channel message that carries one write. */
  function Carried(w: Written): Message {
    Message(STREAM_DATA_MESSAGE_TYPE, PackStream(w.msg))
  }

  // ---------------------------------------------------------------- what a list of messages brings

  /** What a reader for `id` takes from one channel message of any type. */
  function Contribution(c: Codec, m: Message, id: Seq16): seq<octet> {
    var u := UnpackStream(m.body);
    if m.msgType == STREAM_DATA_MESSAGE_TYPE && u.Stream? && Handles(id, u.msg) then Decoded(c, u.msg) else []
  }

  function Absorbed(c: Codec, ms: seq<Message>, id: Seq16): seq<octet> {
    if ms == [] then []
    else Absorbed(c, ms[..|ms| - 1], id) + Contribution(c, ms[|ms| - 1], id)
  }

  lemma AbsorbedSnoc(c: Codec, ms: seq<Message>, m: Message, id: Seq16)
    ensures Absorbed(c, ms + [m], id) == Absorbed(c, ms, id) + Contribution(c, m, id)
  {
    assert (ms + [m])[..|ms + [m]| - 1] == ms;
  }

  lemma {:induction false} AbsorbedPrefix(c: Codec, a: seq<Message>, b: seq<Message>, id: Seq16)
    requires a <= b
    ensures Absorbed(c, a, id) <= Absorbed(c, b, id)
    decreases |b|
  {
    if |a| == |b| {
      assert a == b;
    } else {
      assert a <= b[..|b| - 1];
      AbsorbedPrefix(c, a, b[..|b| - 1], id);
    }
  }

  /** Whatever is sent on the channel, the bytes a stream's reader has been given are a prefix of the
      bytes sent on that stream. */
  lemma ReaderSeesPrefix(c: Codec, rtt: real, events: seq<EndToEnd.Event>, id: Seq16)
    requires |EndToEnd.Run(EndToEnd.Init(rtt), events).tx.sends| < SEQ_MODULUS
    ensures var s := EndToEnd.Run(EndToEnd.Init(rtt), events);
            Absorbed(c, EndToEnd.Messages(s.rx.dispatched), id) <= Absorbed(c, s.tx.sends, id)
  {
    EndToEnd.DeliveredPrefix(rtt, events);
    var s := EndToEnd.Run(EndToEnd.Init(rtt), events);
    AbsorbedPrefix(c, EndToEnd.Messages(s.rx.dispatched), s.tx.sends, id);
  }

  // ---------------------------------------------------------------- the combined system

  /** Where a message comes from: a write, or some other user of the channel. */
  type Origin = Option<Written>

  datatype State = State(
    net: EndToEnd.State,
    closed: set<Seq16>,              // writers whose Close has been called
    current: Origin,                 // of the `Send` call in progress
    log: seq<Origin>,                // of every send the outlet accepted, in order
    readers: map<Seq16, Endpoint>)

  datatype Event =
    | Write(id: Seq16, compress: bool, data: seq<octet>, reportedMDU: int)
    | CloseWriter(id: Seq16, compress: bool, reportedMDU: int)
    | SendOther(message: Message)
    | Channel(event: EndToEnd.Event)   // everything the channel and the network do
    | Read(id: Seq16, n: nat)

  function Init(rtt: real, ids: set<Seq16>): State {
    State.State(EndToEnd.Init(rtt), {}, None, [], map id | id in ids :: FRESH)
  }

  /** A `Send` call enters the channel, if no other is in progress and the window has room. */
  function BeginSend(s: State, m: Message, origin: Origin): State {
    if s.net.tx.pc == Sender.Idle && Sender.HasRoom(s.net.tx.core)
    then s.(net := EndToEnd.Apply(s.net, EndToEnd.Sending(Sender.SendCheck(m, true))), current := origin) else s
  }

  function WriteStep(c: Codec, s: State, id: Seq16, compress: bool, q: seq<octet>, reported: int): State {
    var r := Compose(c, id, id in s.closed, compress, q, OutletMDU(reported));
    if r.processed > |q| then s
    else
      var w := Written(id, q[..r.processed], r.msg);
      BeginSend(s, Carried(w), Some(w))
  }

  /** A dispatched message reaches the reader of its stream. */
  function Fed(c: Codec, readers: map<Seq16, Endpoint>, m: Message): map<Seq16, Endpoint> {
    var u := UnpackStream(m.body);
    if m.msgType == STREAM_DATA_MESSAGE_TYPE && u.Stream? && u.msg.streamId in readers
    then readers[u.msg.streamId := DeliverTo(c, readers[u.msg.streamId], u.msg)] else readers
  }

  /** One event of the channel; an accepted send is logged, a dispatched message reaches a reader. */
  function ChannelStep(c: Codec, s: State, e: EndToEnd.Event): State {
    var net := EndToEnd.Apply(s.net, e);
    s.(net := net,
       log := if |net.tx.sends| > |s.net.tx.sends| then s.log + [s.current] else s.log,
       readers := if |net.rx.dispatched| > |s.net.rx.dispatched|
                  then Fed(c, s.readers, net.rx.dispatched[|net.rx.dispatched| - 1].message) else s.readers)
  }

  function Apply(c: Codec, s: State, e: Event): State {
    match e
    case Write(id, compress, data, reported) => WriteStep(c, s, id, compress, data, reported)
    case CloseWriter(id, compress, reported) =>
      WriteStep(c, s.(closed := s.closed + {id}), id, compress, [], reported)
    case SendOther(m) => if m.msgType == STREAM_DATA_MESSAGE_TYPE then s else BeginSend(s, m, None)
    case Channel(event) => if event.Sending? && event.txEvent.SendCheck? then s else ChannelStep(c, s, event)
    case Read(id, n) =>
      if id in s.readers then s.(readers := s.readers[id := ReadOnce(s.readers[id], n)]) else s
  }

  function Run(c: Codec, s: State, events: seq<Event>): State {
    if events == [] then s
    else Apply(c, Run(c, s, events[..|events| - 1]), events[|events| - 1])
  }

  // ---------------------------------------------------------------- what the channel does to the log

  /** `m` is what was sent for `origin`, and decodes to the bytes that write reports. */
  ghost predicate Sent(c: Codec, origin: Origin, m: Message) {
    match origin
    case None => m.msgType != STREAM_DATA_MESSAGE_TYPE
    case Some(w) => m == Carried(w) && w.msg.streamId == w.streamId && Decoded(c, w.msg) == w.bytes
  }

  ghost predicate CallOk(c: Codec, origin: Origin, pc: Sender.SendPc) {
    InCall(pc) ==> Sent(c, origin, pc.message)
  }

  /** An entry of writer `id` whose message says end of stream. */
  predicate Ends(o: Origin, id: Seq16) { o.Some? && o.value.streamId == id && o.value.msg.eof }

  /** An entry of writer `id` from before it was closed. */
  predicate Goes(o: Origin, id: Seq16) { o.Some? && o.value.streamId == id && !o.value.msg.eof }

  /** Only closed writers have sent end of stream, and what a writer sent before it was closed comes
      first. */
  ghost predicate EndsLast(closed: set<Seq16>, log: seq<Origin>) {
    && (forall i, id :: 0 <= i < |log| && Ends(log[i], id) ==> id in closed)
    && (forall i, j, id :: 0 <= i < |log| && 0 <= j < |log| && Ends(log[i], id) && Goes(log[j], id) ==> j < i)
  }

  predicate InCall(pc: Sender.SendPc) { pc.Checked? || pc.Reserved? || pc.Committed? }

  /** The call in progress keeps that order. */
  ghost predicate CallEnds(closed: set<Seq16>, log: seq<Origin>, current: Origin, pc: Sender.SendPc) {
    InCall(pc) ==>
      && (forall id :: Ends(current, id) ==> id in closed)
      && (forall i, id :: 0 <= i < |log| && Ends(log[i], id) ==> !Goes(current, id))
  }

  ghost predicate EndsOk(s: State) {
    EndsLast(s.closed, s.log) && CallEnds(s.closed, s.log, s.current, s.net.tx.pc)
  }

  ghost predicate LogOk(c: Codec, log: seq<Origin>, sends: seq<Message>) {
    |log| == |sends| && forall i :: 0 <= i < |log| ==> Sent(c, log[i], sends[i])
  }

  /** A sender step logs at most the message of the call in progress, and keeps that message. */
  lemma SenderStep(c: Codec, t: Sender.State, e: Sender.Event, origin: Origin)
    requires CallOk(c, origin, t.pc) && !e.SendCheck?
    ensures CallOk(c, origin, Sender.Apply(t, e).pc)
    ensures var sends := Sender.Apply(t, e).sends;
            sends == t.sends || (t.pc.Committed? && sends == t.sends + [t.pc.message])
  {
  }

  /** A call in progress stays the same call, and what is logged is its message. */
  lemma SenderCall(t: Sender.State, e: Sender.Event)
    requires !e.SendCheck?
    ensures InCall(Sender.Apply(t, e).pc) ==> InCall(t.pc)
    ensures |Sender.Apply(t, e).sends| > |t.sends| ==> InCall(t.pc) && !InCall(Sender.Apply(t, e).pc)
  {
  }

  lemma ChannelKeepsEnds(c: Codec, s: State, e: EndToEnd.Event)
    requires EndsOk(s) && !(e.Sending? && e.txEvent.SendCheck?)
    ensures EndsOk(ChannelStep(c, s, e))
  {
    if e.Sending? { SenderCall(s.net.tx, e.txEvent); }
    var s' := ChannelStep(c, s, e);
    if s'.log != s.log { LoggedEnds(s.closed, s.log, s.current); }
  }

  lemma LoggedEnds(closed: set<Seq16>, log: seq<Origin>, o: Origin)
    requires EndsLast(closed, log) && forall id :: Ends(o, id) ==> id in closed
    requires forall i, id :: 0 <= i < |log| && Ends(log[i], id) ==> !Goes(o, id)
    ensures EndsLast(closed, log + [o])
  {
    var l := log + [o];
    assert forall i :: 0 <= i < |log| ==> l[i] == log[i];
    assert l[|log|] == o;
  }

  /** Closing writers, and starting a call whose message says end of stream exactly when its writer is
      closed, keep the order. */
  lemma BeginKeepsEnds(s: State, m: Message, origin: Origin)
    requires EndsOk(s) && (origin.Some? ==> (origin.value.msg.eof <==> origin.value.streamId in s.closed))
    ensures EndsOk(BeginSend(s, m, origin))
  {
  }

  lemma CloseKeepsEnds(s: State, id: Seq16)
    requires EndsOk(s)
    ensures EndsOk(s.(closed := s.closed + {id}))
  {
  }

  lemma ReceiverStep(r: Receiver.State, e: Receiver.Event)
    ensures var seen := Receiver.Apply(r, e).dispatched;
            seen == r.dispatched || (|seen| == |r.dispatched| + 1 && seen[..|r.dispatched|] == r.dispatched)
  {
  }

  lemma ChannelKeepsLog(c: Codec, s: State, e: EndToEnd.Event)
    requires LogOk(c, s.log, s.net.tx.sends) && CallOk(c, s.current, s.net.tx.pc)
    requires !(e.Sending? && e.txEvent.SendCheck?)
    ensures var s' := ChannelStep(c, s, e);
            LogOk(c, s'.log, s'.net.tx.sends) && CallOk(c, s'.current, s'.net.tx.pc)
  {
    if e.Sending? { SenderStep(c, s.net.tx, e.txEvent, s.current); }
  }

  // ---------------------------------------------------------------- what the readers hold

  /** A stream message for `id` that says end of stream. */
  predicate SaysEnd(m: Message, id: Seq16) {
    var u := UnpackStream(m.body);
    m.msgType == STREAM_DATA_MESSAGE_TYPE && u.Stream? && Handles(id, u.msg) && u.msg.eof
  }

  predicate SeenEnd(seen: seq<Message>, id: Seq16) {
    exists i :: 0 <= i < |seen| && SaysEnd(seen[i], id)
  }

  lemma SeenEndSnoc(seen: seq<Message>, m: Message, id: Seq16)
    ensures SeenEnd(seen + [m], id) <==> SeenEnd(seen, id) || SaysEnd(m, id)
  {
    if SeenEnd(seen, id) {
      var i :| 0 <= i < |seen| && SaysEnd(seen[i], id);
      assert (seen + [m])[i] == seen[i];
    } else {
      assert (seen + [m])[|seen|] == m;
    }
  }

  ghost predicate ReaderOk(c: Codec, e: Endpoint, seen: seq<Message>, id: Seq16) {
    && (!e.overflowed ==> e.read + e.reader.buffer == Absorbed(c, seen, id))
    && (e.reader.eof <==> SeenEnd(seen, id))
  }

  ghost predicate ReadersOk(c: Codec, readers: map<Seq16, Endpoint>, seen: seq<Message>) {
    forall id :: id in readers ==> ReaderOk(c, readers[id], seen, id)
  }

  lemma FedKeepsReader(c: Codec, readers: map<Seq16, Endpoint>, seen: seq<Message>, m: Message, id: Seq16)
    requires id in readers && ReaderOk(c, readers[id], seen, id)
    ensures id in Fed(c, readers, m) && ReaderOk(c, Fed(c, readers, m)[id], seen + [m], id)
  {
    AbsorbedSnoc(c, seen, m, id);
    SeenEndSnoc(seen, m, id);
    var e, more := readers[id], Contribution(c, m, id);
    assert e.read + (e.reader.buffer + more) == e.read + e.reader.buffer + more;
  }

  lemma MessagesSnoc(a: seq<Receiver.Env>, b: seq<Receiver.Env>)
    requires |b| == |a| + 1 && b[..|a|] == a
    ensures EndToEnd.Messages(b) == EndToEnd.Messages(a) + [b[|a|].message]
  {
  }

  lemma DispatchStep(n: EndToEnd.State, e: EndToEnd.Event)
    ensures var a, b := n.rx.dispatched, EndToEnd.Apply(n, e).rx.dispatched;
            b == a || (|b| == |a| + 1 && b[..|a|] == a)
  {
    match e
    case Sending(t) =>
    case Receiving(r) => ReceiverStep(n.rx, r);
    case Network(p, w, unpacks) =>
      if p < |n.tx.wire| { ReceiverStep(n.rx, Receiver.Arrive(w, n.tx.wire[p].raw, unpacks)); }
  }

  lemma FedKeepsReaders(c: Codec, readers: map<Seq16, Endpoint>, seen: seq<Message>, m: Message)
    requires ReadersOk(c, readers, seen)
    ensures ReadersOk(c, Fed(c, readers, m), seen + [m])
  {
    forall id | id in Fed(c, readers, m)
      ensures ReaderOk(c, Fed(c, readers, m)[id], seen + [m], id)
    {
      FedKeepsReader(c, readers, seen, m, id);
    }
  }

  lemma ChannelKeepsReaders(c: Codec, s: State, e: EndToEnd.Event)
    requires ReadersOk(c, s.readers, EndToEnd.Messages(s.net.rx.dispatched))
    ensures var s' := ChannelStep(c, s, e); ReadersOk(c, s'.readers, EndToEnd.Messages(s'.net.rx.dispatched))
  {
    var a, b := s.net.rx.dispatched, EndToEnd.Apply(s.net, e).rx.dispatched;
    DispatchStep(s.net, e);
    if |b| > |a| {
      MessagesSnoc(a, b);
      FedKeepsReaders(c, s.readers, EndToEnd.Messages(a), b[|a|].message);
    }
  }

  lemma ReadKeepsReader(c: Codec, e: Endpoint, n: nat, seen: seq<Message>, id: Seq16)
    requires ReaderOk(c, e, seen, id)
    ensures ReaderOk(c, ReadOnce(e, n), seen, id)
  {
    ReadOnceKeeps(e, n);
  }

  // ---------------------------------------------------------------- every run

  ghost predicate Inv(c: Codec, s: State) {
    && EndToEnd.Inv(s.net)
    && LogOk(c, s.log, s.net.tx.sends) && CallOk(c, s.current, s.net.tx.pc) && EndsOk(s)
    && ReadersOk(c, s.readers, EndToEnd.Messages(s.net.rx.dispatched))
  }

  lemma BeginKeepsInv(c: Codec, s: State, m: Message, origin: Origin)
    requires Inv(c, s) && Sent(c, origin, m)
    requires origin.Some? ==> (origin.value.msg.eof <==> origin.value.streamId in s.closed)
    ensures Inv(c, BeginSend(s, m, origin))
  {
    EndToEnd.ApplyKeepsInv(s.net, EndToEnd.Sending(Sender.SendCheck(m, true)));
    BeginKeepsEnds(s, m, origin);
  }

  lemma WriteKeepsInv(c: Codec, s: State, id: Seq16, compress: bool, q: seq<octet>, reported: int)
    requires Sound(c) && Inv(c, s)
    ensures Inv(c, WriteStep(c, s, id, compress, q, reported))
  {
    var r := Compose(c, id, id in s.closed, compress, q, OutletMDU(reported));
    ComposeFaithful(c, id, id in s.closed, compress, q, OutletMDU(reported));
    var w := Written(id, q[..r.processed], r.msg);
    BeginKeepsInv(c, s, Carried(w), Some(w));
  }

  lemma ChannelKeepsInv(c: Codec, s: State, e: EndToEnd.Event)
    requires Inv(c, s) && !(e.Sending? && e.txEvent.SendCheck?)
    ensures Inv(c, ChannelStep(c, s, e))
  {
    EndToEnd.ApplyKeepsInv(s.net, e);
    ChannelKeepsLog(c, s, e);
    ChannelKeepsEnds(c, s, e);
    ChannelKeepsReaders(c, s, e);
  }

  lemma CloseKeepsInv(c: Codec, s: State, id: Seq16, compress: bool, reported: int)
    requires Sound(c) && Inv(c, s)
    ensures Inv(c, Apply(c, s, Event.CloseWriter(id, compress, reported)))
  {
    CloseKeepsEnds(s, id);
    WriteKeepsInv(c, s.(closed := s.closed + {id}), id, compress, [], reported);
  }

  lemma ReadKeepsInv(c: Codec, s: State, id: Seq16, n: nat)
    requires Inv(c, s) && id in s.readers
    ensures Inv(c, s.(readers := s.readers[id := ReadOnce(s.readers[id], n)]))
  {
    ReadKeepsReader(c, s.readers[id], n, EndToEnd.Messages(s.net.rx.dispatched), id);
  }

  lemma ApplyKeepsInv(c: Codec, s: State, e: Event)
    requires Sound(c) && Inv(c, s)
    ensures Inv(c, Apply(c, s, e))
  {
    match e
    case Write(id, compress, data, reported) => WriteKeepsInv(c, s, id, compress, data, reported);
    case CloseWriter(id, compress, reported) => CloseKeepsInv(c, s, id, compress, reported);
    case SendOther(m) => if m.msgType != STREAM_DATA_MESSAGE_TYPE { BeginKeepsInv(c, s, m, None); }
    case Channel(event) =>
      if !(event.Sending? && event.txEvent.SendCheck?) { ChannelKeepsInv(c, s, event); }
    case Read(id, n) =>
      if id in s.readers { ReadKeepsInv(c, s, id, n); }
  }

  lemma InitOk(c: Codec, rtt: real, ids: set<Seq16>)
    ensures var s := Init(rtt, ids);
            && LogOk(c, s.log, s.net.tx.sends) && CallOk(c, s.current, s.net.tx.pc) && EndsOk(s)
            && ReadersOk(c, s.readers, EndToEnd.Messages(s.net.rx.dispatched))
  {
    assert EndToEnd.Messages([]) == [];
  }

  lemma InitInv(c: Codec, rtt: real, ids: set<Seq16>)
    ensures Inv(c, Init(rtt, ids))
  {
    EndToEnd.InitInv(rtt);
    InitOk(c, rtt, ids);
  }

  lemma {:induction false} RunKeepsInv(c: Codec, rtt: real, ids: set<Seq16>, events: seq<Event>)
    requires Sound(c)
    ensures Inv(c, Run(c, Init(rtt, ids), events))
  {
    if events == [] {
      InitInv(c, rtt, ids);
    } else {
      RunKeepsInv(c, rtt, ids, events[..|events| - 1]);
      ApplyKeepsInv(c, Run(c, Init(rtt, ids), events[..|events| - 1]), events[|events| - 1]);
    }
  }

  // ---------------------------------------------------------------- end to end

  /** Bytes that the writes among `log` on streams that arrive as `id` reported, in order. */
  function Reported(log: seq<Origin>, id: Seq16): seq<octet> {
    if log == [] then []
    else
      var o := log[|log| - 1];
      Reported(log[..|log| - 1], id) + if o.Some? && Masked(o.value.streamId) == id then o.value.bytes else []
  }

  lemma SentContribution(c: Codec, origin: Origin, m: Message, id: Seq16)
    requires Sent(c, origin, m)
    ensures Contribution(c, m, id)
            == if origin.Some? && Masked(origin.value.streamId) == id then origin.value.bytes else []
  {
    if origin.Some? { UnpackPack(origin.value.msg); }
  }

  lemma {:induction false} AbsorbedIsReported(c: Codec, log: seq<Origin>, ms: seq<Message>, id: Seq16)
    requires LogOk(c, log, ms)
    ensures Absorbed(c, ms, id) == Reported(log, id)
  {
    if log != [] {
      AbsorbedIsReported(c, log[..|log| - 1], ms[..|ms| - 1], id);
      SentContribution(c, log[|log| - 1], ms[|ms| - 1], id);
    }
  }

  /** In every run of writers of any number of streams, other senders, the channel, the network and
      the readers: what the application has read from a stream plus what its reader buffers is
      exactly what the writers reported for the messages dispatched so far, a prefix of everything
      they reported, unless that reader's buffer overflowed. */
  lemma StreamEndToEnd(c: Codec, rtt: real, ids: set<Seq16>, events: seq<Event>, id: Seq16)
    requires Sound(c)
    ensures var s := Run(c, Init(rtt, ids), events);
            |s.net.tx.sends| < SEQ_MODULUS && id in s.readers && !s.readers[id].overflowed ==>
              var e, seen := s.readers[id], |s.net.rx.dispatched|;
              && seen <= |s.log|
              && e.read + e.reader.buffer == Reported(s.log[..seen], id)
              && e.read + e.reader.buffer <= Reported(s.log, id)
  {
    RunKeepsInv(c, rtt, ids, events);
    var s := Run(c, Init(rtt, ids), events);
    if |s.net.tx.sends| < SEQ_MODULUS { SeenIsReported(c, s, id); }
  }

  lemma SeenIsReported(c: Codec, s: State, id: Seq16)
    requires Inv(c, s) && |s.net.tx.sends| < SEQ_MODULUS
    ensures var ms, seen := EndToEnd.Messages(s.net.rx.dispatched), |s.net.rx.dispatched|;
            && seen <= |s.log| && Absorbed(c, ms, id) == Reported(s.log[..seen], id)
            && Absorbed(c, ms, id) <= Reported(s.log, id)
  {
    var ms, seen := EndToEnd.Messages(s.net.rx.dispatched), |s.net.rx.dispatched|;
    EndToEnd.DispatchedIsPrefix(s.net);
    assert ms == s.net.tx.sends[..seen];
    AbsorbedIsReported(c, s.log[..seen], ms, id);
    AbsorbedIsReported(c, s.log, s.net.tx.sends, id);
    AbsorbedPrefix(c, ms, s.net.tx.sends, id);
  }

  lemma SentEnd(c: Codec, origin: Origin, m: Message, id: Seq16)
    requires Sent(c, origin, m) && SaysEnd(m, id)
    ensures origin.Some? && Masked(origin.value.streamId) == id && Ends(origin, origin.value.streamId)
  {
    if origin.Some? { UnpackPack(origin.value.msg); }
  }

  /** Entry `i` ended the stream: its writer was closed by then, and everything that writer reported
      before its close is in front of it. */
  ghost predicate EndedBy(log: seq<Origin>, i: nat, id: Seq16) {
    && i < |log| && log[i].Some? && Masked(log[i].value.streamId) == id && log[i].value.msg.eof
    && forall j :: 0 <= j < |log| && Goes(log[j], log[i].value.streamId) ==> j < i
  }

  lemma EndSeen(c: Codec, s: State, id: Seq16)
    requires Inv(c, s) && |s.net.tx.sends| < SEQ_MODULUS && SeenEnd(EndToEnd.Messages(s.net.rx.dispatched), id)
    ensures exists i: nat :: i < |s.net.rx.dispatched| && EndedBy(s.log, i, id)
  {
    var ms := EndToEnd.Messages(s.net.rx.dispatched);
    EndToEnd.DispatchedIsPrefix(s.net);
    var i :| 0 <= i < |ms| && SaysEnd(ms[i], id);
    assert ms[i] == s.net.tx.sends[i];
    SentEnd(c, s.log[i], ms[i], id);
    assert EndedBy(s.log, i, id);
  }

  /** When a read reports end of stream, the application has read every byte dispatched on the stream,
      and a dispatched message ended it, so that everything its writer reported before its close is
      among those bytes. */
  lemma EndOfStreamEndToEnd(c: Codec, rtt: real, ids: set<Seq16>, events: seq<Event>, id: Seq16, n: nat)
    requires Sound(c)
    ensures var s := Run(c, Init(rtt, ids), events);
            |s.net.tx.sends| < SEQ_MODULUS && id in s.readers && !s.readers[id].overflowed
            && ReadFrom(s.readers[id].reader, n) == EndOfStream ==>
              var seen := |s.net.rx.dispatched|;
              && seen <= |s.log| && s.readers[id].read == Reported(s.log[..seen], id)
              && exists i: nat :: i < seen && EndedBy(s.log, i, id)
  {
    RunKeepsInv(c, rtt, ids, events);
    StreamEndToEnd(c, rtt, ids, events, id);
    var s := Run(c, Init(rtt, ids), events);
    if |s.net.tx.sends| < SEQ_MODULUS && id in s.readers && s.readers[id].reader.eof {
      EndSeen(c, s, id);
      var e := s.readers[id];
      if e.reader.buffer == [] { assert e.read + e.reader.buffer == e.read; }
    }
  }

  // ---------------------------------------------------------------- when a reader overflows

  /** Bytes dispatched on the stream and not read yet. */
  function Unread(c: Codec, s: State, id: Seq16): int {
    if id in s.readers
    then |Absorbed(c, EndToEnd.Messages(s.net.rx.dispatched), id)| - |s.readers[id].read| else 0
  }

  lemma FedUnread(c: Codec, readers: map<Seq16, Endpoint>, seen: seq<Message>, m: Message, id: Seq16)
    requires id in readers && ReaderOk(c, readers[id], seen, id) && !readers[id].overflowed
    requires |Absorbed(c, seen, id)| - |readers[id].read| <= 8388608
    ensures var e := Fed(c, readers, m); id in e && e[id].read == readers[id].read
    ensures Fed(c, readers, m)[id].overflowed
            <==> |Absorbed(c, seen + [m], id)| - |readers[id].read| > 8388608
  {
    AbsorbedSnoc(c, seen, m, id);
  }

  lemma ChannelUnread(c: Codec, s: State, e: EndToEnd.Event, id: Seq16)
    requires ReadersOk(c, s.readers, EndToEnd.Messages(s.net.rx.dispatched))
    requires id in s.readers && !s.readers[id].overflowed && Unread(c, s, id) <= 8388608
    ensures var u := ChannelStep(c, s, e);
            id in u.readers && (u.readers[id].overflowed <==> Unread(c, u, id) > 8388608)
  {
    var a, b := s.net.rx.dispatched, EndToEnd.Apply(s.net, e).rx.dispatched;
    DispatchStep(s.net, e);
    if |b| > |a| {
      MessagesSnoc(a, b);
      FedUnread(c, s.readers, EndToEnd.Messages(a), b[|a|].message, id);
    }
  }

  lemma StepUnread(c: Codec, s: State, e: Event, id: Seq16)
    requires ReadersOk(c, s.readers, EndToEnd.Messages(s.net.rx.dispatched))
    requires id in s.readers && !s.readers[id].overflowed && Unread(c, s, id) <= 8388608
    ensures var u := Apply(c, s, e);
            id in u.readers && (u.readers[id].overflowed <==> Unread(c, u, id) > 8388608)
  {
    match e
    case Channel(event) => if !(event.Sending? && event.txEvent.SendCheck?) { ChannelUnread(c, s, event, id); }
    case Read(other, n) =>
      if other in s.readers { assert |s.readers[other].read| <= |ReadOnce(s.readers[other], n).read|; }
    case _ =>
  }

  lemma StaysOverflowed(c: Codec, s: State, e: Event, id: Seq16)
    requires id in s.readers
    ensures id in Apply(c, s, e).readers
    ensures s.readers[id].overflowed ==> Apply(c, s, e).readers[id].overflowed
  {
  }

  /** The unread bytes of the stream were at most 8 MiB after every event of the run. */
  ghost predicate NeverOver(c: Codec, rtt: real, ids: set<Seq16>, events: seq<Event>, id: Seq16) {
    forall k :: 0 <= k <= |events| ==> Unread(c, Run(c, Init(rtt, ids), events[..k]), id) <= 8388608
  }

  lemma NeverOverSnoc(c: Codec, rtt: real, ids: set<Seq16>, events: seq<Event>, id: Seq16)
    requires events != []
    ensures NeverOver(c, rtt, ids, events, id)
            <==> && NeverOver(c, rtt, ids, events[..|events| - 1], id)
                 && Unread(c, Run(c, Init(rtt, ids), events), id) <= 8388608
  {
    var init := events[..|events| - 1];
    assert events[..|events|] == events;
    assert forall k :: 0 <= k <= |init| ==> init[..k] == events[..k];
    if NeverOver(c, rtt, ids, init, id) && Unread(c, Run(c, Init(rtt, ids), events), id) <= 8388608 {
      forall k | 0 <= k <= |events|
        ensures Unread(c, Run(c, Init(rtt, ids), events[..k]), id) <= 8388608
      {
        if k < |events| { assert init[..k] == events[..k]; }
      }
    }
  }

  /** Over the real channel too, a reader drops data exactly when its unread bytes went over 8 MiB at
      some point of the run. */
  lemma {:induction false} OverflowedIff(c: Codec, rtt: real, ids: set<Seq16>, events: seq<Event>, id: Seq16)
    requires Sound(c) && id in ids
    ensures id in Run(c, Init(rtt, ids), events).readers
    ensures Run(c, Init(rtt, ids), events).readers[id].overflowed <==> !NeverOver(c, rtt, ids, events, id)
  {
    if events == [] {
      assert events[..0] == [];
      assert EndToEnd.Messages([]) == [];
    } else {
      var init, e := events[..|events| - 1], events[|events| - 1];
      var s := Run(c, Init(rtt, ids), init);
      OverflowedIff(c, rtt, ids, init, id);
      NeverOverSnoc(c, rtt, ids, events, id);
      RunKeepsInv(c, rtt, ids, init);
      StaysOverflowed(c, s, e, id);
      if !s.readers[id].overflowed {
        assert init[..|init|] == init;
        StepUnread(c, s, e, id);
      }
    }
  }

  // ---------------------------------------------------------------- calls enter the channel

  /** With no call in progress and room in the window, a write enters the channel with a prefix of its
      buffer, a close with an empty message that ends the stream, and any other message as it is. */
  lemma BeginLaw(c: Codec, s: State, id: Seq16, compress: bool, q: seq<octet>, reported: int, m: Message)
    requires Sound(c) && s.net.tx.pc == Sender.Idle && |s.net.tx.core.ring| < s.net.tx.core.win.size
    ensures var u := Apply(c, s, Event.Write(id, compress, q, reported));
            && u.current.Some? && u.net.tx.pc == Sender.Checked(Carried(u.current.value))
            && u.current.value.bytes <= q && (q != [] ==> u.current.value.bytes != [])
    ensures var u := Apply(c, s, Event.CloseWriter(id, compress, reported));
            && id in u.closed
            && u.net.tx.pc == Sender.Checked(Carried(Written(id, [], StreamData(id, [], true, false))))
    ensures m.msgType != 0xff00 ==>
              var u := Apply(c, s, SendOther(m)); u.current.None? && u.net.tx.pc == Sender.Checked(m)
  {
    ComposeFaithful(c, id, id in s.closed, compress, q, OutletMDU(reported));
  }
}
