/** No reachable state of the streams on a channel is a dead end: with an application that keeps
    reading, everything the writers reported can still be read, without another write
    (`pkg/buffer/buffer.go` over `pkg/channel/channel.go`). */
module StreamCompletion {
  import opened ReceiveRing
  import opened Bytes
  import opened Envelope
  import Sender
  import StreamBuffer
  import EndToEnd
  import Completion
  import opened StreamOverChannel

  // ---------------------------------------------------------------- writes are small

  predicate Small(o: Origin) { o.Some? ==> |o.value.bytes| <= 16384 }

  ghost predicate AllSmall(s: State) {
    Small(s.current) && forall i :: 0 <= i < |s.log| ==> Small(s.log[i])
  }

  lemma ComposeSmall(c: StreamBuffer.Codec, id: Seq16, eof: bool, compress: bool, q: seq<octet>, outlet: int)
    ensures StreamBuffer.Compose(c, id, eof, compress, q, outlet).processed <= 16384
  {
  }

  lemma WriteKeepsSmall(c: StreamBuffer.Codec, s: State, id: Seq16, compress: bool, q: seq<octet>, reported: int)
    requires AllSmall(s)
    ensures AllSmall(WriteStep(c, s, id, compress, q, reported))
  {
    ComposeSmall(c, id, id in s.closed, compress, q, StreamBuffer.OutletMDU(reported));
  }

  lemma ApplyKeepsSmall(c: StreamBuffer.Codec, s: State, e: Event)
    requires AllSmall(s)
    ensures AllSmall(Apply(c, s, e))
  {
    match e
    case Write(id, compress, data, reported) => WriteKeepsSmall(c, s, id, compress, data, reported);
    case CloseWriter(id, compress, reported) =>
      WriteKeepsSmall(c, s.(closed := s.closed + {id}), id, compress, [], reported);
    case _ =>
  }

  // ---------------------------------------------------------------- every send is on the wire

  lemma ApplyKeepsWire(c: StreamBuffer.Codec, s: State, e: Event)
    requires Completion.AllOnWire(s.net.tx)
    ensures Completion.AllOnWire(Apply(c, s, e).net.tx)
  {
    var u := Apply(c, s, e);
    if e.Channel? {
      if e.event.Sending? { Completion.ApplyKeepsWire(s.net.tx, e.event.txEvent); }
    } else if u.net != s.net {
      assert exists m :: u.net.tx == Sender.Apply(s.net.tx, Sender.SendCheck(m, true));
      var m :| u.net.tx == Sender.Apply(s.net.tx, Sender.SendCheck(m, true));
      Completion.ApplyKeepsWire(s.net.tx, Sender.SendCheck(m, true));
    }
  }

  lemma {:induction false} RunIsSound(c: StreamBuffer.Codec, rtt: real, ids: set<Seq16>, events: seq<Event>)
    ensures var s := Run(c, Init(rtt, ids), events); AllSmall(s) && Completion.AllOnWire(s.net.tx)
  {
    if events != [] {
      var s, e := Run(c, Init(rtt, ids), events[..|events| - 1]), events[|events| - 1];
      RunIsSound(c, rtt, ids, events[..|events| - 1]);
      ApplyKeepsSmall(c, s, e);
      ApplyKeepsWire(c, s, e);
    }
  }

  // ---------------------------------------------------------------- continuations

  /** Only the network, the receiver's workers and the application's reads. */
  ghost predicate Reading(events: seq<Event>) {
    forall i :: 0 <= i < |events| ==>
      events[i].Read? || (events[i].Channel? && Completion.Onward([events[i].event]))
  }

  lemma {:induction false} RunConcat(c: StreamBuffer.Codec, s: State, a: seq<Event>, b: seq<Event>)
    ensures Run(c, s, a + b) == Run(c, Run(c, s, a), b)
  {
    if b == [] {
      assert a + b == a;
    } else {
      RunConcat(c, s, a, b[..|b| - 1]);
      assert (a + b)[..|a + b| - 1] == a + b[..|b| - 1];
    }
  }

  /** A reader that has kept up and can take another message. */
  ghost predicate Ready(c: StreamBuffer.Codec, s: State, id: Seq16) {
    && Inv(c, s) && AllSmall(s) && |s.net.tx.sends| < SEQ_MODULUS
    && id in s.readers && !s.readers[id].overflowed && s.readers[id].reader.buffer == []
  }

  /** One dispatched message brings at most what one write takes. */
  lemma LittleMore(c: StreamBuffer.Codec, s: State, e: EndToEnd.Event, id: Seq16)
    requires Inv(c, s) && AllSmall(s) && |s.net.tx.sends| < SEQ_MODULUS && Completion.Onward([e])
    ensures var a, b := s.net.rx.dispatched, EndToEnd.Apply(s.net, e).rx.dispatched;
            |Absorbed(c, EndToEnd.Messages(b), id)| <= |Absorbed(c, EndToEnd.Messages(a), id)| + 16384
  {
    var net := EndToEnd.Apply(s.net, e);
    var a, b := s.net.rx.dispatched, net.rx.dispatched;
    assert [e][0] == e && net.tx == s.net.tx;
    DispatchStep(s.net, e);
    if |b| > |a| {
      EndToEnd.ApplyKeepsInv(s.net, e);
      EndToEnd.DispatchedIsPrefix(net);
      MessagesSnoc(a, b);
      var m := b[|a|].message;
      assert EndToEnd.Messages(b)[|a|] == m == s.net.tx.sends[|a|];
      AbsorbedSnoc(c, EndToEnd.Messages(a), m, id);
      SentContribution(c, s.log[|a|], m, id);
    }
  }

  /** An event of the network or a worker leaves the sender and the log alone. */
  lemma EventShape(c: StreamBuffer.Codec, s: State, e: EndToEnd.Event)
    requires Completion.Onward([e])
    ensures var u := Apply(c, s, Channel(e));
            && u == ChannelStep(c, s, e) && u.net == EndToEnd.Apply(s.net, e) && u.net.tx == s.net.tx
            && u.log == s.log && u.current == s.current
  {
    assert [e][0] == e;
  }

  /** A reader that has kept up does not overflow. */
  lemma EventKeepsUp(c: StreamBuffer.Codec, s: State, e: EndToEnd.Event, id: Seq16)
    requires var seen, more := s.net.rx.dispatched, EndToEnd.Apply(s.net, e).rx.dispatched;
             && ReadersOk(c, s.readers, EndToEnd.Messages(seen))
             && |Absorbed(c, EndToEnd.Messages(more), id)| <= |Absorbed(c, EndToEnd.Messages(seen), id)| + 16384
    requires id in s.readers && !s.readers[id].overflowed && s.readers[id].reader.buffer == []
    ensures var u := ChannelStep(c, s, e); id in u.readers && !u.readers[id].overflowed
  {
    var r := s.readers[id];
    assert ReaderOk(c, r, EndToEnd.Messages(s.net.rx.dispatched), id);
    assert r.read + [] == r.read;
    ChannelUnread(c, s, e, id);
    FedReads(c, s, e, id);
  }

  lemma FedReads(c: StreamBuffer.Codec, s: State, e: EndToEnd.Event, id: Seq16)
    requires id in s.readers
    ensures var u := ChannelStep(c, s, e); id in u.readers && u.readers[id].read == s.readers[id].read
  {
  }

  lemma ReadShape(c: StreamBuffer.Codec, s: State, id: Seq16)
    requires id in s.readers
    ensures var r := StreamBuffer.ReadOnce(s.readers[id], |s.readers[id].reader.buffer|);
            && Apply(c, s, Event.Read(id, |s.readers[id].reader.buffer|)) == s.(readers := s.readers[id := r])
            && r.reader.buffer == [] && r.overflowed == s.readers[id].overflowed
  {
  }

  /** Reading all there is leaves an empty buffer. */
  lemma ReadStays(c: StreamBuffer.Codec, s: State, id: Seq16)
    requires Inv(c, s) && AllSmall(s) && |s.net.tx.sends| < SEQ_MODULUS
    requires id in s.readers && !s.readers[id].overflowed
    ensures var u := Apply(c, s, Event.Read(id, |s.readers[id].reader.buffer|));
            Ready(c, u, id) && u.net == s.net && u.log == s.log
  {
    ReadShape(c, s, id);
    ReadKeepsInv(c, s, id, |s.readers[id].reader.buffer|);
  }

  lemma EventStays(c: StreamBuffer.Codec, s: State, e: EndToEnd.Event, id: Seq16)
    requires StreamBuffer.Sound(c) && Ready(c, s, id) && Completion.Onward([e])
    ensures var v := Apply(c, s, Channel(e));
            && id in v.readers && !v.readers[id].overflowed
            && Inv(c, v) && AllSmall(v) && v.net == EndToEnd.Apply(s.net, e) && v.net.tx == s.net.tx && v.log == s.log
  {
    ApplyKeepsInv(c, s, Channel(e));
    EventShape(c, s, e);
    LittleMore(c, s, e, id);
    EventKeepsUp(c, s, e, id);
  }

  /** One event of the channel, and the read after it. */
  lemma EventAndRead(c: StreamBuffer.Codec, s: State, e: EndToEnd.Event, id: Seq16) returns (read: Event)
    requires StreamBuffer.Sound(c) && Ready(c, s, id) && Completion.Onward([e])
    ensures read.Read?
    ensures var u := Apply(c, Apply(c, s, Channel(e)), read);
            Ready(c, u, id) && u.net == EndToEnd.Apply(s.net, e) && u.log == s.log
  {
    EventStays(c, s, e, id);
    var v := Apply(c, s, Channel(e));
    ReadStays(c, v, id);
    read := Event.Read(id, |v.readers[id].reader.buffer|);
  }

  lemma RunTwo(c: StreamBuffer.Codec, s: State, a: Event, b: Event)
    ensures Run(c, s, [a, b]) == Apply(c, Apply(c, s, a), b)
  {
    assert [a, b][..1] == [a];
    assert Run(c, s, [a]) == Apply(c, Run(c, s, []), a);
  }

  lemma ReadingSnoc(first: seq<Event>, e: EndToEnd.Event, read: Event)
    requires Reading(first) && Completion.Onward([e]) && read.Read?
    ensures Reading(first + [Channel(e), read])
  {
  }

  lemma OnwardParts(net: seq<EndToEnd.Event>)
    requires Completion.Onward(net) && net != []
    ensures Completion.Onward(net[..|net| - 1]) && Completion.Onward([net[|net| - 1]])
  {
  }

  /** The run `first` with one event of the channel, and the read after it. */
  lemma FollowOne(c: StreamBuffer.Codec, s: State, first: seq<Event>, e: EndToEnd.Event, id: Seq16)
    returns (more: seq<Event>)
    requires StreamBuffer.Sound(c) && Ready(c, Run(c, s, first), id) && Reading(first) && Completion.Onward([e])
    ensures Reading(more)
    ensures var v, u := Run(c, s, first), Run(c, s, more);
            Ready(c, u, id) && u.net == EndToEnd.Apply(v.net, e) && u.log == v.log
  {
    var read := EventAndRead(c, Run(c, s, first), e, id);
    RunTwo(c, Run(c, s, first), Channel(e), read);
    RunConcat(c, s, first, [Channel(e), read]);
    ReadingSnoc(first, e, read);
    more := first + [Channel(e), read];
  }

  /** The channel follows `net` while the application reads after every event. */
  lemma {:induction false} Follow(c: StreamBuffer.Codec, s: State, net: seq<EndToEnd.Event>, id: Seq16)
    returns (more: seq<Event>)
    requires StreamBuffer.Sound(c) && Ready(c, s, id) && Completion.Onward(net)
    ensures Reading(more)
    ensures var u := Run(c, s, more); Ready(c, u, id) && u.net == EndToEnd.Run(s.net, net) && u.log == s.log
    decreases |net|
  {
    if net == [] {
      more := [];
    } else {
      OnwardParts(net);
      var first := Follow(c, s, net[..|net| - 1], id);
      more := FollowOne(c, s, first, net[|net| - 1], id);
    }
  }

  lemma AllRead(c: StreamBuffer.Codec, s: State, id: Seq16)
    requires Ready(c, s, id) && EndToEnd.Messages(s.net.rx.dispatched) == s.net.tx.sends
    ensures s.readers[id].read == Reported(s.log, id)
  {
    SeenIsReported(c, s, id);
    assert |s.net.rx.dispatched| == |s.log| && s.log[..|s.log|] == s.log;
    assert s.readers[id].read + [] == s.readers[id].read;
    assert ReaderOk(c, s.readers[id], EndToEnd.Messages(s.net.rx.dispatched), id);
  }

  /** No write was added, and the application has read all that was reported. */
  ghost predicate GivesAll(s: State, u: State, id: Seq16) {
    u.log == s.log && id in u.readers && u.readers[id].read == Reported(s.log, id)
  }

  /** A reader that has kept up gets everything. */
  lemma Finish(c: StreamBuffer.Codec, s: State, id: Seq16) returns (more: seq<Event>)
    requires StreamBuffer.Sound(c) && Ready(c, s, id) && Completion.AllOnWire(s.net.tx)
    ensures Reading(more) && GivesAll(s, Run(c, s, more), id)
  {
    var net := Completion.Finish(s.net);
    more := Follow(c, s, net, id);
    AllRead(c, Run(c, s, more), id);
  }

  lemma ReadFirst(c: StreamBuffer.Codec, s: State, read: Event, rest: seq<Event>)
    requires read.Read? && Reading(rest)
    ensures Reading([read] + rest) && Run(c, s, [read] + rest) == Run(c, Apply(c, s, read), rest)
  {
    assert Run(c, s, [read]) == Apply(c, Run(c, s, []), read);
    RunConcat(c, s, [read], rest);
  }

  /** From every reachable state with fewer than 65536 sends in which the reader has dropped nothing,
      the network, the receiver and reads alone give the application everything the stream's writers
      reported. */
  lemma StreamCompletes(c: StreamBuffer.Codec, rtt: real, ids: set<Seq16>, events: seq<Event>, id: Seq16)
    requires StreamBuffer.Sound(c)
    requires var s := Run(c, Init(rtt, ids), events);
             |s.net.tx.sends| < SEQ_MODULUS && id in s.readers && !s.readers[id].overflowed
    ensures var s := Run(c, Init(rtt, ids), events);
            exists more :: Reading(more) && GivesAll(s, Run(c, s, more), id)
  {
    var s := Run(c, Init(rtt, ids), events);
    RunKeepsInv(c, rtt, ids, events);
    RunIsSound(c, rtt, ids, events);
    ReadStays(c, s, id);
    var read := Event.Read(id, |s.readers[id].reader.buffer|);
    var rest := Finish(c, Apply(c, s, read), id);
    ReadFirst(c, s, read, rest);
    assert Reading([read] + rest) && GivesAll(s, Run(c, s, [read] + rest), id);
  }
}
