/** Byte streams over a channel (`pkg/buffer/buffer.go`): the stream message format, the writer
    that chunks and optionally compresses, the buffering reader, and several streams interleaved
    on one ordered channel. */
module StreamBuffer {
  import opened Wrappers
  import opened ReceiveRing
  import opened Bytes
  import opened Envelope

  const STREAM_ID_MAX := 0x3fff
  const MAX_CHUNK_LEN := 16384
  const COMPRESS_TRIES := 4
  const COMPRESS_THRESHOLD := 32
  const STREAM_HEADER_SIZE := 2
  const STREAM_HEADER_EOF := 0x8000
  const STREAM_HEADER_COMPRESSED := 0x4000
  const MAX_READER_BUFFER_BYTES := 0x80_0000
  const DEFAULT_OUTLET_MDU := 500

  // ---------------------------------------------------------------- message format

  datatype StreamData = StreamData(streamId: Seq16, data: seq<octet>, eof: bool, compressed: bool)

  datatype Unpacked = ShortBuffer | Stream(msg: StreamData)

  /** The identifier as it goes on the wire: 14 bits. */
  function Masked(id: Seq16): Seq16 { id % (STREAM_ID_MAX + 1) }

  function HeaderOf(m: StreamData): Seq16 {
    Masked(m.streamId)
    + (if m.eof then STREAM_HEADER_EOF else 0)
    + (if m.compressed then STREAM_HEADER_COMPRESSED else 0)
  }

  function PackStream(m: StreamData): seq<octet> {
    Put16(HeaderOf(m)) + m.data
  }

  function UnpackStream(d: seq<octet>): Unpacked {
    if |d| < STREAM_HEADER_SIZE then ShortBuffer
    else
      var h := Get16(d, 0);
      Stream(StreamData(Masked(h), d[STREAM_HEADER_SIZE..], h >= STREAM_HEADER_EOF,
                        h / STREAM_HEADER_COMPRESSED % 2 == 1))
  }

  /** Unpacking a packed message gives it back with the identifier cut to 14 bits. */
  lemma UnpackPack(m: StreamData)
    ensures UnpackStream(PackStream(m)) == Stream(m.(streamId := Masked(m.streamId)))
  {
    assert PackStream(m) == [] + Put16(HeaderOf(m)) + m.data;
    Get16Put16([], HeaderOf(m), m.data);
    assert PackStream(m)[STREAM_HEADER_SIZE..] == m.data;
  }

  /** Every body of two bytes or more is the packing of what it unpacks to. */
  lemma PackUnpack(d: seq<octet>)
    requires |d| >= STREAM_HEADER_SIZE
    ensures UnpackStream(d).Stream? && PackStream(UnpackStream(d).msg) == d
  {
    var m := UnpackStream(d).msg;
    var h := Get16(d, 0);
    assert HeaderOf(m) == h;
    assert Put16(h) == d[..2];
  }

  /** On the wire: the top bit marks the end of the stream, the next one compression, fourteen bits name
      the stream, most significant first. */
  lemma StreamLayout(m: StreamData)
    ensures var p := PackStream(m);
            && |p| == 2 + |m.data| && p[2..] == m.data
            && (m.eof <==> p[0] >= 128) && (m.compressed <==> p[0] / 64 % 2 == 1)
            && (p[0] as int) % 64 * 256 + p[1] == m.streamId % 16384
  {
    assert PackStream(m)[2..] == m.data;
  }

  lemma NotUnpacked(d: seq<octet>)
    ensures UnpackStream(d) == ShortBuffer <==> |d| < 2
  {
  }

  // ---------------------------------------------------------------- sizes

  function OutletMDU(reported: int): int {
    if reported > 0 then reported else DEFAULT_OUTLET_MDU
  }

  function ChannelMDU(outlet: int): int {
    var m := if outlet - HEADER_SIZE < SEQ_MAX then outlet - HEADER_SIZE else SEQ_MAX;
    if m < 1 then 1 else m
  }

  function StreamMDU(outlet: int): int {
    var m := ChannelMDU(outlet) - STREAM_HEADER_SIZE;
    if m < 1 then 1 else m
  }

  /** Bytes of the channel envelope that carries a stream message. */
  function EnvelopeSize(m: StreamData): int {
    HEADER_SIZE + STREAM_HEADER_SIZE + |m.data|
  }

  // ---------------------------------------------------------------- writer

  /** The compressor, abstractly. */
  datatype Codec = Codec(compress: seq<octet> -> Option<seq<octet>>, decompress: seq<octet> -> seq<octet>)

  /** bzip2 gives back what it compressed, for chunks the decompressor does not refuse. */
  ghost predicate Sound(c: Codec) {
    forall x :: |x| <= MAX_CHUNK_LEN && c.compress(x).Some? ==> c.decompress(c.compress(x).value) == x
  }

  datatype Chunk = Chunk(msg: StreamData, processed: nat)

  predicate Worthwhile(c: Codec, chunk: seq<octet>, mdu: int) {
    c.compress(chunk).Some? && |c.compress(chunk).value| < mdu && |c.compress(chunk).value| < |chunk|
  }

  /** The first of the fractions p/1, p/2, p/3 that compresses well, from try `t` on. */
  function TryCompress(c: Codec, p: seq<octet>, mdu: int, t: nat): (r: Option<nat>)
    requires 1 <= t <= COMPRESS_TRIES
    ensures r.Some? ==> r.value <= |p| && Worthwhile(c, p[..r.value], mdu)
    ensures r.Some? && |p| > COMPRESS_THRESHOLD ==> r.value > 0
    decreases COMPRESS_TRIES - t
  {
    if t == COMPRESS_TRIES then None
    else if Worthwhile(c, p[..|p| / t], mdu) then Some(|p| / t)
    else TryCompress(c, p, mdu, t + 1)
  }

  function Prefix(p: seq<octet>, n: nat): seq<octet> { if |p| > n then p[..n] else p }

  /** The message one write sends and how many bytes it reports. */
  function Compose(c: Codec, id: Seq16, eof: bool, compress: bool, q: seq<octet>, outlet: int): Chunk {
    var p, mdu := Prefix(q, MAX_CHUNK_LEN), StreamMDU(outlet);
    var t := if compress && |p| > COMPRESS_THRESHOLD then TryCompress(c, p, mdu, 1) else None;
    if t.Some? then Chunk(StreamData(id, c.compress(p[..t.value]).value, eof, true), t.value)
    else var r := Prefix(p, mdu); Chunk(StreamData(id, r, eof, false), |r|)
  }

  /** What the reader appends for a message. */
  function Decoded(c: Codec, m: StreamData): seq<octet> {
    if m.compressed then c.decompress(m.data) else m.data
  }

  class RawChannelWriter {
    const streamId: Seq16
    const compression: bool
    var eof: bool

    constructor (id: Seq16, compress: bool)
      ensures streamId == id && compression == compress && !eof
    {
      streamId, compression, eof := id, compress, false;
    }

    /** The compression tries of `WriteContext`. */
    static method Compressed(c: Codec, p: seq<octet>, mdu: int) returns (r: Option<Chunk>)
      ensures var t := TryCompress(c, p, mdu, 1);
              if t.None? then r == None
              else r == Some(Chunk(StreamData(0, c.compress(p[..t.value]).value, false, true), t.value))
    {
      var try := 1;
      while try < COMPRESS_TRIES
        invariant 1 <= try <= COMPRESS_TRIES
        invariant TryCompress(c, p, mdu, 1) == TryCompress(c, p, mdu, try)
      {
        var chunkLen := |p| / try;
        var compressed := c.compress(p[..chunkLen]);
        if compressed.Some? && |compressed.value| < mdu && |compressed.value| < chunkLen {
          return Some(Chunk(StreamData(0, compressed.value, false, true), chunkLen));
        }
        try := try + 1;
      }
      r := None;
    }

    /** The message one `WriteContext` call hands to the channel, and what it reports on success. */
    method NextMessage(c: Codec, q: seq<octet>, outlet: int) returns (msg: StreamData, processed: nat)
      ensures Chunk(msg, processed) == Compose(c, streamId, eof, compression, q, outlet)
    {
      var p := q;
      if |p| > MAX_CHUNK_LEN {
        p := p[..MAX_CHUNK_LEN];
      }
      var mdu := StreamMDU(outlet);
      if compression && |p| > COMPRESS_THRESHOLD {
        var r := Compressed(c, p, mdu);
        if r.Some? {
          return r.value.msg.(streamId := streamId, eof := eof), r.value.processed;
        }
      }
      if |p| > mdu {
        p := p[..mdu];
      }
      msg, processed := StreamData(streamId, p, eof, false), |p|;
    }

    /** `WriteContext` with the channel's verdict: nothing is reported unless the message went out. */
    method WriteContext(c: Codec, q: seq<octet>, reportedMDU: int, accepted: bool)
      returns (n: nat, sent: Option<StreamData>)
      ensures var outlet := OutletMDU(reportedMDU);
              var r := Compose(c, streamId, eof, compression, q, outlet);
              if accepted && EnvelopeSize(r.msg) <= outlet then n == r.processed && sent == Some(r.msg)
              else n == 0 && sent == None
    {
      var msg, processed := NextMessage(c, q, OutletMDU(reportedMDU));
      if !accepted || EnvelopeSize(msg) > OutletMDU(reportedMDU) {
        return 0, None;
      }
      n, sent := processed, Some(msg);
    }

    method Close(c: Codec, reportedMDU: int, accepted: bool) returns (sent: Option<StreamData>)
      modifies this`eof
      ensures eof
      ensures sent.Some? ==> sent.value == StreamData(streamId, [], true, false)
      ensures sent.Some? <==> accepted && OutletMDU(reportedMDU) >= HEADER_SIZE + STREAM_HEADER_SIZE
    {
      eof := true;
      var n;
      n, sent := WriteContext(c, [], reportedMDU, accepted);
    }
  }

  /** A write sends exactly the bytes it reports, reports at least one of a non-empty buffer, and
      never more than it was given. */
  lemma ComposeFaithful(c: Codec, id: Seq16, eof: bool, compress: bool, q: seq<octet>, outlet: int)
    requires Sound(c)
    ensures var r := Compose(c, id, eof, compress, q, outlet);
            && r.processed <= |q| && Decoded(c, r.msg) == q[..r.processed]
            && (q != [] ==> r.processed > 0)
            && r.msg.streamId == id && r.msg.eof == eof
  {
    var p := Prefix(q, MAX_CHUNK_LEN);
    var r := Compose(c, id, eof, compress, q, outlet);
    assert p[..r.processed] == q[..r.processed];
  }

  /** A compressed message is sent exactly when the whole buffer, its half or its third compresses to
      less than itself and less than the payload limit, and then the first of those that does. */
  lemma TriesInOrder(c: Codec, p: seq<octet>, mdu: int)
    ensures var a, b, d := |p|, |p| / 2, |p| / 3;
            TryCompress(c, p, mdu, 1)
            == if Shrinks(c, p[..a], mdu) then Some(a)
               else if Shrinks(c, p[..b], mdu) then Some(b)
               else if Shrinks(c, p[..d], mdu) then Some(d)
               else None
  {
    assert |p| / 1 == |p|;
    assert TryCompress(c, p, mdu, 3) == if Shrinks(c, p[..|p| / 3], mdu) then Some(|p| / 3) else None;
    assert TryCompress(c, p, mdu, 2)
        == if Shrinks(c, p[..|p| / 2], mdu) then Some(|p| / 2) else TryCompress(c, p, mdu, 3);
  }

  predicate Shrinks(c: Codec, chunk: seq<octet>, mdu: int) {
    c.compress(chunk).Some? && |c.compress(chunk).value| < mdu && |c.compress(chunk).value| < |chunk|
  }

  function Smaller(a: int, b: int): int { if a < b then a else b }

  /** How much an uncompressed write takes: all of the buffer, up to 16384 bytes and up to eight bytes
      less than the outlet's MDU, or one byte of it if that is less than nine. */
  lemma PlainTakes(c: Codec, id: Seq16, eof: bool, q: seq<octet>, outlet: int)
    ensures var r := Compose(c, id, eof, false, q, outlet);
            && !r.msg.compressed && r.msg.data == q[..r.processed]
            && r.processed == Smaller(|q|, Smaller(16384, if outlet < 9 then 1 else outlet - 8))
  {
  }

  /** A write is compressed exactly when the policy allows it, more than 32 bytes are at hand and one
      of the tries is worthwhile. */
  lemma CompressedIff(c: Codec, id: Seq16, eof: bool, compress: bool, q: seq<octet>, outlet: int)
    ensures var r, p := Compose(c, id, eof, compress, q, outlet), q[..Smaller(|q|, 16384)];
            var t := TryCompress(c, p, StreamMDU(outlet), 1);
            && (r.msg.compressed <==> compress && |p| > 32 && t.Some?)
            && (r.msg.compressed ==> r.processed == t.value && Some(r.msg.data) == c.compress(p[..t.value]))
  {
    assert q[..Smaller(|q|, 16384)] == Prefix(q, MAX_CHUNK_LEN);
  }

  /** The limits: an outlet that reports nothing counts as 500 bytes; the envelope header takes six,
      the stream header two, and at least one byte of payload is tried. */
  lemma LimitsAre(reported: int, outlet: int)
    ensures OutletMDU(reported) == if reported > 0 then reported else 500
    ensures StreamMDU(outlet) == if outlet < 9 then 1 else Smaller(outlet - 6, 65535) - 2
  {
  }

  /** With an outlet MDU of nine or more every write fits the outlet. */
  lemma ComposeFits(c: Codec, id: Seq16, eof: bool, compress: bool, q: seq<octet>, outlet: int)
    requires outlet >= 9
    ensures EnvelopeSize(Compose(c, id, eof, compress, q, outlet).msg) <= outlet
  {
  }

  /** Without compression, a non-empty write fits the outlet exactly when its MDU is nine or more. */
  lemma PlainFitsIff(c: Codec, id: Seq16, eof: bool, q: seq<octet>, outlet: int)
    requires q != []
    ensures EnvelopeSize(Compose(c, id, eof, false, q, outlet).msg) <= outlet <==> outlet >= 9
  {
    if outlet >= 9 { ComposeFits(c, id, eof, false, q, outlet); }
  }

  // ---------------------------------------------------------------- reader

  datatype Reader = Reader(buffer: seq<octet>, eof: bool)

  datatype ReadResult = EndOfStream | Bytes(data: seq<octet>)

  predicate Handles(id: Seq16, m: StreamData) { m.streamId == id }

  predicate Overflows(r: Reader, data: seq<octet>) {
    |r.buffer| + |data| > MAX_READER_BUFFER_BYTES
  }

  function Absorb(c: Codec, r: Reader, m: StreamData): Reader {
    var data := Decoded(c, m);
    Reader(if Overflows(r, data) then r.buffer else r.buffer + data, r.eof || m.eof)
  }

  function ReadFrom(r: Reader, n: nat): ReadResult {
    if r.buffer == [] && r.eof then EndOfStream else Bytes(Prefix(r.buffer, n))
  }

  function AfterRead(r: Reader, n: nat): Reader {
    r.(buffer := r.buffer[|Prefix(r.buffer, n)|..])
  }

  class RawChannelReader {
    const streamId: Seq16
    var buffer: seq<octet>
    var eof: bool

    ghost function State(): Reader
      reads this
    {
      Reader(buffer, eof)
    }

    constructor (id: Seq16)
      ensures streamId == id && State() == Reader([], false)
    {
      streamId, buffer, eof := id, [], false;
    }

    method HandleMessage(c: Codec, m: StreamData) returns (handled: bool)
      modifies this`buffer, this`eof
      ensures handled == (m.streamId == streamId)
      ensures var data := if m.compressed then c.decompress(m.data) else m.data;
              var keeps := handled && |old(buffer)| + |data| <= 8388608;
              buffer == old(buffer) + (if keeps then data else []) && eof == (old(eof) || (handled && m.eof))
      ensures State() == if handled then Absorb(c, old(State()), m) else old(State())
    {
      if m.streamId != streamId {
        return false;
      }
      var data := m.data;
      if m.compressed {
        data := c.decompress(m.data);
      }
      if |data| > 0 {
        if |buffer| + |data| <= MAX_READER_BUFFER_BYTES {
          buffer := buffer + data;
        }
      }
      if m.eof {
        eof := true;
      }
      handled := true;
    }

    method Read(n: nat) returns (r: ReadResult)
      modifies this`buffer
      ensures r == ReadFrom(old(State()), n) && State() == AfterRead(old(State()), n)
      ensures r.EndOfStream? <==> old(buffer) == [] && eof
      ensures r.Bytes? ==> r.data + buffer == old(buffer)
                           && |r.data| == if n < |old(buffer)| then n else |old(buffer)|
    {
      if |buffer| == 0 && eof {
        return EndOfStream;
      }
      var k := if |buffer| > n then n else |buffer|;
      r := Bytes(buffer[..k]);
      buffer := buffer[k..];
    }
  }

  /** A writer and a reader opened with the same identifier talk to each other exactly when that
      identifier fits in 14 bits. */
  lemma SameIdIff(id: Seq16, m: StreamData)
    requires m.streamId == id
    ensures Handles(id, UnpackStream(PackStream(m)).msg) <==> id <= STREAM_ID_MAX
  {
    UnpackPack(m);
  }

  // ---------------------------------------------------------------- streams on one channel

  /** A reader with everything the application has read from it. */
  datatype Endpoint = Endpoint(reader: Reader, read: seq<octet>, overflowed: bool)

  /** One write that the channel accepted: the stream it was for, what it reported, what it sent. */
  datatype Written = Written(streamId: Seq16, bytes: seq<octet>, msg: StreamData)

  datatype State = State(
    closed: set<Seq16>,                // writers whose Close has been called
    log: seq<Written>,                 // accepted writes, in channel order
    delivered: nat,                    // how many of them the channel has dispatched
    readers: map<Seq16, Endpoint>)

  datatype Event =
    | Write(id: Seq16, compress: bool, data: seq<octet>, reportedMDU: int, accepted: bool)
    | CloseWriter(id: Seq16, compress: bool, reportedMDU: int, accepted: bool)
    | Deliver                          // the next message in send order reaches the handlers
    | Read(id: Seq16, n: nat)

  const FRESH := Endpoint(Reader([], false), [], false)

  function Init(ids: set<Seq16>): State {
    State({}, [], 0, map id | id in ids :: FRESH)
  }

  function WriteStep(c: Codec, s: State, id: Seq16, compress: bool, q: seq<octet>, reported: int,
                     accepted: bool): State {
    var outlet := OutletMDU(reported);
    var r := Compose(c, id, id in s.closed, compress, q, outlet);
    if accepted && EnvelopeSize(r.msg) <= outlet && r.processed <= |q|
    then s.(log := s.log + [Written(id, q[..r.processed], r.msg)]) else s
  }

  function DeliverTo(c: Codec, e: Endpoint, m: StreamData): Endpoint {
    e.(reader := Absorb(c, e.reader, m), overflowed := e.overflowed || Overflows(e.reader, Decoded(c, m)))
  }

  function DeliverStep(c: Codec, s: State): State
    requires s.delivered < |s.log|
  {
    var u := UnpackStream(PackStream(s.log[s.delivered].msg));
    var s' := s.(delivered := s.delivered + 1);
    if u.Stream? && u.msg.streamId in s.readers
    then s'.(readers := s.readers[u.msg.streamId := DeliverTo(c, s.readers[u.msg.streamId], u.msg)])
    else s'
  }

  function ReadOnce(e: Endpoint, n: nat): Endpoint {
    var r := ReadFrom(e.reader, n);
    e.(reader := AfterRead(e.reader, n), read := if r.Bytes? then e.read + r.data else e.read)
  }

  /** A read moves bytes from the buffer to the application and loses none. */
  lemma ReadOnceKeeps(e: Endpoint, n: nat)
    ensures var r := ReadOnce(e, n);
            && r.read + r.reader.buffer == e.read + e.reader.buffer
            && r.overflowed == e.overflowed && r.reader.eof == e.reader.eof
  {
    var b, k := e.reader.buffer, |Prefix(e.reader.buffer, n)|;
    assert b == b[..k] + b[k..];
    assert e.read + (b[..k] + b[k..]) == e.read + b[..k] + b[k..];
  }

  function ReadStep(s: State, id: Seq16, n: nat): State
    requires id in s.readers
  {
    s.(readers := s.readers[id := ReadOnce(s.readers[id], n)])
  }

  function Apply(c: Codec, s: State, e: Event): State {
    match e
    case Write(id, compress, data, reported, accepted) => WriteStep(c, s, id, compress, data, reported, accepted)
    case CloseWriter(id, compress, reported, accepted) =>
      WriteStep(c, s.(closed := s.closed + {id}), id, compress, [], reported, accepted)
    case Deliver => if s.delivered < |s.log| then DeliverStep(c, s) else s
    case Read(id, n) => if id in s.readers then ReadStep(s, id, n) else s
  }

  function Run(c: Codec, s: State, events: seq<Event>): State {
    if events == [] then s
    else Apply(c, Run(c, s, events[..|events| - 1]), events[|events| - 1])
  }

  /** Bytes the writers of streams that arrive as `id` reported, in order. */
  function WrittenTo(log: seq<Written>, id: Seq16): seq<octet> {
    if log == [] then []
    else
      var w := log[|log| - 1];
      WrittenTo(log[..|log| - 1], id) + if Masked(w.streamId) == id then w.bytes else []
  }

  predicate EofSent(log: seq<Written>, id: Seq16) {
    exists i :: 0 <= i < |log| && Masked(log[i].streamId) == id && log[i].msg.eof
  }

  ghost predicate LogOk(c: Codec, log: seq<Written>) {
    forall i :: 0 <= i < |log| ==> log[i].msg.streamId == log[i].streamId && Decoded(c, log[i].msg) == log[i].bytes
  }

  ghost predicate EndpointOk(e: Endpoint, log: seq<Written>, id: Seq16) {
    && (!e.overflowed ==> e.read + e.reader.buffer == WrittenTo(log, id))
    && (e.reader.eof <==> EofSent(log, id))
  }

  ghost predicate Inv(c: Codec, s: State) {
    && LogOk(c, s.log)
    && s.delivered <= |s.log|
    && forall id :: id in s.readers ==> EndpointOk(s.readers[id], s.log[..s.delivered], id)
  }

  lemma WriteKeepsInv(c: Codec, s: State, id: Seq16, compress: bool, q: seq<octet>, reported: int, accepted: bool)
    requires Sound(c) && Inv(c, s)
    ensures Inv(c, WriteStep(c, s, id, compress, q, reported, accepted))
  {
    ComposeFaithful(c, id, id in s.closed, compress, q, OutletMDU(reported));
    var s' := WriteStep(c, s, id, compress, q, reported, accepted);
    assert s'.log[..s.delivered] == s.log[..s.delivered];
  }

  lemma OneMore(log: seq<Written>, w: Written, id: Seq16)
    ensures WrittenTo(log + [w], id) == WrittenTo(log, id) + if Masked(w.streamId) == id then w.bytes else []
    ensures EofSent(log + [w], id) <==> EofSent(log, id) || (Masked(w.streamId) == id && w.msg.eof)
  {
    var l := log + [w];
    assert l[..|l| - 1] == log;
    if EofSent(log, id) {
      var i :| 0 <= i < |log| && Masked(log[i].streamId) == id && log[i].msg.eof;
      assert l[i] == log[i];
    }
    assert l[|log|] == w;
  }

  lemma DeliveredTo(c: Codec, s: State, id: Seq16)
    requires Inv(c, s) && s.delivered < |s.log| && id in s.readers
    ensures var w := s.log[s.delivered];
            && Decoded(c, w.msg) == w.bytes
            && DeliverStep(c, s).readers[id] ==
               (if Masked(w.streamId) == id then DeliverTo(c, s.readers[id], w.msg) else s.readers[id])
  {
    UnpackPack(s.log[s.delivered].msg);
  }

  lemma TakenKeepsEndpoint(c: Codec, e: Endpoint, log: seq<Written>, w: Written, id: Seq16)
    requires EndpointOk(e, log, id) && Decoded(c, w.msg) == w.bytes && Masked(w.streamId) == id
    ensures EndpointOk(DeliverTo(c, e, w.msg), log + [w], id)
  {
    OneMore(log, w, id);
    assert e.read + (e.reader.buffer + w.bytes) == e.read + e.reader.buffer + w.bytes;
  }

  lemma SkippedKeepsEndpoint(e: Endpoint, log: seq<Written>, w: Written, id: Seq16)
    requires EndpointOk(e, log, id) && Masked(w.streamId) != id
    ensures EndpointOk(e, log + [w], id)
  {
    OneMore(log, w, id);
    assert WrittenTo(log, id) + [] == WrittenTo(log, id);
  }

  lemma DeliverKeepsEndpoint(c: Codec, s: State, id: Seq16)
    requires Inv(c, s) && s.delivered < |s.log| && id in s.readers
    ensures EndpointOk(DeliverStep(c, s).readers[id], s.log[..s.delivered + 1], id)
  {
    var w, before := s.log[s.delivered], s.log[..s.delivered];
    DeliveredTo(c, s, id);
    if Masked(w.streamId) == id {
      TakenKeepsEndpoint(c, s.readers[id], before, w, id);
    } else {
      SkippedKeepsEndpoint(s.readers[id], before, w, id);
    }
    assert s.log[..s.delivered + 1] == before + [w];
  }

  lemma ReadKeepsEndpoint(s: State, id: Seq16, n: nat, log: seq<Written>)
    requires id in s.readers && EndpointOk(s.readers[id], log, id)
    ensures EndpointOk(ReadStep(s, id, n).readers[id], log, id)
  {
    ReadOnceKeeps(s.readers[id], n);
  }

  lemma ApplyKeepsInv(c: Codec, s: State, e: Event)
    requires Sound(c) && Inv(c, s)
    ensures Inv(c, Apply(c, s, e))
  {
    match e
    case Write(id, compress, data, reported, accepted) =>
      WriteKeepsInv(c, s, id, compress, data, reported, accepted);
    case CloseWriter(id, compress, reported, accepted) =>
      WriteKeepsInv(c, s.(closed := s.closed + {id}), id, compress, [], reported, accepted);
    case Deliver =>
      if s.delivered < |s.log| {
        forall id | id in s.readers
          ensures EndpointOk(DeliverStep(c, s).readers[id], s.log[..s.delivered + 1], id)
        {
          DeliverKeepsEndpoint(c, s, id);
        }
      }
    case Read(id, n) =>
      if id in s.readers { ReadKeepsEndpoint(s, id, n, s.log[..s.delivered]); }
  }

  lemma {:induction false} RunKeepsInv(c: Codec, ids: set<Seq16>, events: seq<Event>)
    requires Sound(c)
    ensures Inv(c, Run(c, Init(ids), events))
  {
    if events != [] {
      RunKeepsInv(c, ids, events[..|events| - 1]);
      ApplyKeepsInv(c, Run(c, Init(ids), events[..|events| - 1]), events[|events| - 1]);
    }
  }

  lemma {:induction false} WrittenSplit(log: seq<Written>, d: nat, id: Seq16)
    requires d <= |log|
    ensures WrittenTo(log, id) == WrittenTo(log[..d], id) + WrittenTo(log[d..], id)
    decreases |log|
  {
    if d == |log| {
      assert log[..d] == log && log[d..] == [];
    } else {
      var init := log[..|log| - 1];
      WrittenSplit(init, d, id);
      assert init[..d] == log[..d] && log[d..][..|log[d..]| - 1] == init[d..];
    }
  }

  /** With any number of streams interleaved: what the application has read from a stream, plus
      what its reader buffers, plus what the channel has not dispatched yet, is exactly what the
      writers reported, unless the reader's buffer overflowed. */
  lemma ByteStreamConservation(c: Codec, ids: set<Seq16>, events: seq<Event>, id: Seq16)
    requires Sound(c) && id in Run(c, Init(ids), events).readers
    requires !Run(c, Init(ids), events).readers[id].overflowed
    ensures var s := Run(c, Init(ids), events);
            var e := s.readers[id];
            && s.delivered <= |s.log|
            && e.read + e.reader.buffer == WrittenTo(s.log[..s.delivered], id)
            && e.read + e.reader.buffer + WrittenTo(s.log[s.delivered..], id) == WrittenTo(s.log, id)
  {
    RunKeepsInv(c, ids, events);
    var s := Run(c, Init(ids), events);
    WrittenSplit(s.log, s.delivered, id);
  }

  /** End of stream is reported only after an end-of-stream message was delivered and every byte
      delivered on the stream has been read. */
  lemma EofOnlyAfterDrain(c: Codec, ids: set<Seq16>, events: seq<Event>, id: Seq16, n: nat)
    requires Sound(c) && id in Run(c, Init(ids), events).readers
    requires ReadFrom(Run(c, Init(ids), events).readers[id].reader, n) == EndOfStream
    ensures var s := Run(c, Init(ids), events);
            && s.delivered <= |s.log| && EofSent(s.log[..s.delivered], id)
            && (!s.readers[id].overflowed ==> s.readers[id].read == WrittenTo(s.log[..s.delivered], id))
  {
    RunKeepsInv(c, ids, events);
    var e := Run(c, Init(ids), events).readers[id];
    assert e.read + e.reader.buffer == e.read;
  }

  // ---------------------------------------------------------------- when a reader overflows

  /** Bytes delivered on the stream and not read yet. */
  function Unread(s: State, id: Seq16): int {
    if id in s.readers && s.delivered <= |s.log|
    then |WrittenTo(s.log[..s.delivered], id)| - |s.readers[id].read| else 0
  }

  lemma DeliverUnread(c: Codec, s: State, id: Seq16)
    requires Inv(c, s) && id in s.readers && !s.readers[id].overflowed && s.delivered < |s.log|
    requires Unread(s, id) <= 8388608
    ensures var u := DeliverStep(c, s); id in u.readers && (u.readers[id].overflowed <==> Unread(u, id) > 8388608)
  {
    var w := s.log[s.delivered];
    DeliveredTo(c, s, id);
    OneMore(s.log[..s.delivered], w, id);
    assert s.log[..s.delivered + 1] == s.log[..s.delivered] + [w];
    assert EndpointOk(s.readers[id], s.log[..s.delivered], id);
  }

  lemma StepUnread(c: Codec, s: State, e: Event, id: Seq16)
    requires Inv(c, s) && id in s.readers && !s.readers[id].overflowed && Unread(s, id) <= 8388608
    ensures var u := Apply(c, s, e); id in u.readers && (u.readers[id].overflowed <==> Unread(u, id) > 8388608)
  {
    var u := Apply(c, s, e);
    match e
    case Deliver => if s.delivered < |s.log| { DeliverUnread(c, s, id); }
    case Read(other, n) =>
      if other in s.readers { assert |s.readers[other].read| <= |ReadOnce(s.readers[other], n).read|; }
    case _ => assert u.log[..s.delivered] == s.log[..s.delivered];
  }

  lemma StaysOverflowed(c: Codec, s: State, e: Event, id: Seq16)
    requires id in s.readers
    ensures id in Apply(c, s, e).readers
    ensures s.readers[id].overflowed ==> Apply(c, s, e).readers[id].overflowed
  {
  }

  /** The unread bytes of the stream were at most 8 MiB after every event of the run. */
  ghost predicate NeverOver(c: Codec, ids: set<Seq16>, events: seq<Event>, id: Seq16) {
    forall k :: 0 <= k <= |events| ==> Unread(Run(c, Init(ids), events[..k]), id) <= 8388608
  }

  lemma NeverOverSnoc(c: Codec, ids: set<Seq16>, events: seq<Event>, id: Seq16)
    requires events != []
    ensures NeverOver(c, ids, events, id)
            <==> NeverOver(c, ids, events[..|events| - 1], id) && Unread(Run(c, Init(ids), events), id) <= 8388608
  {
    var init := events[..|events| - 1];
    assert events[..|events|] == events;
    assert forall k :: 0 <= k <= |init| ==> init[..k] == events[..k];
    if NeverOver(c, ids, init, id) && Unread(Run(c, Init(ids), events), id) <= 8388608 {
      forall k | 0 <= k <= |events|
        ensures Unread(Run(c, Init(ids), events[..k]), id) <= 8388608
      {
        if k < |events| { assert init[..k] == events[..k]; }
      }
    }
  }

  /** A reader drops data in a run exactly when its unread bytes went over 8 MiB at some point. */
  lemma {:induction false} OverflowedIff(c: Codec, ids: set<Seq16>, events: seq<Event>, id: Seq16)
    requires Sound(c) && id in ids
    ensures id in Run(c, Init(ids), events).readers
    ensures Run(c, Init(ids), events).readers[id].overflowed <==> !NeverOver(c, ids, events, id)
  {
    if events == [] {
      assert events[..0] == [];
    } else {
      var init, e := events[..|events| - 1], events[|events| - 1];
      var s := Run(c, Init(ids), init);
      OverflowedIff(c, ids, init, id);
      NeverOverSnoc(c, ids, events, id);
      RunKeepsInv(c, ids, init);
      StaysOverflowed(c, s, e, id);
      if !s.readers[id].overflowed {
        assert init[..|init|] == init;
        StepUnread(c, s, e, id);
      }
    }
  }

  // ---------------------------------------------------------------- every event does its part

  /** An accepted write over an outlet of nine bytes or more is logged with a prefix of its buffer, one
      byte at least if there is one, and marked as the end exactly after a close; a close logs an
      empty message that ends the stream. */
  lemma WriteLaw(c: Codec, s: State, id: Seq16, compress: bool, q: seq<octet>, reported: int)
    requires Sound(c) && (reported <= 0 || reported >= 9)
    ensures var u := Apply(c, s, Write(id, compress, q, reported, true));
            && |u.log| == |s.log| + 1 && u.log[..|s.log|] == s.log
            && var w := u.log[|s.log|];
               w.streamId == id && w.bytes <= q && (q != [] ==> w.bytes != []) && (w.msg.eof <==> id in s.closed)
    ensures var u := Apply(c, s, CloseWriter(id, compress, reported, true));
            id in u.closed && u.log == s.log + [Written(id, [], StreamData(id, [], true, false))]
  {
    ComposeFaithful(c, id, id in s.closed, compress, q, OutletMDU(reported));
    ComposeFits(c, id, id in s.closed, compress, q, OutletMDU(reported));
  }

  /** A dispatch moves on by one message, and a read hands out as much as there is and is asked for. */
  lemma StepLaw(c: Codec, s: State, id: Seq16, n: nat)
    ensures s.delivered < |s.log| ==> Apply(c, s, Deliver).delivered == s.delivered + 1
    ensures id in s.readers ==>
              var e, r := s.readers[id], Apply(c, s, Read(id, n)).readers[id];
              && r.read + r.reader.buffer == e.read + e.reader.buffer
              && |r.reader.buffer| == |e.reader.buffer| - Smaller(n, |e.reader.buffer|)
  {
    if id in s.readers { ReadOnceKeeps(s.readers[id], n); }
  }
}
