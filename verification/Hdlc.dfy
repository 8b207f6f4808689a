/** The backbone framing of `pkg/backbone/hdlc.go`: octet stuffing as in section 4.2 of
    RFC 1662, an incremental byte-at-a-time decoder, and the chunked decoder that must
    agree with it. */
module Hdlc {
  import opened Bytes

  const FLAG: octet := 0x7E
  const ESC: octet := 0x7D
  const HEADER_MIN_SIZE := 19

  // ---------------------------------------------------------------- encoder

  /** `b ^ 0x20`: toggles bit 5. */
  function Toggle(b: octet): octet {
    if b / 32 % 2 == 1 then b - 32 else b + 32
  }

  function EscapeByte(b: octet): seq<octet> {
    if b == FLAG || b == ESC then [ESC, Toggle(b)] else [b]
  }

  function Escape(data: seq<octet>): seq<octet> {
    if data == [] then []
    else Escape(data[..|data| - 1]) + EscapeByte(data[|data| - 1])
  }

  function Frame(payload: seq<octet>): seq<octet> {
    [FLAG] + Escape(payload) + [FLAG]
  }

  /** The bytes a sender puts on the stream for a list of payloads. */
  function FrameAll(payloads: seq<seq<octet>>): seq<octet> {
    if payloads == [] then []
    else FrameAll(payloads[..|payloads| - 1]) + Frame(payloads[|payloads| - 1])
  }

  method AppendEscape(dst: seq<octet>, data: seq<octet>) returns (r: seq<octet>)
    ensures r == dst + Escape(data)
  {
    r := dst;
    for i := 0 to |data|
      invariant r == dst + Escape(data[..i])
    {
      assert data[..i + 1][..i] == data[..i];
      if data[i] == FLAG || data[i] == ESC {
        r := r + [ESC, Toggle(data[i])];
      } else {
        r := r + [data[i]];
      }
    }
    assert data[..|data|] == data;
  }

  method AppendFrame(dst: seq<octet>, payload: seq<octet>) returns (r: seq<octet>)
    ensures r == dst + Frame(payload)
  {
    r := AppendEscape(dst + [FLAG], payload);
    r := r + [FLAG];
  }

  // ---------------------------------------------------------------- decoder as a value

  /** What a decoder is configured with: the MTU and whether a packet callback is installed. */
  datatype Config = Config(mtu: int, hasHandler: bool) {
    function MaxFrame(): (m: int)
      ensures m >= 256 && (mtu >= 256 ==> m == mtu)
      ensures 0 < mtu ==> mtu <= m
    {
      if mtu < 256 then 2048 else mtu
    }

    /** `emit` hands the payload to the callback. */
    predicate Emits(n: nat) {
      hasHandler && HEADER_MIN_SIZE < n && (mtu > 0 ==> n <= mtu)
    }
  }

  /** Decoder state together with every packet handed to the callback so far. */
  datatype Decoder = Decoder(inFrame: bool, escape: bool, data: seq<octet>, packets: seq<seq<octet>>)

  const IDLE := Decoder(false, false, [], [])

  ghost predicate Valid(c: Config, d: Decoder) {
    && (d.escape ==> d.inFrame)
    && (!d.inFrame ==> d.data == [])
    && |d.data| <= c.MaxFrame()
  }

  function Emit(c: Config, d: Decoder): Decoder {
    if c.Emits(|d.data|) then d.(data := [], packets := d.packets + [d.data])
    else d.(data := [])
  }

  function Drop(d: Decoder): Decoder {
    d.(inFrame := false, escape := false, data := [])
  }

  /** `feedByte`, the reference decoder. */
  function StepByte(c: Config, d: Decoder, b: octet): Decoder {
    if b == FLAG then
      var e := if d.inFrame && |d.data| > 0 then Emit(c, d) else d;
      e.(inFrame := !d.inFrame, escape := false)
    else if !d.inFrame then d
    else if b == ESC then d.(escape := true)
    else if |d.data| >= c.MaxFrame() then Drop(d)
    else d.(escape := false, data := d.data + [if d.escape then Toggle(b) else b])
  }

  function FeedAll(c: Config, d: Decoder, bytes: seq<octet>): Decoder {
    if bytes == [] then d
    else StepByte(c, FeedAll(c, d, bytes[..|bytes| - 1]), bytes[|bytes| - 1])
  }

  // ---------------------------------------------------------------- laws of the reference decoder

  /** Feeding in two chunks is feeding the concatenation. */
  lemma {:induction false} FeedAppend(c: Config, d: Decoder, a: seq<octet>, b: seq<octet>)
    ensures FeedAll(c, d, a + b) == FeedAll(c, FeedAll(c, d, a), b)
  {
    if b == [] {
      assert a + b == a;
    } else {
      FeedAppend(c, d, a, b[..|b| - 1]);
      assert (a + b)[..|a + b| - 1] == a + b[..|b| - 1];
    }
  }

  lemma FeedOne(c: Config, d: Decoder, b: octet, rest: seq<octet>)
    ensures FeedAll(c, d, [b]) == StepByte(c, d, b)
    ensures FeedAll(c, d, [b] + rest) == FeedAll(c, StepByte(c, d, b), rest)
  {
    assert [b][..0] == [];
    FeedAppend(c, d, [b], rest);
  }

  /** Every reachable decoder state is valid, and packets already handed out are never revoked. */
  lemma {:induction false} FeedKeepsValid(c: Config, d: Decoder, bytes: seq<octet>)
    requires Valid(c, d)
    ensures Valid(c, FeedAll(c, d, bytes))
    ensures d.packets <= FeedAll(c, d, bytes).packets
  {
    if bytes != [] {
      FeedKeepsValid(c, d, bytes[..|bytes| - 1]);
    }
  }

  // ---------------------------------------------------------------- the chunked decoder

  predicate Plain(run: seq<octet>) {
    forall i :: 0 <= i < |run| ==> run[i] != FLAG && run[i] != ESC
  }

  /** Outside a frame everything but a flag is skipped. */
  lemma {:induction false} SkipOutsideFrame(c: Config, d: Decoder, run: seq<octet>)
    requires !d.inFrame && FLAG !in run
    ensures FeedAll(c, d, run) == d
  {
    if run != [] {
      SkipOutsideFrame(c, d, run[..|run| - 1]);
      assert run[|run| - 1] in run;
    }
  }

  function AppendRunSpec(c: Config, d: Decoder, run: seq<octet>): Decoder {
    if |d.data| + |run| > c.MaxFrame() then Drop(d) else d.(data := d.data + run)
  }

  /** `appendRun` is `feedByte` on each byte of a non-empty run without flags or escapes. */
  lemma {:induction false} RunIsBytewise(c: Config, d: Decoder, run: seq<octet>)
    requires d.inFrame && !d.escape && Plain(run) && |d.data| <= c.MaxFrame()
    ensures FeedAll(c, d, run) == AppendRunSpec(c, d, run)
  {
    if run == [] {
      assert d.data + run == d.data;
    } else {
      var init := run[..|run| - 1];
      RunIsBytewise(c, d, init);
      assert d.data + init + [run[|run| - 1]] == d.data + run by { assert run == init + [run[|run| - 1]]; }
    }
  }

  lemma ConsumeByte(c: Config, d: Decoder, buf: seq<octet>)
    requires |buf| > 0
    ensures FeedAll(c, d, buf) == FeedAll(c, StepByte(c, d, buf[0]), buf[1..])
  {
    FeedOne(c, d, buf[0], buf[1..]);
    assert buf == [buf[0]] + buf[1..];
  }

  lemma ConsumeToFlag(c: Config, d: Decoder, buf: seq<octet>, i: nat)
    requires !d.inFrame && i < |buf| && FLAG !in buf[..i]
    ensures FeedAll(c, d, buf) == FeedAll(c, StepByte(c, d, buf[i]), buf[i + 1..])
  {
    SkipOutsideFrame(c, d, buf[..i]);
    assert buf == buf[..i] + ([buf[i]] + buf[i + 1..]);
    FeedAppend(c, d, buf[..i], [buf[i]] + buf[i + 1..]);
    FeedOne(c, d, buf[i], buf[i + 1..]);
  }

  lemma ConsumeRun(c: Config, d: Decoder, buf: seq<octet>, n: nat)
    requires d.inFrame && !d.escape && |d.data| <= c.MaxFrame()
    requires n <= |buf| && Plain(buf[..n])
    ensures FeedAll(c, d, buf) == FeedAll(c, AppendRunSpec(c, d, buf[..n]), buf[n..])
  {
    RunIsBytewise(c, d, buf[..n]);
    FeedAppend(c, d, buf[..n], buf[n..]);
    assert buf == buf[..n] + buf[n..];
  }

  method IndexByte(buf: seq<octet>, b: octet) returns (i: int)
    ensures i < 0 ==> b !in buf
    ensures i >= 0 ==> i < |buf| && buf[i] == b && b !in buf[..i]
  {
    i := 0;
    while i < |buf|
      invariant 0 <= i <= |buf|
      invariant b !in buf[..i]
    {
      if buf[i] == b { return; }
      i := i + 1;
    }
    i := -1;
  }

  class HDLCDecoder {
    const config: Config
    const maxFrame: int
    var inFrame: bool
    var escape: bool
    var data: seq<octet>
    var packets: seq<seq<octet>>  // arguments of every onPacket call, in order

    ghost function State(): Decoder
      reads this
    {
      Decoder(inFrame, escape, data, packets)
    }

    ghost predicate Ok()
      reads this
    {
      maxFrame == config.MaxFrame() && Valid(config, State())
    }

    constructor (mtu: int, hasHandler: bool)
      ensures Ok() && State() == IDLE && config == Config(mtu, hasHandler)
    {
      config := Config(mtu, hasHandler);
      maxFrame := if mtu < 256 then 2048 else mtu;
      inFrame, escape, data, packets := false, false, [], [];
    }

    /** The chunked loop leaves exactly the state, and makes exactly the callback calls, of
        the byte-at-a-time decoder. */
    method Feed(input: seq<octet>)
      requires Ok()
      modifies this
      ensures Ok()
      ensures State() == FeedAll(config, old(State()), input)
      ensures old(packets) <= packets
    {
      var buf := input;
      FeedKeepsValid(config, State(), input);
      while |buf| > 0
        invariant Ok()
        invariant FeedAll(config, State(), buf) == FeedAll(config, old(State()), input)
        decreases |buf|
      {
        if escape {
          ConsumeByte(config, State(), buf);
          FeedByte(buf[0]);
          buf := buf[1..];
          continue;
        }
        if !inFrame {
          var i := IndexByte(buf, FLAG);
          if i < 0 {
            SkipOutsideFrame(config, State(), buf);
            return;
          }
          ConsumeToFlag(config, State(), buf, i);
          FeedByte(buf[i]);
          buf := buf[i + 1..];
          continue;
        }
        var iFlag := IndexByte(buf, FLAG);
        var iEsc := IndexByte(buf, ESC);
        var next := |buf|;
        if iFlag >= 0 && iFlag < next { next := iFlag; }
        if iEsc >= 0 && iEsc < next { next := iEsc; }
        if next > 0 {
          PlainBefore(buf, iFlag, iEsc, next);
          ConsumeRun(config, State(), buf, next);
          AppendRun(buf[..next]);
          buf := buf[next..];
          continue;
        }
        ConsumeByte(config, State(), buf);
        FeedByte(buf[0]);
        buf := buf[1..];
      }
    }

    method AppendRun(run: seq<octet>)
      requires Ok() && inFrame && !escape && |run| > 0
      modifies this
      ensures Ok()
      ensures State() == AppendRunSpec(config, old(State()), run)
    {
      var room := maxFrame - |data|;
      if room <= 0 || |run| > room {
        data, inFrame, escape := [], false, false;
        return;
      }
      data := data + run;
    }

    method FeedByte(b: octet)
      requires Ok()
      modifies this
      ensures Ok()
      ensures State() == StepByte(config, old(State()), b)
    {
      if b == FLAG {
        if inFrame && |data| > 0 { EmitPacket(); }
        inFrame, escape := !inFrame, false;
        return;
      }
      if !inFrame { return; }
      if b == ESC {
        escape := true;
        return;
      }
      var v := b;
      if escape {
        v := Toggle(b);
        escape := false;
      }
      if |data| >= maxFrame {
        data, inFrame, escape := [], false, false;
        return;
      }
      data := data + [v];
    }

    method EmitPacket()
      modifies this
      ensures State() == Emit(config, old(State()))
    {
      if !config.hasHandler || |data| == 0 {
        data := [];
        return;
      }
      if |data| <= HEADER_MIN_SIZE || (config.mtu > 0 && |data| > config.mtu) {
        data := [];
        return;
      }
      packets := packets + [data];
      data := [];
    }

    method Reset()
      requires Ok()
      modifies this
      ensures Ok() && State() == IDLE.(packets := old(packets))
    {
      inFrame, escape, data := false, false, [];
    }
  }

  lemma PlainBefore(buf: seq<octet>, iFlag: int, iEsc: int, next: nat)
    requires next <= |buf|
    requires iFlag < 0 ==> FLAG !in buf
    requires iFlag >= 0 ==> next <= iFlag < |buf| && FLAG !in buf[..iFlag]
    requires iEsc < 0 ==> ESC !in buf
    requires iEsc >= 0 ==> next <= iEsc < |buf| && ESC !in buf[..iEsc]
    ensures Plain(buf[..next])
  {
    forall i | 0 <= i < next
      ensures buf[i] != FLAG && buf[i] != ESC
    {
      assert iFlag >= 0 ==> buf[..iFlag][i] == buf[i];
      assert iEsc >= 0 ==> buf[..iEsc][i] == buf[i];
    }
  }

  // ---------------------------------------------------------------- round trip

  lemma {:induction false} EscapeHasNoFlag(data: seq<octet>)
    ensures FLAG !in Escape(data)
  {
    if data != [] {
      EscapeHasNoFlag(data[..|data| - 1]);
    }
  }

  lemma UnstuffBits(b: octet)
    requires b == FLAG || b == ESC
    ensures Toggle(b) != FLAG && Toggle(b) != ESC && Toggle(Toggle(b)) == b
  {
  }

  function PushByte(c: Config, d: Decoder, b: octet): Decoder {
    if !d.inFrame then d
    else if |d.data| >= c.MaxFrame() then Drop(d)
    else d.(data := d.data + [b])
  }

  lemma DecodeEscapedByte(c: Config, d: Decoder, b: octet)
    requires !d.escape && (!d.inFrame ==> d.data == [])
    ensures FeedAll(c, d, EscapeByte(b)) == PushByte(c, d, b)
  {
    if b == FLAG || b == ESC {
      var e := Toggle(b);
      UnstuffBits(b);
      assert [ESC, e] == [ESC] + [e];
      FeedOne(c, d, ESC, [e]);
      FeedOne(c, StepByte(c, d, ESC), e, []);
    } else {
      FeedOne(c, d, b, []);
    }
  }

  lemma EscapeSnoc(data: seq<octet>, b: octet)
    ensures Escape(data + [b]) == Escape(data) + EscapeByte(b)
  {
    assert (data + [b])[..|data + [b]| - 1] == data;
  }

  /** Inside a frame with room, the escaped payload decodes to the payload; without room the
      frame is abandoned. */
  lemma {:induction false} DecodeEscaped(c: Config, d: Decoder, data: seq<octet>)
    requires d.inFrame && !d.escape && d.data == []
    ensures FeedAll(c, d, Escape(data)) ==
            if |data| <= c.MaxFrame() then d.(data := data) else Drop(d)
  {
    if data != [] {
      var init, b := data[..|data| - 1], data[|data| - 1];
      DecodeEscaped(c, d, init);
      assert data == init + [b];
      EscapeSnoc(init, b);
      FeedAppend(c, d, Escape(init), EscapeByte(b));
      DecodeEscapedByte(c, if |init| <= c.MaxFrame() then d.(data := init) else Drop(d), b);
    }
  }

  /** What one complete frame does to a decoder that is between frames.  An over-long payload
      leaves the decoder *inside* a frame although the stream is between frames. */
  lemma {:induction false} FrameFromIdle(c: Config, d: Decoder, p: seq<octet>)
    requires d == IDLE.(packets := d.packets)
    ensures FeedAll(c, d, Frame(p)) ==
            if |p| > c.MaxFrame() then d.(inFrame := true)
            else if c.Emits(|p|) then d.(packets := d.packets + [p])
            else d
  {
    var inside := d.(inFrame := true);
    assert Frame(p) == [FLAG] + (Escape(p) + [FLAG]);
    FeedOne(c, d, FLAG, Escape(p) + [FLAG]);
    FeedAppend(c, inside, Escape(p), [FLAG]);
    DecodeEscaped(c, inside, p);
    FeedOne(c, FeedAll(c, inside, Escape(p)), FLAG, []);
  }

  /** A decoder that is inside an empty frame while the sender is between frames swallows the
      next frame whole and is left in the same state. */
  lemma {:induction false} FrameFromDesync(c: Config, d: Decoder, p: seq<octet>)
    requires d.inFrame && !d.escape && d.data == []
    ensures FeedAll(c, d, Frame(p)) == d
  {
    var closed := d.(inFrame := false);
    assert Frame(p) == [FLAG] + (Escape(p) + [FLAG]);
    FeedOne(c, d, FLAG, Escape(p) + [FLAG]);
    FeedAppend(c, closed, Escape(p), [FLAG]);
    EscapeHasNoFlag(p);
    SkipOutsideFrame(c, closed, Escape(p));
    FeedOne(c, closed, FLAG, []);
  }

  /** The frames that fit the assembler, up to the first that does not. */
  function FittingPrefix(c: Config, ps: seq<seq<octet>>): seq<seq<octet>> {
    if ps == [] then []
    else
      var init := FittingPrefix(c, ps[..|ps| - 1]);
      if |init| == |ps| - 1 && |ps[|ps| - 1]| <= c.MaxFrame() then init + [ps[|ps| - 1]] else init
  }

  function Emitted(c: Config, ps: seq<seq<octet>>): seq<seq<octet>> {
    if ps == [] then []
    else Emitted(c, ps[..|ps| - 1]) + (if c.Emits(|ps[|ps| - 1]|) then [ps[|ps| - 1]] else [])
  }

  /** Exactly what a peer hands to its callback for any list of payloads: the emittable ones of
      the list cut at the first over-long payload.  Everything after that one is lost. */
  lemma {:induction false} DecodeStream(c: Config, ps: seq<seq<octet>>)
    ensures |FittingPrefix(c, ps)| <= |ps|
    ensures FeedAll(c, IDLE, FrameAll(ps)) ==
            Decoder(|FittingPrefix(c, ps)| < |ps|, false, [], Emitted(c, FittingPrefix(c, ps)))
  {
    if ps != [] {
      var init, p := ps[..|ps| - 1], ps[|ps| - 1];
      DecodeStream(c, init);
      FeedAppend(c, IDLE, FrameAll(init), Frame(p));
      var d := FeedAll(c, IDLE, FrameAll(init));
      if |FittingPrefix(c, init)| < |init| {
        FrameFromDesync(c, d, p);
      } else {
        FrameFromIdle(c, d, p);
        var f := FittingPrefix(c, init);
        assert (f + [p])[..|f + [p]| - 1] == f;
      }
    }
  }

  ghost predicate AllFit(c: Config, ps: seq<seq<octet>>) {
    forall i :: 0 <= i < |ps| ==> |ps[i]| <= c.MaxFrame()
  }

  lemma {:induction false} FittingPrefixWhole(c: Config, ps: seq<seq<octet>>)
    ensures |FittingPrefix(c, ps)| <= |ps|
    ensures AllFit(c, ps) <==> FittingPrefix(c, ps) == ps
    ensures AllFit(c, ps) <==> |FittingPrefix(c, ps)| == |ps|
  {
    if ps != [] {
      var init, p := ps[..|ps| - 1], ps[|ps| - 1];
      FittingPrefixWhole(c, init);
      assert ps == init + [p];
      assert AllFit(c, ps) <==> AllFit(c, init) && |p| <= c.MaxFrame();
    }
  }

  /** The decoder is back between frames after a stream exactly when no payload was longer than
      the assembler. */
  lemma ResyncIff(c: Config, ps: seq<seq<octet>>)
    ensures !FeedAll(c, IDLE, FrameAll(ps)).inFrame <==> AllFit(c, ps)
  {
    DecodeStream(c, ps);
    FittingPrefixWhole(c, ps);
  }

  /** One over-long payload silences the stream for good, whatever is sent afterwards. */
  lemma SilentAfterOverlong(c: Config, before: seq<seq<octet>>, big: seq<octet>, after: seq<seq<octet>>)
    requires |big| > c.MaxFrame()
    ensures FeedAll(c, IDLE, FrameAll(before + [big] + after)).packets ==
            FeedAll(c, IDLE, FrameAll(before)).packets
  {
    FittingCut(c, before, big, after);
    DecodeStream(c, before);
    DecodeStream(c, before + [big] + after);
  }

  lemma {:induction false} FittingCut(c: Config, before: seq<seq<octet>>, big: seq<octet>, after: seq<seq<octet>>)
    requires |big| > c.MaxFrame()
    ensures FittingPrefix(c, before + [big] + after) == FittingPrefix(c, before)
  {
    FittingPrefixWhole(c, before);
    if after == [] {
      assert before + [big] + after == before + [big];
      assert (before + [big])[..|before|] == before;
    } else {
      var init := after[..|after| - 1];
      FittingCut(c, before, big, init);
      assert (before + [big] + after)[..|before + [big] + after| - 1] == before + [big] + init;
    }
  }

  ghost predicate Deliverable(c: Config, ps: seq<seq<octet>>) {
    forall i :: 0 <= i < |ps| ==> c.Emits(|ps[i]|) && |ps[i]| <= c.MaxFrame()
  }

  lemma {:induction false} EmittedWhole(c: Config, ps: seq<seq<octet>>)
    requires Deliverable(c, ps)
    ensures Emitted(c, ps) == ps
  {
    if ps != [] {
      var init, last := ps[..|ps| - 1], ps[|ps| - 1];
      EmittedWhole(c, init);
      assert Emitted(c, ps) == init + [last] == ps;
    }
  }

  lemma {:induction false} EmittedAll(c: Config, ps: seq<seq<octet>>)
    ensures |Emitted(c, ps)| <= |ps|
    ensures |Emitted(c, ps)| == |ps| ==> forall i :: 0 <= i < |ps| ==> c.Emits(|ps[i]|)
  {
    if ps != [] { EmittedAll(c, ps[..|ps| - 1]); }
  }

  /** The peer is handed exactly the payloads that were sent, in order, if and only if each has 20
      bytes up to the MTU and fits the assembler. */
  lemma RoundTripIff(c: Config, ps: seq<seq<octet>>)
    ensures FeedAll(c, IDLE, FrameAll(ps)).packets == ps <==> Deliverable(c, ps)
  {
    DecodeStream(c, ps);
    FittingPrefixWhole(c, ps);
    if Deliverable(c, ps) { EmittedWhole(c, ps); }
    EmittedAll(c, FittingPrefix(c, ps));
  }

  // ---------------------------------------------------------------- in numbers

  /** The stuffing of section 4.2 of RFC 1662, with the two octets that it changes. */
  lemma StuffedByte(b: octet)
    ensures EscapeByte(b) == if b == 0x7E then [0x7D, 0x5E] else if b == 0x7D then [0x7D, 0x5D] else [b]
  {
  }

  function Specials(data: seq<octet>): nat {
    if data == [] then 0
    else Specials(data[..|data| - 1]) + if data[|data| - 1] == 0x7E || data[|data| - 1] == 0x7D then 1 else 0
  }

  /** A frame costs two flags and one octet for each special one; it starts and ends with a flag and
      has none inside. */
  lemma {:induction false} FrameShape(p: seq<octet>)
    ensures |Frame(p)| == |p| + Specials(p) + 2 && |Escape(p)| == |p| + Specials(p)
    ensures Frame(p)[0] == Frame(p)[|Frame(p)| - 1] == 0x7E
    ensures forall i :: 0 < i < |Frame(p)| - 1 ==> Frame(p)[i] != 0x7E
  {
    if p != [] { FrameShape(p[..|p| - 1]); }
    EscapeHasNoFlag(p);
    assert forall i :: 0 < i < |Frame(p)| - 1 ==> Frame(p)[i] == Escape(p)[i - 1];
  }

  /** Which payloads arrive, by the MTU: 20 bytes to the MTU, and to 2048 bytes if it is not positive. */
  lemma DeliverableIff(c: Config, p: seq<octet>)
    requires c.hasHandler
    ensures c.Emits(|p|) && |p| <= c.MaxFrame() <==> 20 <= |p| <= if c.mtu > 0 then c.mtu else 2048
    ensures c.MaxFrame() == if c.mtu < 256 then 2048 else c.mtu
  {
  }

  /** What the octets of a flag-free stretch inside a frame stand for: an escape toggles bit 5 of the
      next octet that is not an escape itself, and one at the end stands for nothing. */
  function Unstuffed(seg: seq<octet>): seq<octet> {
    if seg == [] then []
    else if seg[0] != 0x7D then [seg[0]] + Unstuffed(seg[1..])
    else if |seg| == 1 then []
    else if seg[1] == 0x7D then Unstuffed(seg[1..])
    else [Xor(seg[1], 0x20)] + Unstuffed(seg[2..])
  }

  lemma FifthBit(b: octet)
    ensures Bit(b, 5) == b / 32 % 2 && Pow2(5) == 32
  {
    assert Bit(b, 5) == Bit(b / 2, 4) == Bit(b / 2 / 2, 3) == Bit(b / 2 / 2 / 2, 2);
    assert Bit(b / 2 / 2 / 2, 2) == Bit(b / 2 / 2 / 2 / 2, 1) == b / 2 / 2 / 2 / 2 / 2 % 2;
    assert Pow2(3) == 8;
  }

  lemma ToggleIsXor(b: octet)
    ensures Toggle(b) == Xor(b, 0x20)
  {
    OctetBits();
    FifthBit(b);
    XorPow(b, 5, BITS);
  }

  /** What a stretch leaves behind: its octets added, or the frame abandoned. */
  ghost predicate ReadAs(c: Config, d: Decoder, u: Decoder, octets: seq<octet>) {
    if |d.data| + |octets| <= c.MaxFrame() then u == d.(data := d.data + octets, escape := u.escape)
    else u == Drop(d)
  }

  lemma ReadAsCons(c: Config, d: Decoder, v: octet, u: Decoder, rest: seq<octet>)
    requires d.inFrame && |d.data| <= c.MaxFrame()
    requires |d.data| < c.MaxFrame() ==> ReadAs(c, d.(escape := false, data := d.data + [v]), u, rest)
    requires |d.data| == c.MaxFrame() ==> u == Drop(d)
    ensures ReadAs(c, d, u, [v] + rest)
  {
    assert d.data + [v] + rest == d.data + ([v] + rest);
  }

  lemma TailHasNoFlag(seg: seq<octet>)
    requires seg != [] && FLAG !in seg
    ensures FLAG !in seg[1..] && seg[0] != FLAG
  {
  }

  /** A decoder inside a frame reads any flag-free stretch as the octets it stands for, however it is
      escaped, as long as they fit the assembler; if they do not, the frame is abandoned. */
  lemma {:induction false} SegmentDecoded(c: Config, d: Decoder, seg: seq<octet>)
    requires d.inFrame && |d.data| <= c.MaxFrame() && FLAG !in seg
    ensures ReadAs(c, d, FeedAll(c, d, seg), if d.escape then Unstuffed([0x7D] + seg) else Unstuffed(seg))
    decreases |seg|
  {
    if seg == [] {
      assert d.data + [] == d.data;
    } else {
      TailHasNoFlag(seg);
      ConsumeByte(c, d, seg);
      var b, rest := seg[0], seg[1..];
      var e := StepByte(c, d, b);
      assert ([0x7D] + seg)[1..] == seg && ([0x7D] + seg)[2..] == rest;
      if b == ESC {
        assert [0x7D] + rest == seg;
        SegmentDecoded(c, e, rest);
      } else {
        ToggleIsXor(b);
        if |d.data| >= c.MaxFrame() {
          SkipOutsideFrame(c, Drop(d), rest);
        } else {
          SegmentDecoded(c, e, rest);
        }
        ReadAsCons(c, d, if d.escape then Toggle(b) else b, FeedAll(c, d, seg), Unstuffed(rest));
      }
    }
  }
}
