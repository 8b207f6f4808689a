/** The wire envelope of a channel message (`packEnvelope` and the head of `HandleInbound` in
    `pkg/channel/channel.go`): big-endian type, sequence and length, then the body. */
module Envelope {
  import opened ReceiveRing
  import opened Bytes

  const HEADER_SIZE := 6

  datatype Message = Message(msgType: Seq16, body: seq<octet>)

  datatype ParseResult = TooShort | Incomplete | Parsed(env: Rx<Message>)

  datatype PackResult = BodyTooLarge | Packed(raw: seq<octet>)

  function Put16(v: Seq16): seq<octet> {
    [v / 256, v % 256]
  }

  function Get16(data: seq<octet>, at: nat): Seq16
    requires at + 2 <= |data|
  {
    (data[at] as int) * 256 + data[at + 1]
  }

  function Pack(s: Seq16, m: Message): PackResult {
    if |m.body| > SEQ_MAX then BodyTooLarge
    else Packed(Put16(m.msgType) + Put16(s) + Put16(|m.body|) + m.body)
  }

  function Parse(data: seq<octet>): ParseResult {
    if |data| < HEADER_SIZE then TooShort
    else
      var length := Get16(data, 4);
      if |data| < HEADER_SIZE + length then Incomplete
      else Parsed(Rx(Get16(data, 2), Message(Get16(data, 0), data[HEADER_SIZE..HEADER_SIZE + length])))
  }

  lemma Get16Put16(pre: seq<octet>, v: Seq16, post: seq<octet>)
    ensures Get16(pre + Put16(v) + post, |pre|) == v
  {
    var d := pre + Put16(v) + post;
    assert d[|pre|] == v / 256 && d[|pre| + 1] == v % 256;
  }

  lemma Put16Get16(x: seq<octet>)
    requires |x| == 2
    ensures Put16(Get16(x, 0)) == x
  {
  }

  /** The three header fields and what follows them. */
  lemma HeaderFields(t: seq<octet>, q: seq<octet>, l: seq<octet>, rest: seq<octet>)
    requires |t| == |q| == |l| == 2
    ensures var d := t + q + l + rest;
            && |d| == HEADER_SIZE + |rest| && d[HEADER_SIZE..] == rest
            && Get16(d, 0) == Get16(t, 0) && Get16(d, 2) == Get16(q, 0) && Get16(d, 4) == Get16(l, 0)
  {
  }

  lemma ParseFields(t: seq<octet>, q: seq<octet>, l: seq<octet>, body: seq<octet>, trailing: seq<octet>)
    requires |t| == |q| == |l| == 2 && Get16(l, 0) == |body|
    ensures Parse(t + q + l + (body + trailing)) == Parsed(Rx(Get16(q, 0), Message(Get16(t, 0), body)))
  {
    var d := t + q + l + (body + trailing);
    HeaderFields(t, q, l, body + trailing);
    assert d[HEADER_SIZE..HEADER_SIZE + |body|] == d[HEADER_SIZE..][..|body|] == body;
  }

  /** A packed envelope parses back to itself, with any trailing bytes ignored. */
  lemma ParsePack(s: Seq16, m: Message, trailing: seq<octet>)
    requires |m.body| <= SEQ_MAX
    ensures Parse(Pack(s, m).raw + trailing) == Parsed(Rx(s, m))
  {
    var t, q, l := Put16(m.msgType), Put16(s), Put16(|m.body|);
    assert t + q + l + m.body + trailing == t + q + l + (m.body + trailing);
    ParseFields(t, q, l, m.body, trailing);
  }

  lemma SplitHeader(data: seq<octet>, n: nat)
    requires HEADER_SIZE + n <= |data|
    ensures data[0..2] + data[2..4] + data[4..6] + data[HEADER_SIZE..HEADER_SIZE + n] == data[..HEADER_SIZE + n]
    ensures Get16(data, 0) == Get16(data[0..2], 0) && Get16(data, 2) == Get16(data[2..4], 0)
    ensures Get16(data, 4) == Get16(data[4..6], 0)
  {
  }

  /** Whatever parses is a packed envelope followed by ignored bytes: parsing loses nothing. */
  lemma PackParse(data: seq<octet>)
    requires Parse(data).Parsed?
    ensures var env := Parse(data).env;
            |env.message.body| <= SEQ_MAX && Pack(env.sequence, env.message).raw <= data
  {
    SplitHeader(data, Get16(data, 4));
    Put16Get16(data[0..2]);
    Put16Get16(data[2..4]);
    Put16Get16(data[4..6]);
  }

  /** The bytes of an envelope: type, sequence and length, each with the high byte first, and the
      body. */
  lemma WireLayout(s: Seq16, m: Message)
    ensures Pack(s, m).BodyTooLarge? <==> |m.body| > 65535
    ensures |m.body| <= 65535 ==>
              Pack(s, m).raw ==
                [m.msgType / 256, m.msgType % 256, s / 256, s % 256, |m.body| / 256, |m.body| % 256] + m.body
  {
    if |m.body| <= 65535 {
      var t, q, l := Put16(m.msgType), Put16(s), Put16(|m.body|);
      assert t + q + l == [m.msgType / 256, m.msgType % 256, s / 256, s % 256, |m.body| / 256, |m.body| % 256];
    }
  }

  /** What does not parse: less than a header, or less than the header promises. */
  lemma NotParsed(data: seq<octet>)
    ensures Parse(data) == TooShort <==> |data| < 6
    ensures Parse(data) == Incomplete <==> |data| >= 6 && |data| < 6 + (data[4] as int) * 256 + data[5]
  {
  }
}
