/** Announce packets (`pkg/announce/announce.go`): the printer `CreatePacket` and the parser inside
    `HandleAnnounce`, over abstract hash and signature functions. */
module Announce {
  import opened Wrappers
  import opened Bytes

  const MAX_HOPS: octet := 128
  const PACKET_MTU := 500
  const HEADER_SIZE := 2
  const ADDR_HASH_SIZE := 16
  const HEADER_TYPE1_OFFSET := 19
  const HEADER_TYPE2_OFFSET := 35
  const KEY_HALF := 32
  const PUB_KEY_SIZE := 64
  const NAME_HASH_SIZE := 10
  const RANDOM_HASH_SIZE := 10
  const RATCHET_SIZE := 32
  const SIGNATURE_SIZE := 64
  const MIN_PACKET := 167

  const IFAC_NONE: octet := 0
  const HEADER_TYPE1: octet := 0
  const PROP_TYPE_BROADCAST: octet := 0
  const DEST_TYPE_SINGLE: octet := 0
  const PACKET_TYPE_ANNOUNCE: octet := 0x01
  const PATH_RESPONSE: octet := 0x0B

  // ---------------------------------------------------------------- printing

  /** What an announce says; `ratchet` is empty when there is none. */
  datatype Body = Body(destHash: seq<octet>, pubKey: seq<octet>, nameHash: seq<octet>, randomHash: seq<octet>,
                       ratchet: seq<octet>, appData: seq<octet>)

  predicate WellSized(b: Body) {
    && |b.destHash| == ADDR_HASH_SIZE && |b.pubKey| == PUB_KEY_SIZE
    && |b.nameHash| == NAME_HASH_SIZE && |b.randomHash| == RANDOM_HASH_SIZE
    && (|b.ratchet| == 0 || |b.ratchet| == RATCHET_SIZE)
  }

  function CreateHeader(ifac: octet, headerType: octet, contextFlag: octet, propType: octet, destType: octet,
                        packetType: octet, hops: octet): seq<octet> {
    var high := Or(Or(ifac, headerType * 64 % 256), contextFlag * 32 % 256);
    [Or(Or(Or(high, propType * 16 % 256), destType * 4 % 256), packetType), hops]
  }

  function BuiltHeader(ratchet: bool, hops: octet): seq<octet> {
    CreateHeader(IFAC_NONE, HEADER_TYPE1, if ratchet then 1 else 0, PROP_TYPE_BROADCAST, DEST_TYPE_SINGLE,
                 PACKET_TYPE_ANNOUNCE, hops)
  }

  /** The byte string that is signed. */
  function Signed(b: Body): seq<octet> {
    b.destHash + b.pubKey + b.nameHash + b.randomHash + b.ratchet + b.appData
  }

  function Payload(b: Body, signature: seq<octet>): seq<octet> {
    b.pubKey + b.nameHash + b.randomHash + b.ratchet + signature + b.appData
  }

  datatype Built = SignError | Oversize | Packet(bytes: seq<octet>)

  /** `CreatePacket`: the signature is whatever the identity's signer returns for the signed
      string.  A destination hash is cut to 16 bytes and a ratchet of any size but 32 left out. */
  function CreatePacket(b: Body, pathResponse: bool, hops: octet, sign: seq<octet> -> Option<seq<octet>>): Built {
    var destHash := if |b.destHash| > ADDR_HASH_SIZE then b.destHash[..ADDR_HASH_SIZE] else b.destHash;
    var d := b.(destHash := destHash, ratchet := if |b.ratchet| == RATCHET_SIZE then b.ratchet else []);
    var context := if pathResponse then PATH_RESPONSE else 0;
    var header := BuiltHeader(|d.ratchet| > 0, hops);
    match sign(Signed(d))
    case None => SignError
    case Some(signature) =>
      var packet := header + d.destHash + [context] + Payload(d, signature);
      if |packet| > PACKET_MTU then Oversize else Packet(packet)
  }

  /** The signer signs this announce with a 64-byte signature. */
  ghost predicate Signs(sign: seq<octet> -> Option<seq<octet>>, b: Body, signature: seq<octet>) {
    sign(Signed(b)) == Some(signature) && |signature| == SIGNATURE_SIZE
  }

  predicate Fits(b: Body) { |b.appData| <= if b.ratchet == [] then 333 else 301 }

  /** With well-sized fields a packet is built exactly when the application data is at most 333
      bytes, or 301 with a ratchet. */
  lemma BuiltIff(b: Body, pathResponse: bool, hops: octet, sign: seq<octet> -> Option<seq<octet>>,
                 signature: seq<octet>)
    requires WellSized(b) && Signs(sign, b, signature)
    ensures CreatePacket(b, pathResponse, hops, sign).Packet? <==> Fits(b)
  {
  }

  // ---------------------------------------------------------------- parsing

  datatype Parsed =
    | TooShort | NotAnnounce | TooManyHops | PayloadTooShort
    | Fields(header: seq<octet>, transportId: seq<octet>, context: octet, body: Body, signature: seq<octet>)

  /** Bits 0 and 1. */
  predicate IsAnnounce(flags: octet) { flags % 4 == PACKET_TYPE_ANNOUNCE }

  /** Bit 5, the context flag. */
  predicate HasRatchet(flags: octet) { flags / 32 % 2 == 1 }

  /** Bit 6. */
  predicate IsType2(flags: octet) { flags / 64 % 2 == 1 }

  function MinPayload(flags: octet): nat {
    PUB_KEY_SIZE + NAME_HASH_SIZE + RANDOM_HASH_SIZE + SIGNATURE_SIZE + if HasRatchet(flags) then RATCHET_SIZE else 0
  }

  function Parse(data: seq<octet>): Parsed {
    if |data| < MIN_PACKET then TooShort
    else if !IsAnnounce(data[0]) then NotAnnounce
    else if data[1] >= MAX_HOPS then TooManyHops
    else
      var off := if IsType2(data[0]) then HEADER_TYPE2_OFFSET else HEADER_TYPE1_OFFSET;
      var p := data[off..];
      if |p| < MinPayload(data[0]) then PayloadTooShort
      else
        var r := if HasRatchet(data[0]) then RATCHET_SIZE else 0;
        Fields(data[..HEADER_SIZE], data[HEADER_SIZE..off - 1 - ADDR_HASH_SIZE], data[off - 1],
               Body(data[off - 1 - ADDR_HASH_SIZE..off - 1], p[..64], p[64..74], p[74..84], p[84..84 + r],
                    p[84 + r + SIGNATURE_SIZE..]),
               p[84 + r..84 + r + SIGNATURE_SIZE])
  }

  lemma PayloadPieces(p: seq<octet>, r: nat)
    requires |p| >= 84 + r + SIGNATURE_SIZE
    ensures p == p[..64] + p[64..74] + p[74..84] + p[84..84 + r] + p[84 + r..84 + r + SIGNATURE_SIZE]
                 + p[84 + r + SIGNATURE_SIZE..]
  {
    assert p[..64] + p[64..74] == p[..74];
    assert p[..74] + p[74..84] == p[..84];
    assert p[..84] + p[84..84 + r] == p[..84 + r];
    assert p[..84 + r] + p[84 + r..84 + r + SIGNATURE_SIZE] == p[..84 + r + SIGNATURE_SIZE];
  }

  /** Parsing loses nothing: the fields, put back in wire order, are the packet. */
  lemma ParseLosesNothing(data: seq<octet>)
    requires Parse(data).Fields?
    ensures var f := Parse(data);
            && WellSized(f.body) && |f.signature| == SIGNATURE_SIZE
            && data == f.header + f.transportId + f.body.destHash + [f.context] + Payload(f.body, f.signature)
  {
    var f := Parse(data);
    var off := if IsType2(data[0]) then HEADER_TYPE2_OFFSET else HEADER_TYPE1_OFFSET;
    PayloadPieces(data[off..], |f.body.ratchet|);
    assert data[..off] == f.header + f.transportId + f.body.destHash + [f.context];
    assert data == data[..off] + data[off..];
  }

  lemma FieldsOf(head: seq<octet>, b: Body, signature: seq<octet>)
    requires WellSized(b) && |signature| == SIGNATURE_SIZE
    ensures var p, r := Payload(b, signature), |b.ratchet|;
            && |p| >= 84 + r + SIGNATURE_SIZE
            && p[..64] == b.pubKey && p[64..74] == b.nameHash && p[74..84] == b.randomHash
            && p[84..84 + r] == b.ratchet && p[84 + r..84 + r + SIGNATURE_SIZE] == signature
            && p[84 + r + SIGNATURE_SIZE..] == b.appData
            && (head + p)[|head|..] == p && (head + p)[..|head|] == head
  {
  }

  /** Any packet laid out in wire order, with flags that say what it contains, parses to its
      fields. */
  lemma ParseLaidOut(header: seq<octet>, transportId: seq<octet>, context: octet, b: Body, signature: seq<octet>)
    requires WellSized(b) && |signature| == SIGNATURE_SIZE && |header| == HEADER_SIZE
    requires IsAnnounce(header[0]) && header[1] < MAX_HOPS
    requires HasRatchet(header[0]) <==> b.ratchet != []
    requires |transportId| == if IsType2(header[0]) then ADDR_HASH_SIZE else 0
    ensures Parse(header + transportId + b.destHash + [context] + Payload(b, signature))
            == Fields(header, transportId, context, b, signature)
  {
    var head := header + transportId + b.destHash + [context];
    var data := head + Payload(b, signature);
    FieldsOf(head, b, signature);
    var off := |head|;
    assert data[..HEADER_SIZE] == header && data[HEADER_SIZE..off - 1 - ADDR_HASH_SIZE] == transportId;
    assert data[off - 1 - ADDR_HASH_SIZE..off - 1] == b.destHash && data[off - 1] == context;
    assert data[0] == header[0] && data[1] == header[1];
  }

  /** `f` is how `data` is laid out on the wire, under flags that say what it contains. */
  ghost predicate LaidOut(data: seq<octet>, f: Parsed)
    requires f.Fields?
  {
    var b := f.body;
    && |f.header| == 2 && f.header[0] % 4 == 1 && f.header[1] < 128
    && |f.transportId| == (if f.header[0] / 64 % 2 == 1 then 16 else 0)
    && |b.destHash| == 16 && |b.pubKey| == 64 && |b.nameHash| == 10 && |b.randomHash| == 10
    && |b.ratchet| == (if f.header[0] / 32 % 2 == 1 then 32 else 0)
    && |f.signature| == 64
    && data == f.header + f.transportId + b.destHash + [f.context]
               + (b.pubKey + b.nameHash + b.randomHash + b.ratchet + f.signature + b.appData)
  }

  /** The parser accepts exactly the laid-out packets, and finds the one way each is laid out. */
  lemma ParsesIff(data: seq<octet>, f: Parsed)
    requires f.Fields?
    ensures Parse(data) == f <==> LaidOut(data, f)
  {
    if LaidOut(data, f) { ParseLaidOut(f.header, f.transportId, f.context, f.body, f.signature); }
    if Parse(data) == f {
      ParseLosesNothing(data);
      RatchetFlag(data, data[0]);
    }
  }

  lemma OrChain(a: octet, b: octet, c: octet, d: octet, e: octet, f: octet)
    requires a == b == d == e == 0 && c % 2 == 0 && f == 1
    ensures Or(Or(Or(Or(Or(a, b), c), d), e), f) == c + 1
  {
    OrNeutral(a);
    OrNeutral(c);
    OrOne(c);
  }

  lemma BuiltFlags(ratchet: bool, hops: octet)
    ensures BuiltHeader(ratchet, hops) == [if ratchet then 33 else 1, hops]
  {
    var flag: octet := if ratchet then 1 else 0;
    OrChain(IFAC_NONE, HEADER_TYPE1 * 64 % 256, flag * 32 % 256, PROP_TYPE_BROADCAST * 16 % 256,
            DEST_TYPE_SINGLE * 4 % 256, PACKET_TYPE_ANNOUNCE);
  }

  /** What is not 16 or 32 bytes long: a longer destination hash is cut, a ratchet left out. */
  lemma BuiltFrom(b: Body, pathResponse: bool, hops: octet, sign: seq<octet> -> Option<seq<octet>>)
    ensures var d := b.(destHash := if |b.destHash| > 16 then b.destHash[..16] else b.destHash,
                        ratchet := if |b.ratchet| == 32 then b.ratchet else []);
            && CreatePacket(b, pathResponse, hops, sign) == CreatePacket(d, pathResponse, hops, sign)
            && (CreatePacket(b, pathResponse, hops, sign) == SignError <==>
                  sign(d.destHash + d.pubKey + d.nameHash + d.randomHash + d.ratchet + d.appData) == None)
  {
  }

  /** The bytes of a built packet. */
  lemma BuiltBytes(b: Body, pathResponse: bool, hops: octet, sign: seq<octet> -> Option<seq<octet>>,
                   signature: seq<octet>)
    requires WellSized(b) && Signs(sign, b, signature) && Fits(b)
    ensures CreatePacket(b, pathResponse, hops, sign).Packet?
    ensures var header := [if b.ratchet != [] then 33 else 1, hops];
            var context := if pathResponse then 11 else 0;
            CreatePacket(b, pathResponse, hops, sign).bytes
            == header + [] + b.destHash + [context]
               + (b.pubKey + b.nameHash + b.randomHash + b.ratchet + signature + b.appData)
  {
    BuiltIff(b, pathResponse, hops, sign, signature);
    BuiltFlags(b.ratchet != [], hops);
    var header := BuiltHeader(b.ratchet != [], hops);
    assert header + [] == header;
  }

  lemma ParseBuiltBytes(b: Body, context: octet, hops: octet, signature: seq<octet>)
    requires WellSized(b) && |signature| == SIGNATURE_SIZE && hops < MAX_HOPS
    ensures var header := [if b.ratchet != [] then 33 else 1, hops];
            Parse(header + [] + b.destHash + [context] + Payload(b, signature))
            == Fields(header, [], context, b, signature)
  {
    ParseLaidOut([if b.ratchet != [] then 33 else 1, hops], [], context, b, signature);
  }

  /** Parsing a built packet recovers every field, with or without a ratchet. */
  lemma ParseBuilt(b: Body, pathResponse: bool, hops: octet, sign: seq<octet> -> Option<seq<octet>>,
                   signature: seq<octet>)
    requires WellSized(b) && Fits(b) && Signs(sign, b, signature) && hops < MAX_HOPS
    ensures CreatePacket(b, pathResponse, hops, sign).Packet?
    ensures var context := if pathResponse then PATH_RESPONSE else 0;
            Parse(CreatePacket(b, pathResponse, hops, sign).bytes)
            == Fields([if b.ratchet != [] then 33 else 1, hops], [], context, b, signature)
  {
    BuiltBytes(b, pathResponse, hops, sign, signature);
    ParseBuiltBytes(b, if pathResponse then PATH_RESPONSE else 0, hops, signature);
  }

  /** A forwarder rewrites the flag byte and the hop count and inserts its transport id. */
  function Forwarded(packet: seq<octet>, flags: octet, hops: octet, transportId: seq<octet>): seq<octet>
    requires |packet| >= HEADER_SIZE
  {
    [flags, hops] + transportId + packet[HEADER_SIZE..]
  }

  lemma ForwardedLayout(header: seq<octet>, rest: seq<octet>, mid: seq<octet>, flags: octet, hops: octet,
                        transportId: seq<octet>)
    requires |header| == HEADER_SIZE
    ensures Forwarded(header + [] + mid + rest, flags, hops, transportId) == [flags, hops] + transportId + mid + rest
  {
    var packet := header + [] + mid + rest;
    assert packet[HEADER_SIZE..] == mid + rest;
  }

  lemma RatchetFlag(packet: seq<octet>, flags: octet)
    requires Parse(packet).Fields? && (HasRatchet(flags) <==> HasRatchet(packet[0]))
    ensures HasRatchet(flags) <==> Parse(packet).body.ratchet != []
    ensures |Parse(packet).header| == HEADER_SIZE
  {
  }

  /** A forwarded packet parses to the same announce. */
  lemma ParseForwarded(packet: seq<octet>, flags: octet, hops: octet, transportId: seq<octet>)
    requires Parse(packet).Fields? && Parse(packet).transportId == []
    requires IsAnnounce(flags) && IsType2(flags) && hops < MAX_HOPS
    requires (HasRatchet(flags) <==> HasRatchet(packet[0])) && |transportId| == ADDR_HASH_SIZE
    ensures var f, g := Parse(packet), Parse(Forwarded(packet, flags, hops, transportId));
            g == Fields([flags, hops], transportId, f.context, f.body, f.signature)
  {
    var f := Parse(packet);
    ParseLosesNothing(packet);
    RatchetFlag(packet, flags);
    ForwardedParses(packet, f, flags, hops, transportId);
  }

  lemma ForwardedParses(packet: seq<octet>, f: Parsed, flags: octet, hops: octet, transportId: seq<octet>)
    requires f.Fields? && f.transportId == [] && |f.header| == HEADER_SIZE
    requires WellSized(f.body) && |f.signature| == SIGNATURE_SIZE
    requires packet == f.header + [] + f.body.destHash + [f.context] + Payload(f.body, f.signature)
    requires IsAnnounce(flags) && IsType2(flags) && hops < MAX_HOPS
    requires HasRatchet(flags) <==> f.body.ratchet != []
    requires |transportId| == ADDR_HASH_SIZE
    ensures Parse(Forwarded(packet, flags, hops, transportId))
            == Fields([flags, hops], transportId, f.context, f.body, f.signature)
  {
    var mid, rest := f.body.destHash + [f.context], Payload(f.body, f.signature);
    assert packet == f.header + [] + mid + rest;
    ForwardedLayout(f.header, rest, mid, flags, hops, transportId);
    assert [flags, hops] + transportId + mid + rest
        == [flags, hops] + transportId + f.body.destHash + [f.context] + rest;
    ParseLaidOut([flags, hops], transportId, f.context, f.body, f.signature);
  }

  // ---------------------------------------------------------------- verification

  datatype Crypto = Crypto(
    validKey: seq<octet> -> bool,
    verify: (seq<octet>, seq<octet>, seq<octet>) -> bool,   // public key, message, signature
    sha256: seq<octet> -> seq<octet>,
    identityHash: seq<octet> -> seq<octet>)

  datatype Handled = Malformed | BadKey | BadSignature | HashMismatch | Accepted(body: Body)

  function ExpectedHash(c: Crypto, b: Body): seq<octet> {
    var h := c.sha256(b.nameHash + c.identityHash(b.pubKey));
    if |h| >= ADDR_HASH_SIZE then h[..ADDR_HASH_SIZE] else h
  }

  function Handle(c: Crypto, data: seq<octet>): Handled {
    var f := Parse(data);
    if !f.Fields? then Malformed
    else if !c.validKey(f.body.pubKey) then BadKey
    else if !c.verify(f.body.pubKey, Signed(f.body), f.signature) then BadSignature
    else if f.body.destHash != ExpectedHash(c, f.body) then HashMismatch
    else Accepted(f.body)
  }

  /** What makes an announce genuine: a valid key, a signature over destination hash, key, name hash,
      random hash, ratchet and application data, and the destination hash that belongs to name and
      key. */
  ghost predicate Genuine(c: Crypto, b: Body, signature: seq<octet>) {
    var h := c.sha256(b.nameHash + c.identityHash(b.pubKey));
    && c.validKey(b.pubKey)
    && c.verify(b.pubKey, b.destHash + b.pubKey + b.nameHash + b.randomHash + b.ratchet + b.appData, signature)
    && |h| >= 16 && b.destHash == h[..16]
  }

  ghost predicate GenuineLayout(c: Crypto, data: seq<octet>, b: Body, f: Parsed) {
    f.Fields? && f.body == b && LaidOut(data, f) && Genuine(c, b, f.signature)
  }

  /** An announce is accepted exactly when it is laid out as a packet whose fields are genuine. */
  lemma AcceptedIff(c: Crypto, data: seq<octet>, b: Body)
    ensures Handle(c, data) == Accepted(b) <==> exists f :: GenuineLayout(c, data, b, f)
  {
    var f := Parse(data);
    if f.Fields? { ParsesIff(data, f); }
    if Handle(c, data) == Accepted(b) { assert GenuineLayout(c, data, b, f); }
    if g :| GenuineLayout(c, data, b, g) { ParsesIff(data, g); }
  }

  /** Why a laid-out announce is refused: the first test that fails, in this order. */
  lemma RefusedAs(c: Crypto, data: seq<octet>, f: Parsed)
    requires f.Fields? && LaidOut(data, f)
    ensures var b := f.body;
            var h := c.sha256(b.nameHash + c.identityHash(b.pubKey));
            var signed := b.destHash + b.pubKey + b.nameHash + b.randomHash + b.ratchet + b.appData;
            && (Handle(c, data) == BadKey <==> !c.validKey(b.pubKey))
            && (Handle(c, data) == BadSignature <==> c.validKey(b.pubKey) && !c.verify(b.pubKey, signed, f.signature))
            && (Handle(c, data) == HashMismatch <==>
                  && c.validKey(b.pubKey) && c.verify(b.pubKey, signed, f.signature)
                  && !(|h| >= 16 && b.destHash == h[..16]))
  {
    ParsesIff(data, f);
  }

  /** Why data is not a packet: shorter than 167 bytes, another packet type, 128 hops or more, or too
      short for the fields its flags announce. */
  lemma NotParsed(data: seq<octet>)
    ensures Parse(data) == TooShort <==> |data| < 167
    ensures |data| >= 167 ==>
              var off := if data[0] / 64 % 2 == 1 then 35 else 19;
              var need := if data[0] / 32 % 2 == 1 then 180 else 148;
              && (Parse(data) == NotAnnounce <==> data[0] % 4 != 1)
              && (Parse(data) == TooManyHops <==> data[0] % 4 == 1 && data[1] >= 128)
              && (Parse(data) == PayloadTooShort <==> data[0] % 4 == 1 && data[1] < 128 && |data| < off + need)
  {
  }

  /** A packet built by the owner of its destination is accepted, directly and after any transport
      node has inserted its id. */
  lemma BuiltIsAccepted(c: Crypto, b: Body, pathResponse: bool, builtHops: octet,
                        sign: seq<octet> -> Option<seq<octet>>, signature: seq<octet>,
                        flags: octet, hops: octet, transportId: seq<octet>)
    requires WellSized(b) && Fits(b) && Signs(sign, b, signature) && c.validKey(b.pubKey)
    requires c.verify(b.pubKey, Signed(b), signature) && b.destHash == ExpectedHash(c, b)
    requires builtHops < MAX_HOPS
    requires IsAnnounce(flags) && IsType2(flags) && hops < MAX_HOPS
    requires HasRatchet(flags) <==> b.ratchet != []
    requires |transportId| == ADDR_HASH_SIZE
    ensures CreatePacket(b, pathResponse, builtHops, sign).Packet?
    ensures var p := CreatePacket(b, pathResponse, builtHops, sign).bytes;
            Handle(c, p) == Accepted(b) && Handle(c, Forwarded(p, flags, hops, transportId)) == Accepted(b)
  {
    ParseBuilt(b, pathResponse, builtHops, sign, signature);
    var p := CreatePacket(b, pathResponse, builtHops, sign).bytes;
    ParseForwarded(p, flags, hops, transportId);
  }

  // ---------------------------------------------------------------- the cursor code

  /** The parser as it runs: a cursor over the payload. */
  method ParseWithCursor(data: seq<octet>) returns (r: Parsed)
    ensures r == Parse(data)
  {
    if |data| < MIN_PACKET {
      return TooShort;
    }
    var header := data[..HEADER_SIZE];
    if !IsAnnounce(header[0]) {
      return NotAnnounce;
    }
    if header[1] >= MAX_HOPS {
      return TooManyHops;
    }
    var hasRatchet := HasRatchet(header[0]);
    var transportId, destHash, context, packetData := [], [], 0, [];
    if IsType2(header[0]) {
      transportId, destHash := data[2..18], data[18..34];
      context, packetData := data[34], data[HEADER_TYPE2_OFFSET..];
    } else {
      destHash, context, packetData := data[2..18], data[18], data[HEADER_TYPE1_OFFSET..];
    }
    var minPayload := PUB_KEY_SIZE + NAME_HASH_SIZE + RANDOM_HASH_SIZE + SIGNATURE_SIZE;
    if hasRatchet {
      minPayload := minPayload + RATCHET_SIZE;
    }
    if |packetData| < minPayload {
      return PayloadTooShort;
    }
    var pos := 0;
    var encKey := packetData[pos..pos + KEY_HALF];
    pos := pos + KEY_HALF;
    var signKey := packetData[pos..pos + KEY_HALF];
    pos := pos + KEY_HALF;
    var nameHash := packetData[pos..pos + NAME_HASH_SIZE];
    pos := pos + NAME_HASH_SIZE;
    var randomHash := packetData[pos..pos + RANDOM_HASH_SIZE];
    pos := pos + RANDOM_HASH_SIZE;
    var ratchet := [];
    if hasRatchet {
      ratchet := packetData[pos..pos + RATCHET_SIZE];
      pos := pos + RATCHET_SIZE;
    }
    var signature := packetData[pos..pos + SIGNATURE_SIZE];
    pos := pos + SIGNATURE_SIZE;
    var appData := packetData[pos..];
    assert encKey + signKey == packetData[..64];
    r := Fields(header, transportId, context,
                Body(destHash, encKey + signKey, nameHash, randomHash, ratchet, appData), signature);
  }

  /** Appending the signing key to the encryption-key slice writes through to the packet, because
      the slice has spare capacity there; it writes what is already there. */
  method AppendKeys(packet: array<octet>, off: nat) returns (pubKey: seq<octet>)
    requires off + PUB_KEY_SIZE <= packet.Length
    modifies packet
    ensures packet[..] == old(packet[..]) && pubKey == old(packet[off..off + PUB_KEY_SIZE])
  {
    var signKey := packet[off + KEY_HALF..off + PUB_KEY_SIZE];
    for j := 0 to KEY_HALF
      invariant packet[..] == old(packet[..])
    {
      packet[off + KEY_HALF + j] := signKey[j];
    }
    assert packet[..][off..off + PUB_KEY_SIZE] == packet[off..off + PUB_KEY_SIZE];
    pubKey := packet[off..off + PUB_KEY_SIZE];
  }
}
