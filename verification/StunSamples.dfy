/** Messages of other implementations: what RFC 5769 and RFC 5389 write down byte by byte, and
    testcode/testreader.cpp reads. */
module StunSamples {
  import opened Options
  import opened StunTypes
  import opened StunWire
  import opened StunIntegrity
  import opened StunValidation
  import opened SocketAddresses
  import opened StunBuilders
  import opened StunReaders
  import opened StunReplies
  import opened StunReplyProofs

  const SAMPLE_ID: TransactionId :=
    [0x21, 0x12, 0xa4, 0x42, 0xb7, 0xe7, 0xa7, 0x01, 0xbc, 0x34, 0xd6, 0x86, 0xfa, 0x87, 0xdf, 0xae]

  // ---- the request of section 2.1 of RFC 5769 ----

  const SOFTWARE: seq<byte> :=
    [0x53, 0x54, 0x55, 0x4e, 0x20, 0x74, 0x65, 0x73, 0x74, 0x20, 0x63, 0x6c, 0x69, 0x65, 0x6e, 0x74]
  const USER: seq<byte> := [0x65, 0x76, 0x74, 0x6a, 0x3a, 0x68, 0x36, 0x76, 0x59]
  const HASH: seq<byte> :=
    [0x9a, 0xea, 0xa7, 0x0c, 0xbf, 0xd8, 0xcb, 0x56, 0x78, 0x1e,
     0xf2, 0xb5, 0xb2, 0xd3, 0xf2, 0x49, 0xc1, 0xb5, 0x71, 0xa2]

  /** Header, and the attributes before the hash. */
  const REQUEST_HEADER: seq<byte> := [0x00, 0x01, 0x00, 0x58] + SAMPLE_ID
  const REQUEST_BODY: seq<byte> :=
    [0x80, 0x22, 0x00, 0x10] + SOFTWARE
    + ([0x00, 0x24, 0x00, 0x04] + [0x6e, 0x00, 0x01, 0xff]
       + ([0x80, 0x29, 0x00, 0x08] + [0x93, 0x2f, 0xf9, 0xb1, 0x51, 0x26, 0x3b, 0x36]
          + ([0x00, 0x06, 0x00, 0x09] + (USER + [0x20, 0x20, 0x20]))))
  const REQUEST_HASH: seq<byte> := [0x00, 0x08, 0x00, 0x14] + HASH
  const REQUEST_FINGERPRINT: seq<byte> := [0x80, 0x28, 0x00, 0x04, 0xe5, 0x7a, 0x3b, 0xcf]
  const REQUEST: seq<byte> := REQUEST_HEADER + (REQUEST_BODY + REQUEST_HASH + REQUEST_FINGERPRINT)

  const REQUEST_WIRES: seq<Wire> :=
    [Wire(0x8022, 16, SOFTWARE), Wire(0x0024, 4, [0x6e, 0x00, 0x01, 0xff]),
     Wire(0x8029, 8, [0x93, 0x2f, 0xf9, 0xb1, 0x51, 0x26, 0x3b, 0x36]), Wire(0x0006, 9, USER + [0x20, 0x20, 0x20])]

  const HASH_WIRE: Wire := Wire(0x0008, 20, HASH)
  const FINGERPRINT_WIRE: Wire := Wire(0x8028, 4, [0xe5, 0x7a, 0x3b, 0xcf])
  const ALL_WIRES: seq<Wire> := REQUEST_WIRES + [HASH_WIRE] + [FINGERPRINT_WIRE]

  lemma BodyFirst(w: Wire, ws: seq<Wire>)
    ensures Body([w] + ws) == WireBytes(w) + Body(ws)
  {
    assert ([w] + ws)[1..] == ws;
  }

  lemma WireIs(w: Wire, head: seq<byte>)
    requires head == [w.atype / 256, w.atype % 256, w.len / 256 % 256, w.len % 256]
    ensures WireBytes(w) == head + w.data
  {
    assert head == BE16(w.atype) + BE16(w.len);
  }

  lemma RequestBodyIs()
    ensures Body(REQUEST_WIRES) == REQUEST_BODY && |REQUEST_BODY| == 56 && AllFormed(REQUEST_WIRES)
  {
    var ws := REQUEST_WIRES;
    WireIs(ws[0], [0x80, 0x22, 0x00, 0x10]);
    WireIs(ws[1], [0x00, 0x24, 0x00, 0x04]);
    WireIs(ws[2], [0x80, 0x29, 0x00, 0x08]);
    WireIs(ws[3], [0x00, 0x06, 0x00, 0x09]);
    BodyOne(ws[3]);
    BodyFirst(ws[2], [ws[3]]);
    BodyFirst(ws[1], [ws[2]] + [ws[3]]);
    BodyFirst(ws[0], [ws[1]] + ([ws[2]] + [ws[3]]));
    assert ws == [ws[0]] + ([ws[1]] + ([ws[2]] + [ws[3]]));
  }

  lemma AllBodyIs()
    ensures Body(ALL_WIRES) == REQUEST_BODY + REQUEST_HASH + REQUEST_FINGERPRINT && Fits(ALL_WIRES)
    ensures |Body(ALL_WIRES)| == 0x58 && Body(ALL_WIRES[..4]) == REQUEST_BODY
    ensures ALL_WIRES[..5] == REQUEST_WIRES + [HASH_WIRE]
    ensures Body(ALL_WIRES[..5]) == REQUEST_BODY + REQUEST_HASH
  {
    RequestBodyIs();
    BodySnoc(REQUEST_WIRES, HASH_WIRE);
    BodySnoc(REQUEST_WIRES + [HASH_WIRE], FINGERPRINT_WIRE);
    WireIs(HASH_WIRE, [0x00, 0x08, 0x00, 0x14]);
    WireIs(FINGERPRINT_WIRE, [0x80, 0x28, 0x00, 0x04]);
    assert [0x80, 0x28, 0x00, 0x04] + FINGERPRINT_WIRE.data == REQUEST_FINGERPRINT;
    assert ALL_WIRES[..4] == REQUEST_WIRES && ALL_WIRES[..5] == REQUEST_WIRES + [HASH_WIRE];
  }

  /** Figure 3 of RFC 5389: the four classes of a binding message. */
  lemma TypeFields()
    ensures MsgTypeField(0x0001, Request) == 0x0001 && MsgTypeField(0x0001, Indication) == 0x0011
    ensures MsgTypeField(0x0001, SuccessResponse) == 0x0101 && MsgTypeField(0x0001, FailureResponse) == 0x0111
    ensures MsgTypeField(0x0fff, Request) == 0x3eef
  {
  }

  lemma MessageIs(c: StunMessageClass, field: u16, body: seq<byte>, head: seq<byte>)
    requires MsgTypeField(0x0001, c) as int == field && |body| < 0x1_0000
    requires head == [field / 256, field % 256, |body| / 256, |body| % 256]
    ensures Message(0x0001, c, SAMPLE_ID, body) == (head + SAMPLE_ID) + body
  {
    assert head == BE16(field) + BE16(|body|);
    assert head + SAMPLE_ID + body == (head + SAMPLE_ID) + body;
  }

  lemma RequestIsMessage()
    ensures REQUEST == Message(0x0001, Request, SAMPLE_ID, Body(ALL_WIRES))
  {
    AllBodyIs();
    TypeFields();
    MessageIs(Request, 0x0001, Body(ALL_WIRES), [0x00, 0x01, 0x00, 0x58]);
  }

  lemma LastWires()
    ensures LastWire(ALL_WIRES, 0x8022) == Some(REQUEST_WIRES[0])
    ensures LastWire(ALL_WIRES, 0x0006) == Some(REQUEST_WIRES[3])
    ensures LastWire(ALL_WIRES, 0x0001) == None
  {
    var ws := REQUEST_WIRES;
    assert ALL_WIRES == [] + [ws[0]] + [ws[1]] + [ws[2]] + [ws[3]] + [HASH_WIRE] + [FINGERPRINT_WIRE];
    LastWireOf(0x8022);
    LastWireOf(0x0006);
    LastWireOf(0x0001);
  }

  lemma LastWireOf(t: u16)
    ensures var ws := REQUEST_WIRES;
            LastWire([] + [ws[0]] + [ws[1]] + [ws[2]] + [ws[3]] + [HASH_WIRE] + [FINGERPRINT_WIRE], t)
            == if t == 0x8028 then Some(FINGERPRINT_WIRE) else if t == 0x0008 then Some(HASH_WIRE)
               else if t == 0x0006 then Some(ws[3]) else if t == 0x8029 then Some(ws[2])
               else if t == 0x0024 then Some(ws[1]) else if t == 0x8022 then Some(ws[0]) else None
  {
    var ws := REQUEST_WIRES;
    LastWireSnoc([], ws[0], t);
    LastWireSnoc([] + [ws[0]], ws[1], t);
    LastWireSnoc([] + [ws[0]] + [ws[1]], ws[2], t);
    LastWireSnoc([] + [ws[0]] + [ws[1]] + [ws[2]], ws[3], t);
    LastWireSnoc([] + [ws[0]] + [ws[1]] + [ws[2]] + [ws[3]], HASH_WIRE, t);
    LastWireSnoc([] + [ws[0]] + [ws[1]] + [ws[2]] + [ws[3]] + [HASH_WIRE], FINGERPRINT_WIRE, t);
  }

  lemma LastWireSnoc(ws: seq<Wire>, w: Wire, t: u16)
    ensures LastWire(ws + [w], t) == if w.atype == t then Some(w) else LastWire(ws, t)
  {
    assert (ws + [w])[..|ws|] == ws;
  }

  /** The request is accepted even without the legacy format, and read as the RFC says. */
  lemma RequestIsRead()
    ensures Verdict(REQUEST, false) == BodyValidated && |REQUEST| == 108
    ensures ClassOf(RawType(REQUEST)) == Request && Normalized(RawType(REQUEST)) == 0x0001
    ensures TransactionIdOf(REQUEST) == SAMPLE_ID
    ensures ValueOf(REQUEST, 0x8022) == Some(SOFTWARE) && ValueOf(REQUEST, 0x0006) == Some(USER)
    ensures ValueOf(REQUEST, 0x0001) == None && AuthStringOf(REQUEST, 0x0006) == USER
  {
    RequestIsAccepted();
    LastWires();
    RequestValue(0x8022);
    RequestValue(0x0006);
    RequestValue(0x0001);
    ValuesAre();
  }

  lemma ValuesAre()
    ensures WireValue(REQUEST_WIRES[0]) == SOFTWARE && WireValue(REQUEST_WIRES[3]) == USER && CString(USER) == USER
  {
    CStringOfPadded(USER, 0);
    assert USER + Zeros(0) == USER;
  }

  lemma RequestIsAccepted()
    ensures Verdict(REQUEST, false) == BodyValidated && |REQUEST| == 108
    ensures ClassOf(RawType(REQUEST)) == Request && Normalized(RawType(REQUEST)) == 0x0001
    ensures TransactionIdOf(REQUEST) == SAMPLE_ID
  {
    RequestIsMessage();
    AllBodyIs();
    CookieIsThere();
    BuiltIsAccepted(0x0001, Request, SAMPLE_ID, ALL_WIRES, false);
    MessageHeader(0x0001, Request, SAMPLE_ID, Body(ALL_WIRES));
    TypeFieldRoundTrip(0x0001, Request);
  }

  lemma CookieIsThere()
    ensures !IsLegacy(SAMPLE_ID)
  {
  }

  lemma RequestValue(t: u16)
    ensures ValueOf(REQUEST, t)
            == match LastWire(ALL_WIRES, t) case None => None case Some(w) => Some(WireValue(w))
  {
    RequestIsMessage();
    AllBodyIs();
    WrittenValue(0x0001, Request, SAMPLE_ID, ALL_WIRES, t);
  }

  /** What must be hashed and summed for it to validate: the 76 bytes before the hash, with a declared length of 0x50,
      and the 100 bytes before the fingerprint. */
  lemma RequestValidatesIff(key: seq<byte>, crypto: Crypto)
    ensures |REQUEST| == 108 && Attributes(REQUEST).Some?
    ensures IntegrityHolds(REQUEST, Attributes(REQUEST).value, key, crypto) <==>
            key != [] && crypto.hmac(key, [0x00, 0x01, 0x00, 0x50] + SAMPLE_ID + REQUEST_BODY) == HASH
    ensures FingerprintHolds(REQUEST, Attributes(REQUEST).value, crypto) <==>
            XorFingerprint(crypto.crc32(REQUEST[..100])) == 0xe57a3bcf
  {
    RequestIsMessage();
    AllBodyIs();
    BuiltIsAccepted(0x0001, Request, SAMPLE_ID, ALL_WIRES, true);
    IntegrityHoldsIff(0x0001, Request, SAMPLE_ID, ALL_WIRES, key, crypto);
    DraftIs(0x50, REQUEST_BODY, [0x00, 0x01, 0x00, 0x50]);
    FingerprintHoldsIff(0x0001, Request, SAMPLE_ID, ALL_WIRES, crypto);
    DraftIs(0x58, REQUEST_BODY + REQUEST_HASH, [0x00, 0x01, 0x00, 0x58]);
    FrontIs();
    MaskedIs(XorFingerprint(crypto.crc32(REQUEST[..100])));
  }

  lemma DraftIs(len: nat, body: seq<byte>, head: seq<byte>)
    requires len < 256 && head == [0x00, 0x01, 0x00, len]
    ensures Draft(0x0001, Request, len, SAMPLE_ID, body) == head + SAMPLE_ID + body
  {
    TypeFields();
    assert head == BE16(0x0001) + BE16(len);
  }

  lemma FrontIs()
    ensures |REQUEST| == 108 && REQUEST[..100] == [0x00, 0x01, 0x00, 0x58] + SAMPLE_ID + (REQUEST_BODY + REQUEST_HASH)
  {
    RequestBodyIs();
    assert REQUEST == [0x00, 0x01, 0x00, 0x58] + SAMPLE_ID + (REQUEST_BODY + REQUEST_HASH) + REQUEST_FINGERPRINT;
  }

  lemma MaskedIs(n: u32)
    ensures BE32(n) == [0xe5, 0x7a, 0x3b, 0xcf] <==> n == 0xe57a3bcf
  {
    var s := [0xe5, 0x7a, 0x3b, 0xcf];
    assert s[0..4] == s && Read32(s, 0) == 0xe57a3bcf;
    if BE32(n) == s {
      BE32RoundTrip(s, 0, n);
    }
  }

  // ---- addresses ----

  /** 192.0.2.1, port 32853. */
  const IPV4: Address := RawAddress(true, [0x80, 0x55], [192, 0, 2, 1])

  /** Sections 2.2 and 2.3 of RFC 5769: the values of MAPPED-ADDRESS and XOR-MAPPED-ADDRESS. */
  lemma AddressValues()
    ensures GetPort(IPV4) == 32853
    ensures AddressBytes(IPV4) == [0x00, 0x01, 0x80, 0x55, 0xc0, 0x00, 0x02, 0x01]
    ensures AddressBytes(XorMapped(IPV4, SAMPLE_ID)) == [0x00, 0x01, 0xa1, 0x47, 0xe1, 0x12, 0xa6, 0x43]
  {
    MaskedPort(0x80, 0x55, 0x21, 0x12);
    MaskedNet(0xc0, 0x00, 0x21, 0x12);
    MaskedHost(0x02, 0x01, 0xa4, 0x42);
  }

  lemma MaskedPort(b0: byte, b1: byte, m0: byte, m1: byte)
    requires b0 == 0x80 && b1 == 0x55 && m0 == 0x21 && m1 == 0x12
    ensures XorByte(b0, m0) == 0xa1 && XorByte(b1, m1) == 0x47
  {
    XorOctet(b0, true, false, false, false, false, false, false, false,
             m0, false, false, true, false, false, false, false, true);
    XorOctet(b1, false, true, false, true, false, true, false, true,
             m1, false, false, false, true, false, false, true, false);
  }

  lemma MaskedNet(b0: byte, b1: byte, m0: byte, m1: byte)
    requires b0 == 0xc0 && b1 == 0x00 && m0 == 0x21 && m1 == 0x12
    ensures XorByte(b0, m0) == 0xe1 && XorByte(b1, m1) == 0x12
  {
    XorOctet(b0, true, true, false, false, false, false, false, false,
             m0, false, false, true, false, false, false, false, true);
    XorOctet(b1, false, false, false, false, false, false, false, false,
             m1, false, false, false, true, false, false, true, false);
  }

  lemma MaskedHost(b0: byte, b1: byte, m0: byte, m1: byte)
    requires b0 == 0x02 && b1 == 0x01 && m0 == 0xa4 && m1 == 0x42
    ensures XorByte(b0, m0) == 0xa6 && XorByte(b1, m1) == 0x43
  {
    XorOctet(b0, false, false, false, false, false, false, true, false,
             m0, true, false, true, false, false, true, false, false);
    XorOctet(b1, false, false, false, false, false, false, false, true,
             m1, false, true, false, false, false, false, true, false);
  }

  /** A number with one more bit at its end, and with four. */
  function With(n: nat, bit: bool): nat {
    2 * n + if bit then 1 else 0
  }

  function Nibble(n: nat, b3: bool, b2: bool, b1: bool, b0: bool): nat {
    With(With(With(With(n, b3), b2), b1), b0)
  }

  lemma XorBelow(a: nat, x: bool, b: nat, y: bool, bits: nat)
    ensures Xor(With(a, x), With(b, y), bits + 1) == With(Xor(a, b, bits), x != y)
  {
  }

  lemma XorNibble(a: nat, a3: bool, a2: bool, a1: bool, a0: bool, b: nat, b3: bool, b2: bool, b1: bool, b0: bool,
                  bits: nat)
    ensures Xor(Nibble(a, a3, a2, a1, a0), Nibble(b, b3, b2, b1, b0), bits + 4)
            == Nibble(Xor(a, b, bits), a3 != b3, a2 != b2, a1 != b1, a0 != b0)
  {
    XorBelow(a, a3, b, b3, bits);
    XorBelow(With(a, a3), a2, With(b, b3), b2, bits + 1);
    XorBelow(With(With(a, a3), a2), a1, With(With(b, b3), b2), b1, bits + 2);
    XorBelow(With(With(With(a, a3), a2), a1), a0, With(With(With(b, b3), b2), b1), b0, bits + 3);
  }

  function Octet(b7: bool, b6: bool, b5: bool, b4: bool, b3: bool, b2: bool, b1: bool, b0: bool): nat {
    Nibble(Nibble(0, b7, b6, b5, b4), b3, b2, b1, b0)
  }

  lemma XorOctet(a: byte, a7: bool, a6: bool, a5: bool, a4: bool, a3: bool, a2: bool, a1: bool, a0: bool,
                 b: byte, b7: bool, b6: bool, b5: bool, b4: bool, b3: bool, b2: bool, b1: bool, b0: bool)
    requires a == Octet(a7, a6, a5, a4, a3, a2, a1, a0) && b == Octet(b7, b6, b5, b4, b3, b2, b1, b0)
    ensures XorByte(a, b)
            == Octet(a7 != b7, a6 != b6, a5 != b5, a4 != b4, a3 != b3, a2 != b2, a1 != b1, a0 != b0)
  {
    XorTwoNibbles(0, a7, a6, a5, a4, a3, a2, a1, a0, 0, b7, b6, b5, b4, b3, b2, b1, b0, 0);
  }

  lemma XorTwoNibbles(a: nat, a7: bool, a6: bool, a5: bool, a4: bool, a3: bool, a2: bool, a1: bool, a0: bool,
                      b: nat, b7: bool, b6: bool, b5: bool, b4: bool, b3: bool, b2: bool, b1: bool, b0: bool,
                      bits: nat)
    ensures Xor(Nibble(Nibble(a, a7, a6, a5, a4), a3, a2, a1, a0), Nibble(Nibble(b, b7, b6, b5, b4), b3, b2, b1, b0),
                bits + 8)
            == Nibble(Nibble(Xor(a, b, bits), a7 != b7, a6 != b6, a5 != b5, a4 != b4), a3 != b3, a2 != b2, a1 != b1,
                      a0 != b0)
  {
    XorNibble(a, a7, a6, a5, a4, b, b7, b6, b5, b4, bits);
    XorNibble(Nibble(a, a7, a6, a5, a4), a3, a2, a1, a0, Nibble(b, b7, b6, b5, b4), b3, b2, b1, b0, bits + 4);
  }

  // ---- other values ----

  /** Section 7.2 of RFC 5780: A asks for another address, B for another port. */
  lemma ChangeRequestValues()
    ensures ChangeRequestValue(true, false) == [0, 0, 0, 4] && ChangeRequestValue(false, true) == [0, 0, 0, 2]
    ensures ReadChangeRequest([0, 0, 0, 4]) == ChangeRequest(true, false)
    ensures ReadChangeRequest([0, 0, 0, 2]) == ChangeRequest(false, true)
  {
  }

  /** Section 15.6 of RFC 5389: the hundreds digit, then the rest. */
  lemma ErrorValues()
    ensures ErrorValue(401, [0x41]) == [0, 0, 4, 1, 0x41] && ErrorValue(438, []) == [0, 0, 4, 38]
    ensures ErrorNumber([0, 0, 4, 1]) == 401 && ErrorNumber([0, 0, 4, 38, 0x41]) == 438
  {
  }

  /** The example of section 15.4 of RFC 5389: the key of user "user" in realm "realm" with password "pass" is the MD5
      of "user:realm:pass". */
  lemma LongTermKeyOfExample(crypto: Crypto)
    ensures LongTermKey([0x75, 0x73, 0x65, 0x72], [0x72, 0x65, 0x61, 0x6c, 0x6d], [0x70, 0x61, 0x73, 0x73], crypto)
            == crypto.md5([0x75, 0x73, 0x65, 0x72, 0x3a, 0x72, 0x65, 0x61, 0x6c, 0x6d, 0x3a, 0x70, 0x61, 0x73, 0x73])
  {
    assert [0x75, 0x73, 0x65, 0x72] + [0x3a] + [0x72, 0x65, 0x61, 0x6c, 0x6d] + [0x3a] + [0x70, 0x61, 0x73, 0x73]
           == [0x75, 0x73, 0x65, 0x72, 0x3a, 0x72, 0x65, 0x61, 0x6c, 0x6d, 0x3a, 0x70, 0x61, 0x73, 0x73];
  }
}
