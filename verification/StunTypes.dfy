/** Constants and byte-order helpers of stuncore/stuntypes.h (RFC 5389 sections 6 and 15). */
module StunTypes {
  import DataStreams

  type byte = DataStreams.byte
  type u16 = x: int | 0 <= x < 0x1_0000
  type u32 = x: int | 0 <= x < 0x1_0000_0000

  const STUN_ATTRIBUTE_MAPPEDADDRESS: u16 := 0x0001
  const STUN_ATTRIBUTE_CHANGEREQUEST: u16 := 0x0003
  const STUN_ATTRIBUTE_SOURCEADDRESS: u16 := 0x0004
  const STUN_ATTRIBUTE_CHANGEDADDRESS: u16 := 0x0005
  const STUN_ATTRIBUTE_USERNAME: u16 := 0x0006
  const STUN_ATTRIBUTE_LEGACY_PASSWORD: u16 := 0x0007
  const STUN_ATTRIBUTE_MESSAGEINTEGRITY: u16 := 0x0008
  const STUN_ATTRIBUTE_ERRORCODE: u16 := 0x0009
  const STUN_ATTRIBUTE_REALM: u16 := 0x0014
  const STUN_ATTRIBUTE_NONCE: u16 := 0x0015
  const STUN_ATTRIBUTE_XORMAPPEDADDRESS: u16 := 0x0020
  const STUN_ATTRIBUTE_PADDING: u16 := 0x0026
  const STUN_ATTRIBUTE_RESPONSE_PORT: u16 := 0x0027
  const STUN_ATTRIBUTE_XORMAPPEDADDRESS_OPTIONAL: u16 := 0x8020
  const STUN_ATTRIBUTE_FINGERPRINT: u16 := 0x8028
  const STUN_ATTRIBUTE_RESPONSE_ORIGIN: u16 := 0x802b
  const STUN_ATTRIBUTE_OTHER_ADDRESS: u16 := 0x802c

  const STUN_ATTRIBUTE_FIELD_IPV4: byte := 1
  const STUN_ATTRIBUTE_FIELD_IPV6: byte := 2
  const STUN_IPV4_LENGTH := 4
  const STUN_IPV6_LENGTH := 16

  const STUN_ERROR_BADREQUEST := 400
  const STUN_ERROR_UNAUTHORIZED := 401
  const STUN_ERROR_STALENONCE := 438

  const STUN_COOKIE: u32 := 0x2112A442
  const STUN_FINGERPRINT_XOR: u32 := 0x5354554e
  const STUN_HEADER_SIZE := 20
  const MAX_STUN_MESSAGE_SIZE := 800
  const MAX_STUN_ATTRIBUTE_SIZE := 780
  const MAX_NUM_ATTRIBUTES := 30
  const MAX_STUN_AUTH_STRING_SIZE := 64

  const StunMsgTypeBinding: bv16 := 0x0001

  datatype StunMessageClass = Request | Indication | SuccessResponse | FailureResponse

  type TransactionId = s: seq<byte> | |s| == 16 witness Zeros(16)

  function Zeros(n: nat): (z: seq<byte>)
    ensures |z| == n && forall i | 0 <= i < n :: z[i] == 0
  {
    seq(n, i => 0)
  }

  /** Two bytes in network order. */
  function BE16(n: nat): (s: seq<byte>)
    ensures |s| == 2
  {
    [n / 256 % 256, n % 256]
  }

  function BE32(n: nat): (s: seq<byte>)
    ensures |s| == 4
  {
    BE16(n / 0x1_0000) + BE16(n % 0x1_0000)
  }

  function Read16(s: seq<byte>, at: nat): u16
    requires at + 2 <= |s|
  {
    var hi: int, lo: int := s[at], s[at + 1];
    hi * 256 + lo
  }

  function Read32(s: seq<byte>, at: nat): u32
    requires at + 4 <= |s|
  {
    Read16(s, at) * 0x1_0000 + Read16(s, at + 2)
  }

  lemma BE16RoundTrip(s: seq<byte>, at: nat, n: u16)
    requires at + 2 <= |s| && s[at..at + 2] == BE16(n)
    ensures Read16(s, at) == n
  {
    assert s[at] == s[at..at + 2][0] && s[at + 1] == s[at..at + 2][1];
  }

  lemma BE32RoundTrip(s: seq<byte>, at: nat, n: u32)
    requires at + 4 <= |s| && s[at..at + 4] == BE32(n)
    ensures Read32(s, at) == n
  {
    assert s[at..at + 2] == s[at..at + 4][..2] && s[at + 2..at + 4] == s[at..at + 4][2..];
    assert BE32(n)[..2] == BE16(n / 0x1_0000) && BE32(n)[2..] == BE16(n % 0x1_0000);
    BE16RoundTrip(s, at, n / 0x1_0000);
    BE16RoundTrip(s, at + 2, n % 0x1_0000);
  }

  /** The bytes that align an attribute of `n` bytes to four. */
  function Padding(n: nat): (p: nat)
    ensures p < 4 && (n + p) % 4 == 0
  {
    if n % 4 != 0 then 4 - n % 4 else 0
  }

  // ---- the message type field ----

  function ClassBits(c: StunMessageClass): bv16 {
    match c
    case Request => 0
    case Indication => 1
    case SuccessResponse => 2
    case FailureResponse => 3
  }

  /** AddHeader: method and class interleaved below two zero bits. */
  function MsgTypeField(msgType: bv16, c: StunMessageClass): bv16 {
    var cls := ClassBits(c);
    ((msgType & 0x0f80) << 2) | ((msgType & 0x0070) << 1) | (msgType & 0x000f)
    | ((cls & 0x02) << 7) | ((cls & 0x01) << 4)
  }

  /** ReadHeader: the method bits of a type field. */
  function Normalized(field: bv16): bv16 {
    (field & 0x000f) | ((field & 0x00e0) >> 1) | ((field & 0x3E00) >> 2)
  }

  function ClassOf(field: bv16): StunMessageClass {
    if field & 0x0110 == 0x0000 then Request
    else if field & 0x0110 == 0x0010 then Indication
    else if field & 0x0110 == 0x0100 then SuccessResponse
    else FailureResponse
  }

  predicate ZeroTopBits(field: bv16) {
    field & 0xc000 == 0
  }

  /** Writing a 12-bit method and a class and reading them back. */
  lemma TypeFieldRoundTrip(msgType: bv16, c: StunMessageClass)
    requires msgType & 0xf000 == 0
    ensures ZeroTopBits(MsgTypeField(msgType, c))
    ensures Normalized(MsgTypeField(msgType, c)) == msgType
    ensures ClassOf(MsgTypeField(msgType, c)) == c
  {
  }

  /** Reading any field with zero top bits and writing it again. */
  lemma FieldTypeRoundTrip(field: bv16)
    requires ZeroTopBits(field)
    ensures Normalized(field) & 0xf000 == 0
    ensures MsgTypeField(Normalized(field), ClassOf(field)) == field
  {
  }

  // ---- foreign functions ----

  type Hash20 = s: seq<byte> | |s| == 20 witness Zeros(20)
  type Hash16 = s: seq<byte> | |s| == 16 witness Zeros(16)

  /** HMAC-SHA1, MD5 and CRC-32 of foreign libraries: any functions of the right shape. */
  datatype Crypto = Crypto(hmac: (seq<byte>, seq<byte>) -> Hash20, md5: seq<byte> -> Hash16, crc32: seq<byte> -> u32)

  // ---- exclusive or ----

  function Pow2(n: nat): (p: nat)
    ensures p >= 1
  {
    if n == 0 then 1 else 2 * Pow2(n - 1)
  }

  /** The exclusive or of the low `bits` bits of two numbers. */
  function Xor(a: nat, b: nat, bits: nat): (r: nat)
    ensures r < Pow2(bits)
  {
    if bits == 0 then 0 else
      2 * Xor(a / 2, b / 2, bits - 1) + (if a % 2 == b % 2 then 0 else 1)
  }

  lemma {:induction false} XorInverse(a: nat, b: nat, bits: nat)
    requires a < Pow2(bits)
    ensures Xor(Xor(a, b, bits), b, bits) == a
  {
    if bits > 0 {
      XorInverse(a / 2, b / 2, bits - 1);
      var x := Xor(a, b, bits);
      assert x / 2 == Xor(a / 2, b / 2, bits - 1);
    }
  }

  /** Bit number `i` of a number. */
  function Bit(n: nat, i: nat): nat {
    if i == 0 then n % 2 else Bit(n / 2, i - 1)
  }

  /** Bit by bit: a bit of the result is set if and only if the two bits differ. */
  lemma {:induction false} XorBit(a: nat, b: nat, bits: nat, i: nat)
    requires i < bits
    ensures Bit(Xor(a, b, bits), i) == 1 <==> Bit(a, i) != Bit(b, i)
  {
    HalfOfXor(a, b, bits);
    if i > 0 {
      XorBit(a / 2, b / 2, bits - 1, i - 1);
    }
  }

  /** And the bits say all about a number. */
  lemma {:induction false} SameBits(a: nat, b: nat, bits: nat)
    requires a < Pow2(bits) && b < Pow2(bits) && forall i: nat | i < bits :: Bit(a, i) == Bit(b, i)
    ensures a == b
  {
    if bits > 0 {
      forall i: nat | i < bits - 1 ensures Bit(a / 2, i) == Bit(b / 2, i) {
        assert Bit(a, i + 1) == Bit(b, i + 1);
      }
      SameBits(a / 2, b / 2, bits - 1);
      assert Bit(a, 0) == Bit(b, 0);
    }
  }

  lemma HalfOfXor(a: nat, b: nat, bits: nat)
    requires bits > 0
    ensures Xor(a, b, bits) / 2 == Xor(a / 2, b / 2, bits - 1)
    ensures Xor(a, b, bits) % 2 == 1 <==> a % 2 != b % 2
  {
  }

  lemma Pow2Of8()
    ensures Pow2(8) == 256
  {
    assert Pow2(4) == 16;
  }

  function XorByte(a: byte, b: byte): byte {
    Pow2Of8();
    Xor(a, b, 8)
  }

  lemma XorByteBit(a: byte, b: byte, i: nat)
    requires i < 8
    ensures Bit(XorByte(a, b), i) == 1 <==> Bit(a, i) != Bit(b, i)
  {
    XorBit(a, b, 8, i);
  }

  lemma XorTwice(a: byte, b: byte)
    ensures XorByte(XorByte(a, b), b) == a
  {
    Pow2Of8();
    XorInverse(a, b, 8);
  }

  lemma Pow2Of32()
    ensures Pow2(32) == 0x1_0000_0000
  {
    Pow2Of8();
    assert Pow2(12) == 0x1000;
    assert Pow2(16) == 0x1_0000;
    assert Pow2(20) == 0x10_0000;
    assert Pow2(24) == 0x100_0000;
    assert Pow2(28) == 0x1000_0000;
  }

  function XorFingerprint(crc: u32): u32 {
    Pow2Of32();
    Xor(crc, STUN_FINGERPRINT_XOR, 32)
  }

  /** Section 15.5 of RFC 5389: the checksum is masked with a constant. */
  lemma FingerprintBit(crc: u32, i: nat)
    requires i < 32
    ensures Bit(XorFingerprint(crc), i) == 1 <==> Bit(crc, i) != Bit(0x5354554e, i)
  {
    XorBit(crc, STUN_FINGERPRINT_XOR, 32, i);
  }

  lemma ByteAsNumber(n: byte)
    ensures (n as bv8) as int == n
  {
  }

  lemma BytesAsNumber(h: bv8, l: bv8)
    ensures (((h as bv16) << 8) | (l as bv16)) as int == 256 * (h as int) + l as int
  {
  }

  lemma AsNumber(n: u16)
    ensures (n as bv16) as int == n
  {
    var h, l := n / 256, n % 256;
    ByteAsNumber(h);
    ByteAsNumber(l);
    BytesAsNumber(h as bv8, l as bv8);
    AsBits(((h as bv8 as bv16) << 8) | (l as bv8 as bv16));
  }

  lemma AsBits(v: bv16)
    ensures (v as int) as bv16 == v
  {
  }
}
