/** The message builder of stuncore/stunbuilder.cpp: every method appends to, or patches, one data stream. */
module StunBuilders {
  import opened Options
  import opened StunTypes
  import opened StunWire
  import opened StunIntegrity
  import opened SocketAddresses
  import opened DataStreams

  /** The attribute AddAttribute writes: in legacy mode (RFC 3489) the declared length includes the padding. */
  function AttributeWire(fLegacy: bool, atype: u16, value: seq<byte>): (w: Wire)
    ensures |value| + 3 <= MAX_STUN_ATTRIBUTE_SIZE ==> Formed(w)
    ensures |w.data| == |value| + Padding(|value|)
  {
    Wire(atype, if fLegacy then |value| + Padding(|value|) else |value|, value + Zeros(Padding(|value|)))
  }

  /** The value of an ERROR-CODE attribute. */
  function ErrorValue(errorNumber: u16, reason: seq<byte>): seq<byte> {
    [0, 0, errorNumber / 100 % 256, errorNumber % 100] + reason
  }

  function ChangeRequestValue(fChangeIP: bool, fChangePort: bool): seq<byte> {
    BE32((if fChangeIP then 4 else 0) + (if fChangePort then 2 else 0))
  }

  /** The key of a long-term credential (section 15.4 of RFC 5389). */
  function LongTermKey(user: seq<byte>, realm: seq<byte>, password: seq<byte>, crypto: Crypto): Hash16 {
    crypto.md5(user + [0x3a] + realm + [0x3a] + password)
  }

  lemma OverwriteAtEnd(s: seq<byte>, data: seq<byte>)
    ensures Overwrite(s, |s|, data) == s + data
  {
  }

  lemma OverwriteTail(s: seq<byte>, data: seq<byte>)
    requires |data| <= |s|
    ensures Overwrite(s, |s| - |data|, data) == s[..|s| - |data|] + data
  {
  }

  lemma BlankIntegrity(fLegacy: bool)
    ensures AttributeWire(fLegacy, STUN_ATTRIBUTE_MESSAGEINTEGRITY, Zeros(20))
            == Wire(STUN_ATTRIBUTE_MESSAGEINTEGRITY, 20, Zeros(20))
  {
    assert Zeros(20) + Zeros(0) == Zeros(20);
  }

  lemma OverwriteLength(s: seq<byte>)
    requires |s| >= STUN_HEADER_SIZE
    ensures Overwrite(s, 2, BE16((|s| - STUN_HEADER_SIZE) % 0x1_0000)) == WithLength(s)
  {
  }

  lemma Chain3(s: seq<byte>, a: seq<byte>, b: seq<byte>)
    ensures s + a + b == s + (a + b)
  {
  }

  lemma Chain5(s: seq<byte>, a: seq<byte>, b: seq<byte>, c: seq<byte>, d: seq<byte>)
    ensures s + a + (b + c) + d == s + (a + b + c + d)
  {
  }

  lemma Chain4(s: seq<byte>, a: seq<byte>, b: seq<byte>, c: seq<byte>)
    ensures s + a + (b + c) == s + (a + b + c)
  {
  }

  lemma ErrorChain(errorNumber: u16, reason: seq<byte>, pad: seq<byte>)
    ensures [0, 0] + [errorNumber / 100 % 256] + [errorNumber % 100] + (reason + pad)
            == ErrorValue(errorNumber, reason) + pad
    ensures |ErrorValue(errorNumber, reason)| == |reason| + 4
    ensures Padding(|reason| + 4) == Padding(|reason|)
  {
  }

  lemma ErrorWireIs(fLegacy: bool, errorNumber: u16, reason: seq<byte>)
    ensures var size := |reason| + 4;
            WireBytes(AttributeWire(fLegacy, STUN_ATTRIBUTE_ERRORCODE, ErrorValue(errorNumber, reason)))
            == BE16(STUN_ATTRIBUTE_ERRORCODE) + BE16(if fLegacy then size + Padding(size) else size)
               + (ErrorValue(errorNumber, reason) + Zeros(Padding(size)))
  {
    assert |ErrorValue(errorNumber, reason)| == |reason| + 4;
  }

  lemma AddressChain(a: Address)
    ensures [0] + [FamilyByte(a)] + a.port + a.ip == AddressBytes(a)
    ensures Padding(|AddressBytes(a)|) == 0 && AddressBytes(a) + Zeros(0) == AddressBytes(a)
  {
  }

  class CStunMessageBuilder {
    const stream: DataStream
    const crypto: Crypto
    var transactionid: TransactionId
    var fLegacyMode: bool

    ghost function Repr(): set<object>
      reads this, stream
    {
      {this} + stream.Repr()
    }

    ghost function Contents(): seq<byte>
      reads stream.Repr()
    {
      stream.Contents()
    }

    /** Between calls the cursor stands at the end of what has been built. */
    ghost predicate Valid()
      reads stream.Repr()
    {
      stream.Valid() && !stream.fNoGrow && stream.pos == |stream.Contents()|
    }

    /** A builder on a buffer of the caller, which is emptied. */
    constructor (buffer: Buffer, crypto: Crypto, fLegacyMode: bool)
      requires buffer.size <= buffer.data.Length
      modifies buffer
      ensures Valid() && Contents() == [] && stream.buffer == buffer && fresh(stream)
      ensures this.crypto == crypto && this.fLegacyMode == fLegacyMode
    {
      stream := new DataStream();
      this.crypto := crypto;
      transactionid := Zeros(16);
      this.fLegacyMode := fLegacyMode;
      new;
      stream.Attach(buffer, true);
    }

    method Append(data: seq<byte>)
      requires Valid() && data != []
      modifies stream.Repr()
      ensures Valid() && Contents() == old(Contents()) + data
      ensures fresh(stream.Repr() - old(stream.Repr()))
      ensures |Contents()| <= old(stream.Capacity()) ==> stream.buffer == old(stream.buffer)
    {
      OverwriteAtEnd(stream.Contents(), data);
      var _ := stream.Write(data);
    }

    method AppendBoth(first: seq<byte>, second: seq<byte>)
      requires Valid() && first != [] && second != []
      modifies stream.Repr()
      ensures Valid() && Contents() == old(Contents()) + (first + second)
      ensures fresh(stream.Repr() - old(stream.Repr()))
      ensures |Contents()| <= old(stream.Capacity()) ==> stream.buffer == old(stream.buffer)
    {
      ghost var before := Contents();
      Append(first);
      Append(second);
      Chain3(before, first, second);
    }

    method AddHeader(msgType: bv16, msgClass: StunMessageClass)
      requires Valid()
      modifies stream.Repr()
      ensures Valid() && Contents() == old(Contents()) + BE16(MsgTypeField(msgType, msgClass) as int) + BE16(0)
      ensures fresh(stream.Repr() - old(stream.Repr()))
      ensures |Contents()| <= old(stream.Capacity()) && 200 <= old(stream.Capacity())
              ==> stream.buffer == old(stream.buffer)
    {
      var _ := stream.Grow(200);
      Append(BE16(MsgTypeField(msgType, msgClass) as int));
      Append(BE16(0));
    }

    method AddTransactionId(transid: TransactionId)
      requires Valid()
      modifies stream.Repr(), `transactionid
      ensures Valid() && Contents() == old(Contents()) + transid && transactionid == transid
      ensures fresh(stream.Repr() - old(stream.Repr()))
      ensures |Contents()| <= old(stream.Capacity()) ==> stream.buffer == old(stream.buffer)
    {
      transactionid := transid;
      Append(transid);
    }

    method AddAttributeHeader(atype: u16, size: nat)
      requires Valid()
      modifies stream.Repr()
      ensures Valid() && Contents() == old(Contents()) + (BE16(atype) + BE16(size))
      ensures fresh(stream.Repr() - old(stream.Repr()))
      ensures |Contents()| <= old(stream.Capacity()) ==> stream.buffer == old(stream.buffer)
    {
      Append(BE16(atype));
      Append(BE16(size));
    }

    /** A null pointer writes a header that still declares `size` bytes, and nothing behind it. */
    method AddAttribute(atype: u16, data: Option<seq<byte>>, size: u16)
      requires Valid() && (data.Some? ==> |data.value| == size)
      modifies stream.Repr()
      ensures Valid()
      ensures Contents() == old(Contents())
              + WireBytes(if data.Some? then AttributeWire(fLegacyMode, atype, data.value) else Wire(atype, size, []))
      ensures fresh(stream.Repr() - old(stream.Repr()))
      ensures |Contents()| <= old(stream.Capacity()) ==> stream.buffer == old(stream.buffer)
    {
      ghost var before := Contents();
      var bytes := if data.Some? then data.value else [];
      var sizeheader := size as nat;
      if fLegacyMode {
        sizeheader := sizeheader + Padding(|bytes|);
      }
      AddAttributeHeader(atype, sizeheader);
      AppendPadded(bytes);
      Chain3(before, BE16(atype) + BE16(sizeheader), bytes + Zeros(Padding(|bytes|)));
    }

    /** A value, if there is any, followed by zeros up to the four-byte boundary. */
    method AppendPadded(data: seq<byte>)
      requires Valid()
      modifies stream.Repr()
      ensures Valid() && Contents() == old(Contents()) + (data + Zeros(Padding(|data|)))
      ensures fresh(stream.Repr() - old(stream.Repr()))
      ensures |Contents()| <= old(stream.Capacity()) ==> stream.buffer == old(stream.buffer)
    {
      ghost var before := Contents();
      var padding := Padding(|data|);
      if |data| > 0 {
        Append(data);
      }
      if padding > 0 {
        Append(Zeros(padding));
      }
      Chain3(before, data, Zeros(padding));
    }

    method AddStringAttribute(atype: u16, s: seq<byte>) returns (ok: bool)
      requires Valid() && |s| < 0x1_0000
      modifies stream.Repr()
      ensures Valid() && (ok <==> s != [])
      ensures Contents() == old(Contents()) + if ok then WireBytes(AttributeWire(fLegacyMode, atype, s)) else []
      ensures fresh(stream.Repr() - old(stream.Repr()))
      ensures |Contents()| <= old(stream.Capacity()) ==> stream.buffer == old(stream.buffer)
    {
      if s == [] {
        return false;
      }
      AddAttribute(atype, Some(s), |s|);
      return true;
    }

    method AddErrorCode(errorNumber: u16, reason: seq<byte>) returns (ok: bool)
      requires Valid()
      modifies stream.Repr()
      ensures Valid() && (ok <==> |reason| < 128 && 300 <= errorNumber <= 600)
      ensures ok ==> Contents() == old(Contents()) + WireBytes(AttributeWire(fLegacyMode, STUN_ATTRIBUTE_ERRORCODE,
                                                                            ErrorValue(errorNumber, reason)))
      ensures !ok ==> Contents() == old(Contents())
      ensures fresh(stream.Repr() - old(stream.Repr()))
      ensures |Contents()| <= old(stream.Capacity()) ==> stream.buffer == old(stream.buffer)
    {
      if |reason| >= 128 || errorNumber < 300 || errorNumber > 600 {
        return false;
      }
      ghost var before := Contents();
      var size := |reason| + 4;
      var sizeheader := if fLegacyMode then size + Padding(size) else size;
      AddAttributeHeader(STUN_ATTRIBUTE_ERRORCODE, sizeheader);
      AddErrorValue(errorNumber, reason);
      ErrorWireIs(fLegacyMode, errorNumber, reason);
      Chain3(before, BE16(STUN_ATTRIBUTE_ERRORCODE) + BE16(sizeheader),
             ErrorValue(errorNumber, reason) + Zeros(Padding(size)));
      return true;
    }

    /** The value of the ERROR-CODE attribute, with its padding. */
    method AddErrorValue(errorNumber: u16, reason: seq<byte>)
      requires Valid()
      modifies stream.Repr()
      ensures Valid()
      ensures Contents() == old(Contents()) + (ErrorValue(errorNumber, reason) + Zeros(Padding(|reason| + 4)))
      ensures fresh(stream.Repr() - old(stream.Repr()))
      ensures |Contents()| <= old(stream.Capacity()) ==> stream.buffer == old(stream.buffer)
    {
      ghost var before := Contents();
      Append([0, 0]);
      AppendBoth([errorNumber / 100 % 256], [errorNumber % 100]);
      AppendPadded(reason);
      ghost var pad := Zeros(Padding(|reason|));
      ErrorChain(errorNumber, reason, pad);
      Chain5(before, [0, 0], [errorNumber / 100 % 256], [errorNumber % 100], reason + pad);
    }

    method AddMappedAddressImpl(attribute: u16, addr: Address)
      requires Valid()
      modifies stream.Repr()
      ensures Valid()
      ensures Contents() == old(Contents()) + WireBytes(AttributeWire(fLegacyMode, attribute, AddressBytes(addr)))
      ensures fresh(stream.Repr() - old(stream.Repr()))
      ensures |Contents()| <= old(stream.Capacity()) ==> stream.buffer == old(stream.buffer)
    {
      ghost var before := Contents();
      var attributeSize := if addr.v4 then 8 else 20;
      AddAttributeHeader(attribute, attributeSize);
      AddAddressValue(addr);
      AddressChain(addr);
      Chain3(before, BE16(attribute) + BE16(attributeSize), AddressBytes(addr));
    }

    method AddAddressValue(addr: Address)
      requires Valid()
      modifies stream.Repr()
      ensures Valid() && Contents() == old(Contents()) + AddressBytes(addr)
      ensures fresh(stream.Repr() - old(stream.Repr()))
      ensures |Contents()| <= old(stream.Capacity()) ==> stream.buffer == old(stream.buffer)
    {
      ghost var before := Contents();
      AppendBoth([0], [FamilyByte(addr)]);
      AppendBoth(addr.port, addr.ip);
      AddressChain(addr);
      Chain4(before, [0] + [FamilyByte(addr)], addr.port, addr.ip);
    }

    method AddMappedAddress(addr: Address)
      requires Valid()
      modifies stream.Repr()
      ensures Valid()
      ensures Contents() == old(Contents())
              + WireBytes(AttributeWire(fLegacyMode, STUN_ATTRIBUTE_MAPPEDADDRESS, AddressBytes(addr)))
      ensures fresh(stream.Repr() - old(stream.Repr()))
      ensures |Contents()| <= old(stream.Capacity()) ==> stream.buffer == old(stream.buffer)
    {
      AddMappedAddressImpl(STUN_ATTRIBUTE_MAPPEDADDRESS, addr);
    }

    method AddXorMappedAddress(addr: Address)
      requires Valid()
      modifies stream.Repr()
      ensures Valid()
      ensures Contents() == old(Contents())
              + WireBytes(AttributeWire(fLegacyMode, XorMappedType(fLegacyMode),
                                        AddressBytes(XorMapped(addr, transactionid))))
      ensures fresh(stream.Repr() - old(stream.Repr()))
      ensures |Contents()| <= old(stream.Capacity()) ==> stream.buffer == old(stream.buffer)
    {
      AddMappedAddressImpl(XorMappedType(fLegacyMode), XorMapped(addr, transactionid));
    }

    method AddResponseOriginAddress(addr: Address)
      requires Valid()
      modifies stream.Repr()
      ensures Valid()
      ensures Contents() == old(Contents())
              + WireBytes(AttributeWire(fLegacyMode, OriginType(fLegacyMode), AddressBytes(addr)))
      ensures fresh(stream.Repr() - old(stream.Repr()))
      ensures |Contents()| <= old(stream.Capacity()) ==> stream.buffer == old(stream.buffer)
    {
      AddMappedAddressImpl(OriginType(fLegacyMode), addr);
    }

    method AddOtherAddress(addr: Address)
      requires Valid()
      modifies stream.Repr()
      ensures Valid()
      ensures Contents() == old(Contents())
              + WireBytes(AttributeWire(fLegacyMode, OtherType(fLegacyMode), AddressBytes(addr)))
      ensures fresh(stream.Repr() - old(stream.Repr()))
      ensures |Contents()| <= old(stream.Capacity()) ==> stream.buffer == old(stream.buffer)
    {
      AddMappedAddressImpl(OtherType(fLegacyMode), addr);
    }

    method AddChangeRequest(fChangeIP: bool, fChangePort: bool)
      requires Valid()
      modifies stream.Repr()
      ensures Valid()
      ensures Contents() == old(Contents())
              + WireBytes(AttributeWire(fLegacyMode, STUN_ATTRIBUTE_CHANGEREQUEST,
                                        ChangeRequestValue(fChangeIP, fChangePort)))
      ensures fresh(stream.Repr() - old(stream.Repr()))
      ensures |Contents()| <= old(stream.Capacity()) ==> stream.buffer == old(stream.buffer)
    {
      AddAttribute(STUN_ATTRIBUTE_CHANGEREQUEST, Some(ChangeRequestValue(fChangeIP, fChangePort)), 4);
    }

    method FixLengthField() returns (ok: bool)
      requires Valid()
      modifies stream.Repr()
      ensures Valid() && (ok <==> |old(Contents())| >= STUN_HEADER_SIZE)
      ensures Contents() == if ok then WithLength(old(Contents())) else old(Contents())
      ensures stream.buffer == old(stream.buffer)
    {
      var size := stream.GetSize();
      var currentPos := stream.pos;
      if size < STUN_HEADER_SIZE {
        return false;
      }
      size := size - STUN_HEADER_SIZE;
      OverwriteLength(stream.Contents());
      ok := stream.SeekDirect(2);
      ok := stream.Write(BE16(size % 0x1_0000));
      ok := stream.SeekDirect(currentPos);
    }

    lemma IntegrityPatched(m: seq<byte>, m1: seq<byte>, key: seq<byte>, hashed: seq<byte>)
      requires m1 == WithLength(m + WireBytes(Wire(STUN_ATTRIBUTE_MESSAGEINTEGRITY, 20, Zeros(20))))
      requires hashed == m1[..|m1| - 24]
      ensures WithIntegrity(m, key, crypto) == m1[..|m1| - 20] + crypto.hmac(key, hashed)
    {
    }

    lemma FingerprintPatched(m: seq<byte>, m1: seq<byte>, checked: seq<byte>)
      requires |m| + 8 >= STUN_HEADER_SIZE
      requires m1 == WithLength(m + WireBytes(Wire(STUN_ATTRIBUTE_FINGERPRINT, 4, BE32(0))))
      requires checked == m1[..|m1| - 8]
      ensures WithFingerprint(m, crypto) == m1[..|m1| - 4] + BE32(XorFingerprint(crypto.crc32(checked)))
    {
    }

    /** The value of the last attribute, of `|value|` bytes, is overwritten in the buffer itself. */
    method PatchEnd(value: seq<byte>)
      requires Valid() && stream.buffer != null && |value| <= |Contents()|
      modifies stream.buffer.data
      ensures Valid() && Contents() == old(Contents())[..|old(Contents())| - |value|] + value
      ensures stream.buffer == old(stream.buffer)
    {
      var at := stream.buffer.size - |value|;
      ghost var data := stream.buffer.data;
      ghost var n := stream.buffer.size;
      DataStream.Copy(stream.buffer.data, at, value);
      assert data[..n] == data[..at] + data[at..at + |value|];
      assert data[..at] == old(stream.buffer.data[..at]);
    }

    method AddMessageIntegrityImpl(key: seq<byte>) returns (ok: bool)
      requires Valid()
      modifies stream.Repr()
      ensures Valid() && (ok <==> key != [])
      ensures Contents() == if ok then WithIntegrity(old(Contents()), key, crypto) else old(Contents())
      ensures fresh(stream.Repr() - old(stream.Repr()))
      ensures |Contents()| <= old(stream.Capacity()) ==> stream.buffer == old(stream.buffer)
    {
      if key == [] {
        return false;
      }
      ghost var before := Contents();
      BlankIntegrity(fLegacyMode);
      AddAttribute(STUN_ATTRIBUTE_MESSAGEINTEGRITY, Some(Zeros(20)), 20);
      ok := FixLengthField();
      ghost var m1 := Contents();
      assert m1 == WithLength(before + WireBytes(Wire(STUN_ATTRIBUTE_MESSAGEINTEGRITY, 20, Zeros(20))));
      var length := stream.GetSize() - 24;
      var hashed := stream.buffer.data[..length];
      assert hashed == m1[..length];
      IntegrityPatched(before, m1, key, hashed);
      PatchEnd(crypto.hmac(key, hashed));
    }

    method AddMessageIntegrityShortTerm(password: seq<byte>) returns (ok: bool)
      requires Valid()
      modifies stream.Repr()
      ensures Valid() && (ok <==> password != [])
      ensures Contents() == if ok then WithIntegrity(old(Contents()), password, crypto) else old(Contents())
      ensures fresh(stream.Repr() - old(stream.Repr()))
      ensures |Contents()| <= old(stream.Capacity()) ==> stream.buffer == old(stream.buffer)
    {
      ok := AddMessageIntegrityImpl(password);
    }

    method AddMessageIntegrityLongTerm(user: seq<byte>, realm: seq<byte>, password: seq<byte>) returns (ok: bool)
      requires Valid()
      modifies stream.Repr()
      ensures Valid() && (ok <==> |user| + |realm| + |password| <= 3 * MAX_STUN_AUTH_STRING_SIZE)
      ensures Contents()
              == if ok then WithIntegrity(old(Contents()), LongTermKey(user, realm, password, crypto), crypto)
                            else old(Contents())
      ensures fresh(stream.Repr() - old(stream.Repr()))
      ensures |Contents()| <= old(stream.Capacity()) ==> stream.buffer == old(stream.buffer)
    {
      if |user| + |realm| + |password| + 2 > 3 * MAX_STUN_AUTH_STRING_SIZE + 2 {
        return false;
      }
      ok := AddMessageIntegrityImpl(LongTermKey(user, realm, password, crypto));
    }

    /** On a stream too short for a header the attribute stays blank. */
    method AddFingerprintAttribute() returns (ok: bool)
      requires Valid()
      modifies stream.Repr()
      ensures Valid() && (ok <==> |old(Contents())| + 8 >= STUN_HEADER_SIZE)
      ensures Contents() == if ok then WithFingerprint(old(Contents()), crypto)
                            else old(Contents()) + WireBytes(Wire(STUN_ATTRIBUTE_FINGERPRINT, 4, BE32(0)))
      ensures fresh(stream.Repr() - old(stream.Repr()))
      ensures |Contents()| <= old(stream.Capacity()) ==> stream.buffer == old(stream.buffer)
    {
      AddBlankFingerprint();
      ok := FixLengthField();
      if ok {
        FillFingerprint(old(Contents()));
      }
    }

    /** The CRC of everything but the last eight bytes goes into the blank attribute. `before` is the stream without
        it. */
    method FillFingerprint(ghost before: seq<byte>)
      requires Valid() && |before| + 8 >= STUN_HEADER_SIZE
      requires Contents() == WithLength(before + WireBytes(Wire(STUN_ATTRIBUTE_FINGERPRINT, 4, BE32(0))))
      modifies stream.Repr()
      ensures Valid() && Contents() == WithFingerprint(before, crypto) && stream.buffer == old(stream.buffer)
    {
      ghost var m1 := Contents();
      var length := stream.GetSize() - 8;
      var checked := stream.buffer.data[..length];
      assert checked == m1[..length];
      var value := XorFingerprint(crypto.crc32(checked));
      FingerprintPatched(before, m1, checked);
      RewriteEnd(BE32(value));
    }

    method AddBlankFingerprint()
      requires Valid()
      modifies stream.Repr()
      ensures Valid() && Contents() == old(Contents()) + WireBytes(Wire(STUN_ATTRIBUTE_FINGERPRINT, 4, BE32(0)))
      ensures fresh(stream.Repr() - old(stream.Repr()))
      ensures |Contents()| <= old(stream.Capacity()) ==> stream.buffer == old(stream.buffer)
    {
      ghost var before := Contents();
      AddAttributeHeader(STUN_ATTRIBUTE_FINGERPRINT, 4);
      Append(BE32(0));
      Chain3(before, BE16(STUN_ATTRIBUTE_FINGERPRINT) + BE16(4), BE32(0));
    }

    /** Seeks back and overwrites the last bytes of the stream. */
    method RewriteEnd(value: seq<byte>)
      requires Valid() && 0 < |value| <= |Contents()|
      modifies stream.Repr()
      ensures Valid() && Contents() == old(Contents())[..|old(Contents())| - |value|] + value
      ensures stream.buffer == old(stream.buffer)
    {
      OverwriteTail(stream.Contents(), value);
      var ok := stream.SeekRelative(-|value|);
      ok := stream.Write(value);
    }
  }

  function XorMappedType(fLegacy: bool): u16 {
    if fLegacy then STUN_ATTRIBUTE_XORMAPPEDADDRESS_OPTIONAL else STUN_ATTRIBUTE_XORMAPPEDADDRESS
  }

  function OriginType(fLegacy: bool): u16 {
    if fLegacy then STUN_ATTRIBUTE_SOURCEADDRESS else STUN_ATTRIBUTE_RESPONSE_ORIGIN
  }

  function OtherType(fLegacy: bool): u16 {
    if fLegacy then STUN_ATTRIBUTE_CHANGEDADDRESS else STUN_ATTRIBUTE_OTHER_ADDRESS
  }
}
