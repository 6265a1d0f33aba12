/** The incremental message reader of stuncore/stunreader.cpp. Its state is a function of the bytes it was fed. */
module StunReaders {
  import opened Options
  import opened StunTypes
  import opened StunWire
  import opened StunIntegrity
  import opened SocketAddresses
  import opened DataStreams
  import EL = EntryList
  import opened FastHashTable

  type AttributeItem = EL.Item<u16, StunAttribute>

  function ItemOf(a: StunAttribute): AttributeItem {
    EL.Item(a.attributeType, a)
  }

  /** The index of the attribute table: wire order. */
  ghost function InOrder(spans: seq<StunAttribute>): (items: seq<AttributeItem>)
    ensures |items| == |spans|
  {
    seq(|spans|, i requires 0 <= i < |spans| => ItemOf(spans[i]))
  }

  /** The entries of the attribute table: newest first. */
  ghost function Newest(spans: seq<StunAttribute>): (items: seq<AttributeItem>)
    ensures |items| == |spans|
  {
    if spans == [] then [] else [ItemOf(spans[|spans| - 1])] + Newest(spans[..|spans| - 1])
  }

  /** Looking up a type in the table finds its last attribute on the wire. */
  lemma {:induction false} LookupIsLast(spans: seq<StunAttribute>, t: u16)
    ensures EL.Lookup(Newest(spans), t) == LastOf(spans, t)
  {
    if spans != [] {
      var front, last := spans[..|spans| - 1], ItemOf(spans[|spans| - 1]);
      LookupIsLast(front, t);
      EL.InsertPushes(Newest(front), last.key, last.value, t);
      EL.LookupIsTop(Newest(front), t);
      EL.LookupIsTop(Newest(spans), t);
    }
  }

  lemma SnocItems(spans: seq<StunAttribute>, a: StunAttribute)
    ensures Newest(spans + [a]) == [ItemOf(a)] + Newest(spans)
    ensures InOrder(spans + [a]) == InOrder(spans) + [ItemOf(a)]
  {
    assert (spans + [a])[..|spans|] == spans;
  }

  // ---- what an accepted message says ----

  /** The value of the last attribute of a type. */
  ghost function ValueOf(bytes: seq<byte>, t: u16): Option<seq<byte>> {
    if !(STUN_HEADER_SIZE <= |bytes| < 0x1_0000) || Attributes(bytes).None? then None else
      match LastOf(Attributes(bytes).value, t)
      case None => None
      case Some(a) => if a.offset + a.size <= |bytes| then Some(bytes[a.offset..a.offset + a.size]) else None
  }

  ghost function ResponsePortOf(bytes: seq<byte>): Option<u16> {
    var v := ValueOf(bytes, STUN_ATTRIBUTE_RESPONSE_PORT);
    if v.Some? && |v.value| == 2 then Some(Read16(v.value, 0)) else None
  }

  datatype ChangeRequest = ChangeRequest(fChangeIP: bool, fChangePort: bool)

  function ReadChangeRequest(v: seq<byte>): ChangeRequest
    requires |v| == 4
  {
    ChangeRequest(Read32(v, 0) / 4 % 2 == 1, Read32(v, 0) / 2 % 2 == 1)
  }

  ghost function ChangeRequestOf(bytes: seq<byte>): Option<ChangeRequest> {
    var v := ValueOf(bytes, STUN_ATTRIBUTE_CHANGEREQUEST);
    if v.Some? && |v.value| == 4 then Some(ReadChangeRequest(v.value)) else None
  }

  ghost function AddressOf(bytes: seq<byte>, t: u16): Option<Address> {
    var v := ValueOf(bytes, t);
    if v.Some? then ParseAddress(v.value) else None
  }

  ghost function FirstOf(a: Option<Address>, b: Option<Address>): Option<Address> {
    if a.Some? then a else b
  }

  ghost function MappedAddressOf(bytes: seq<byte>): Option<Address> {
    AddressOf(bytes, STUN_ATTRIBUTE_MAPPEDADDRESS)
  }

  ghost function OtherAddressOf(bytes: seq<byte>): Option<Address> {
    FirstOf(AddressOf(bytes, STUN_ATTRIBUTE_OTHER_ADDRESS), AddressOf(bytes, STUN_ATTRIBUTE_CHANGEDADDRESS))
  }

  ghost function XorMappedAddressOf(bytes: seq<byte>): Option<Address>
    requires |bytes| >= STUN_HEADER_SIZE
  {
    match FirstOf(AddressOf(bytes, STUN_ATTRIBUTE_XORMAPPEDADDRESS),
                  AddressOf(bytes, STUN_ATTRIBUTE_XORMAPPEDADDRESS_OPTIONAL))
    case None => None
    case Some(a) => Some(XorMapped(a, TransactionIdOf(bytes)))
  }

  /** GetStringAttributeByType into a buffer of `size` bytes. */
  ghost function StringOf(bytes: seq<byte>, t: u16, size: nat): Option<seq<byte>> {
    var v := ValueOf(bytes, t);
    if v.Some? && |v.value| < size then v else None
  }

  /** The attributes of an accepted message are aligned and lie inside it. */
  lemma LastOfFits(bytes: seq<byte>, t: u16)
    requires STUN_HEADER_SIZE <= |bytes| < 0x1_0000 && Attributes(bytes).Some?
    ensures match LastOf(Attributes(bytes).value, t)
            case None => ValueOf(bytes, t) == None
            case Some(a) =>
              24 <= a.offset && a.offset % 4 == 0 && End(a) <= |bytes|
              && ValueOf(bytes, t) == Some(bytes[a.offset..a.offset + a.size])
  {
    var spans := Attributes(bytes).value;
    WalkSound(bytes, STUN_HEADER_SIZE, 0);
    if LastIndex(spans, t) >= 0 {
      OffsetsAligned(bytes, spans, LastIndex(spans, t));
    }
  }

  /** A fingerprint holds when the last one has the right size and carries the checksum. */
  lemma FingerprintIsLast(bytes: seq<byte>, crypto: Crypto)
    requires STUN_HEADER_SIZE <= |bytes| < 0x1_0000 && Attributes(bytes).Some?
    ensures var a := LastOf(Attributes(bytes).value, STUN_ATTRIBUTE_FINGERPRINT);
            if a.Some? && a.value.size == 4 then
              a.value.offset + 4 <= |bytes|
              && (FingerprintHolds(bytes, Attributes(bytes).value, crypto) <==>
                  XorFingerprint(crypto.crc32(bytes[..|bytes| - 8])) == Read32(bytes, a.value.offset))
            else !FingerprintHolds(bytes, Attributes(bytes).value, crypto)
  {
    LastOfFits(bytes, STUN_ATTRIBUTE_FINGERPRINT);
  }

  // ---- steps of the body loop ----

  /** After the attributes `done`, ending at `pos`, the fate of the whole body is the fate of the rest. */
  ghost predicate WalkedTo(bytes: seq<byte>, pos: nat, done: seq<StunAttribute>)
    requires STUN_HEADER_SIZE <= |bytes| < 0x1_0000 && pos <= |bytes|
  {
    Attributes(bytes) == match Walk(bytes, pos, |done|)
                         case None => None
                         case Some(rest) => Some(done + rest)
  }

  lemma WalkEnds(bytes: seq<byte>, done: seq<StunAttribute>)
    requires STUN_HEADER_SIZE <= |bytes| < 0x1_0000
    ensures WalkedTo(bytes, STUN_HEADER_SIZE, [])
    ensures WalkedTo(bytes, |bytes|, done) ==> Attributes(bytes) == Some(done)
  {
    match Walk(bytes, STUN_HEADER_SIZE, 0) {
      case None =>
      case Some(rest) => assert [] + rest == rest;
    }
    assert done + [] == done;
  }

  /** The attribute that starts at `pos`, if the loop accepts it as number `count`. */
  function NextAttribute(bytes: seq<byte>, pos: nat, count: nat): Option<StunAttribute>
    requires |bytes| < 0x1_0000
  {
    if pos + 4 > |bytes| then None else
      var a := StunAttribute(Read16(bytes, pos), Read16(bytes, pos + 2), pos + 4);
      if a.size > MAX_STUN_ATTRIBUTE_SIZE || count >= MAX_NUM_ATTRIBUTES || End(a) > |bytes| then None else Some(a)
  }

  lemma WalkStep(bytes: seq<byte>, pos: nat, done: seq<StunAttribute>)
    requires STUN_HEADER_SIZE <= |bytes| < 0x1_0000 && pos < |bytes| && WalkedTo(bytes, pos, done)
    ensures match NextAttribute(bytes, pos, |done|)
            case None => Attributes(bytes).None?
            case Some(a) => WalkedTo(bytes, End(a), done + [a])
  {
    match NextAttribute(bytes, pos, |done|)
    case None =>
    case Some(a) =>
      match Walk(bytes, End(a), |done| + 1)
      case None =>
      case Some(rest) => assert done + ([a] + rest) == (done + [a]) + rest;
  }

  class CStunMessageReader {
    const stream: DataStream
    const crypto: Crypto
    var fAllowLegacyFormat: bool
    var fMessageIsLegacyFormat: bool
    var state: ReaderState
    const mapAttributes: FastHash<u16, StunAttribute>
    var indexFingerprint: int
    var indexMessageIntegrity: int
    var countAttributes: nat
    var transactionid: TransactionId
    var msgTypeNormalized: bv16
    var msgClass: StunMessageClass
    var msgLength: nat

    /** Every byte ever fed in, including those fed after an error. */
    ghost var fed: seq<byte>

    ghost predicate Separate()
      reads stream
    {
      && this !in mapAttributes.Repr && stream !in mapAttributes.Repr && mapAttributes !in stream.Repr()
      && mapAttributes.Repr !! stream.Repr()
    }

    /** What the header fields hold once the header has been read. */
    ghost predicate HeaderRead()
      reads this
    {
      && |fed| >= STUN_HEADER_SIZE
      && msgLength == DeclaredLength(fed) && transactionid == TransactionIdOf(fed)
      && msgTypeNormalized == Normalized(RawType(fed)) && msgClass == ClassOf(RawType(fed))
      && fMessageIsLegacyFormat == IsLegacy(TransactionIdOf(fed))
    }

    /** The table and the special indices describe exactly the attributes `spans`. */
    ghost predicate Indexed(spans: seq<StunAttribute>)
      reads this, mapAttributes, mapAttributes.Repr
    {
      && mapAttributes.Entries == Newest(spans) && mapAttributes.fIndexValid && mapAttributes.Order == InOrder(spans)
      && countAttributes == |spans|
      && indexFingerprint == LastIndex(spans, STUN_ATTRIBUTE_FINGERPRINT)
      && indexMessageIntegrity == LastIndex(spans, STUN_ATTRIBUTE_MESSAGEINTEGRITY)
    }

    ghost predicate Sound()
      reads stream, stream.Repr(), mapAttributes, mapAttributes.Repr
    {
      && Separate() && stream.Valid() && !stream.fNoGrow
      && mapAttributes.Valid() && mapAttributes.fsize == MAX_NUM_ATTRIBUTES
    }

    ghost predicate Valid()
      reads this, stream, stream.Repr(), mapAttributes, mapAttributes.Repr
    {
      && Sound()
      && state == Verdict(fed, fAllowLegacyFormat)
      && (state != ParseError ==> stream.Contents() == fed)
      && (state == HeaderNotRead || state == HeaderValidated ==> Indexed([]))
      && (state == HeaderValidated || state == BodyValidated ==> HeaderRead())
      && (state == BodyValidated ==> Indexed(Attributes(fed).value))
    }

    constructor (crypto: Crypto, hash: u16 -> nat)
      ensures Valid() && fed == [] && fAllowLegacyFormat && this.crypto == crypto
      ensures fresh(stream) && fresh(stream.Repr()) && fresh(mapAttributes) && fresh(mapAttributes.Repr)
    {
      stream := new DataStream();
      this.crypto := crypto;
      fAllowLegacyFormat := true;
      fMessageIsLegacyFormat := false;
      state := HeaderNotRead;
      mapAttributes := new FastHash<u16, StunAttribute>(MAX_NUM_ATTRIBUTES, 53, hash);
      indexFingerprint := -1;
      indexMessageIntegrity := -1;
      countAttributes := 0;
      transactionid := Zeros(16);
      msgTypeNormalized := 0xffff;
      msgClass := Request;
      msgLength := 0;
      fed := [];
    }

    /** Whether messages without the magic cookie are accepted is settled before the first byte. */
    method SetAllowLegacyFormat(fAllow: bool)
      requires Valid() && fed == []
      modifies `fAllowLegacyFormat
      ensures Valid() && fAllowLegacyFormat == fAllow
    {
      fAllowLegacyFormat := fAllow;
    }

    method HowManyBytesNeeded() returns (n: nat)
      requires Valid()
      ensures n == Needed(fed, fAllowLegacyFormat)
    {
      match state
      case HeaderNotRead => n := STUN_HEADER_SIZE - stream.GetSize();
      case HeaderValidated => n := msgLength + STUN_HEADER_SIZE - stream.GetSize();
      case BodyValidated => n := 0;
      case ParseError => n := 0;
    }

    /** The reads of ReadHeader, from the start of the stream. */
    method ReadHeaderFields() returns (msgType: bv16, length: nat, transID: TransactionId)
      requires stream.Valid() && stream.Contents() == fed && |fed| >= STUN_HEADER_SIZE
      modifies stream`pos
      ensures stream.Valid() && stream.Contents() == fed
      ensures msgType == RawType(fed) && length == DeclaredLength(fed) && transID == TransactionIdOf(fed)
    {
      var ok := stream.SeekDirect(0);
      var data;
      ok, data := stream.Read(2);
      msgType := Read16(data, 0) as bv16;
      ok, data := stream.Read(2);
      length := Read16(data, 0);
      ok, data := stream.Read(16);
      transID := data;
    }

    method ReadHeader() returns (ok: bool)
      requires stream.Valid() && stream.Contents() == fed && |fed| >= STUN_HEADER_SIZE
      modifies stream`pos, `fMessageIsLegacyFormat, `msgTypeNormalized, `msgLength, `transactionid, `msgClass
      ensures stream.Valid() && stream.Contents() == fed
      ensures ok <==> HeaderValid(fed, fAllowLegacyFormat)
      ensures ok ==> HeaderRead()
    {
      var msgType, length, transID := ReadHeaderFields();
      fMessageIsLegacyFormat := Read32(transID, 0) != STUN_COOKIE;
      var fHeaderValid := ZeroTopBits(msgType) && length % 4 == 0;
      fHeaderValid := fHeaderValid && (fAllowLegacyFormat || !fMessageIsLegacyFormat);
      if !fHeaderValid {
        return false;
      }
      msgTypeNormalized := Normalized(msgType);
      msgLength := length;
      transactionid := transID;
      if msgLength > MAX_STUN_MESSAGE_SIZE {
        return false;
      }
      msgClass := ClassOf(msgType);
      return true;
    }

    /** One attribute goes into the table; a full table refuses it. */
    method Index(a: StunAttribute, ghost done: seq<StunAttribute>) returns (ok: bool)
      requires this !in mapAttributes.Repr && mapAttributes.Valid() && mapAttributes.fsize == MAX_NUM_ATTRIBUTES
      requires Indexed(done)
      modifies mapAttributes.Repr, `indexFingerprint, `indexMessageIntegrity, `countAttributes
      ensures mapAttributes.Valid()
      ensures ok <==> |done| < MAX_NUM_ATTRIBUTES
      ensures ok ==> Indexed(done + [a])
    {
      SnocItems(done, a);
      LastIndexSnoc(done, a, STUN_ATTRIBUTE_FINGERPRINT);
      LastIndexSnoc(done, a, STUN_ATTRIBUTE_MESSAGEINTEGRITY);
      var result := mapAttributes.Insert(a.attributeType, a);
      if result < 0 {
        return false;
      }
      if a.attributeType == STUN_ATTRIBUTE_FINGERPRINT {
        indexFingerprint := countAttributes;
      }
      if a.attributeType == STUN_ATTRIBUTE_MESSAGEINTEGRITY {
        indexMessageIntegrity := countAttributes;
      }
      countAttributes := countAttributes + 1;
      return true;
    }

    /** One turn of the body loop: header, limits, table, value and padding. */
    method ReadAttribute(ghost done: seq<StunAttribute>) returns (ok: bool, a: StunAttribute)
      requires Sound() && |stream.Contents()| < 0x1_0000 && Indexed(done)
      modifies stream`pos, mapAttributes.Repr, `indexFingerprint, `indexMessageIntegrity, `countAttributes
      ensures Sound() && stream.Contents() == old(stream.Contents())
      ensures ok <==> NextAttribute(stream.Contents(), old(stream.pos), |done|).Some?
      ensures ok ==> NextAttribute(stream.Contents(), old(stream.pos), |done|) == Some(a)
                     && Indexed(done + [a]) && stream.pos == End(a)
    {
      ok, a := ReadAttributeHeader();
      if ok {
        ok := Index(a, done);
      }
      if ok {
        ok := SkipValue(a.size);
      }
    }

    method ReadAttributeHeader() returns (ok: bool, a: StunAttribute)
      requires stream.Valid() && |stream.Contents()| < 0x1_0000
      modifies stream`pos
      ensures stream.Valid()
      ensures ok <==> old(stream.pos) + 4 <= |stream.Contents()|
                      && Read16(stream.Contents(), old(stream.pos) + 2) <= MAX_STUN_ATTRIBUTE_SIZE
      ensures ok ==> stream.pos == old(stream.pos) + 4
      ensures ok ==> a == StunAttribute(Read16(stream.Contents(), old(stream.pos)),
                                        Read16(stream.Contents(), old(stream.pos) + 2), stream.pos)
    {
      a := StunAttribute(0, 0, 0);
      var data;
      ok, data := stream.Read(2);
      if !ok {
        return;
      }
      var attributeType := Read16(data, 0);
      ok, data := stream.Read(2);
      if !ok {
        return;
      }
      a := StunAttribute(attributeType, Read16(data, 0), stream.pos);
      ok := a.size <= MAX_STUN_ATTRIBUTE_SIZE;
    }

    /** Moves over a value and its padding. */
    method SkipValue(size: nat) returns (ok: bool)
      requires stream.Valid()
      modifies stream`pos
      ensures stream.Valid()
      ensures ok <==> old(stream.pos) + size + Padding(size) <= |stream.Contents()|
      ensures ok ==> stream.pos == old(stream.pos) + size + Padding(size)
    {
      ok := stream.SeekRelative(size);
      var paddingLength := Padding(size);
      if ok && paddingLength > 0 {
        ok := stream.SeekRelative(paddingLength);
      }
    }

    method ReadBody() returns (ok: bool)
      requires Sound() && stream.Contents() == fed && STUN_HEADER_SIZE <= |fed| < 0x1_0000
      requires Indexed([])
      modifies stream`pos, mapAttributes.Repr, `indexFingerprint, `indexMessageIntegrity, `countAttributes
      ensures Sound() && stream.Contents() == fed
      ensures ok <==> Attributes(fed).Some?
      ensures ok ==> Indexed(Attributes(fed).value)
    {
      var currentSize := stream.GetSize();
      var bytesConsumed := STUN_HEADER_SIZE;
      ghost var done: seq<StunAttribute> := [];
      WalkEnds(fed, done);
      ok := stream.SeekDirect(STUN_HEADER_SIZE);
      while ok && bytesConsumed < currentSize
        invariant Sound() && stream.Contents() == fed
        invariant bytesConsumed <= currentSize
        invariant ok ==> stream.pos == bytesConsumed && WalkedTo(fed, bytesConsumed, done) && Indexed(done)
        invariant !ok ==> bytesConsumed < currentSize && Attributes(fed).None?
        decreases currentSize - bytesConsumed, ok
      {
        WalkStep(fed, bytesConsumed, done);
        var a;
        ok, a := ReadAttribute(done);
        if ok {
          bytesConsumed := bytesConsumed + 4 + a.size + Padding(a.size);
          done := done + [a];
        }
      }
      ok := bytesConsumed == currentSize;
      WalkEnds(fed, done);
    }

    /** New bytes go to the end of the stream. */
    method Store(data: seq<byte>)
      requires Sound() && data != []
      modifies stream.Repr()
      ensures Sound() && stream.Contents() == old(stream.Contents()) + data
      ensures fresh(stream.Repr() - old(stream.Repr()))
    {
      var ok := stream.SeekDirect(stream.GetSize());
      assert Overwrite(stream.Contents(), |stream.Contents()|, data) == stream.Contents() + data;
      ok := stream.Write(data);
    }

    /** What is true between the bytes being stored and the state being brought up to date. */
    ghost predicate Pending(before: ReaderState)
      reads this, stream, stream.Repr(), mapAttributes, mapAttributes.Repr
    {
      && Sound() && stream.Contents() == fed && state == before
      && (before == HeaderNotRead ==> Indexed([]))
      && (before == HeaderValidated ==> HeaderRead() && HeaderValid(fed, fAllowLegacyFormat) && Indexed([]))
      && (before == BodyValidated ==>
            HeaderRead() && HeaderValid(fed, fAllowLegacyFormat) && |fed| > STUN_HEADER_SIZE + DeclaredLength(fed))
    }

    /** The reader reads a header as soon as it has one. */
    method AdvanceHeader()
      requires Pending(HeaderNotRead) && |fed| >= STUN_HEADER_SIZE
      modifies stream`pos, `fMessageIsLegacyFormat, `msgTypeNormalized, `msgLength, `transactionid, `msgClass, `state
      ensures Sound() && stream.Contents() == fed && Indexed([])
      ensures if HeaderValid(fed, fAllowLegacyFormat) then
                HeaderRead() && state == (if DeclaredLength(fed) == 0 then BodyValidated else HeaderValidated)
              else
                state == ParseError
    {
      var ok := ReadHeader();
      state := if ok then HeaderValidated else ParseError;
      if ok && msgLength == 0 {
        state := BodyValidated;
      }
    }

    /** The reader reads a body when it is complete, and refuses one that is too long. */
    method AdvanceBody()
      requires Pending(HeaderValidated)
      modifies stream`pos, mapAttributes.Repr, `indexFingerprint, `indexMessageIntegrity, `countAttributes, `state
      ensures Valid()
    {
      var currentSize := stream.GetSize();
      if currentSize >= msgLength + STUN_HEADER_SIZE {
        if currentSize == msgLength + STUN_HEADER_SIZE {
          var ok := ReadBody();
          state := if ok then BodyValidated else ParseError;
        } else {
          state := ParseError;
        }
      }
    }

    method AddBytes(data: seq<byte>) returns (s: ReaderState)
      requires Valid()
      modifies this, stream.Repr(), mapAttributes.Repr
      ensures Valid() && fed == old(fed) + data && s == state
      ensures fAllowLegacyFormat == old(fAllowLegacyFormat)
      ensures fresh(stream.Repr() - old(stream.Repr()))
    {
      if state == ParseError {
        ErrorIsFinal(fed, data, fAllowLegacyFormat);
        fed := fed + data;
        return ParseError;
      }
      if |data| == 0 {
        assert fed + data == fed;
        return state;
      }
      Take(data);
      Advance();
      s := state;
    }

    method Take(data: seq<byte>)
      requires Valid() && state != ParseError && data != []
      modifies stream.Repr(), `fed
      ensures Pending(state) && fed == old(fed) + data
      ensures fresh(stream.Repr() - old(stream.Repr()))
    {
      if |fed| >= STUN_HEADER_SIZE {
        HeaderStable(fed, data, fAllowLegacyFormat);
      }
      Store(data);
      fed := fed + data;
    }

    method Advance()
      requires state != ParseError && Pending(state)
      modifies stream`pos, `fMessageIsLegacyFormat, `msgTypeNormalized, `msgLength, `transactionid, `msgClass, `state
      modifies mapAttributes.Repr, `indexFingerprint, `indexMessageIntegrity, `countAttributes
      ensures Valid()
    {
      var currentSize := stream.GetSize();
      if state == HeaderNotRead {
        if currentSize >= STUN_HEADER_SIZE {
          AdvanceHeader();
        }
      }
      if state == HeaderValidated {
        AdvanceBody();
      }
      if state == BodyValidated {
        if currentSize > msgLength + STUN_HEADER_SIZE {
          state := ParseError;
        }
      }
    }

    // ---- reading a message: there is nothing to read before it is accepted ----

    method GetAttributeByType(t: u16) returns (r: Option<StunAttribute>)
      requires Valid()
      ensures state == BodyValidated ==> r == LastOf(Attributes(fed).value, t)
      ensures state == HeaderNotRead || state == HeaderValidated ==> r == None
    {
      if state != ParseError {
        LookupIsLast(if state == BodyValidated then Attributes(fed).value else [], t);
      }
      r := mapAttributes.Lookup(t);
    }

    /** Attributes by index come in wire order. */
    method GetAttributeByIndex(index: nat) returns (r: Option<StunAttribute>)
      requires Valid() && state != ParseError
      modifies mapAttributes.indexlist, mapAttributes`fIndexValid, mapAttributes`indexStart
      modifies mapAttributes`window, mapAttributes`Order
      ensures Valid()
      ensures var spans := if state == BodyValidated then Attributes(fed).value else [];
              r == if index < |spans| then Some(spans[index]) else None
    {
      var item := mapAttributes.LookupByIndex(index);
      r := if item.Some? then Some(item.value.value) else None;
    }

    /** The value of an attribute, as the getters find it behind the stream's data pointer. */
    method GetValue(t: u16) returns (r: Option<seq<byte>>)
      requires Valid() && state != ParseError
      ensures r == if state == BodyValidated then ValueOf(fed, t) else None
    {
      var a := GetAttributeByType(t);
      if a.None? {
        return None;
      }
      LastOfFits(fed, t);
      var v := Bytes(a.value.offset, a.value.size);
      r := Some(v);
    }

    /** Bytes behind the stream's data pointer. */
    method Bytes(offset: nat, size: nat) returns (r: seq<byte>)
      requires stream.Valid() && offset + size <= |stream.Contents()|
      ensures r == stream.Contents()[offset..offset + size]
    {
      r := if stream.buffer == null then [] else stream.buffer.data[offset..offset + size];
    }

    method GetResponsePort() returns (r: Option<u16>)
      requires Valid() && state != ParseError
      ensures r == if state == BodyValidated then ResponsePortOf(fed) else None
    {
      var v := GetValue(STUN_ATTRIBUTE_RESPONSE_PORT);
      r := if v.Some? && |v.value| == 2 then Some(Read16(v.value, 0)) else None;
    }

    method GetChangeRequest() returns (r: Option<ChangeRequest>)
      requires Valid() && state != ParseError
      ensures r == if state == BodyValidated then ChangeRequestOf(fed) else None
    {
      var v := GetValue(STUN_ATTRIBUTE_CHANGEREQUEST);
      r := if v.Some? && |v.value| == 4 then Some(ReadChangeRequest(v.value)) else None;
    }

    method HasAttribute(t: u16) returns (r: bool)
      requires Valid() && state != ParseError
      ensures r <==> state == BodyValidated && ValueOf(fed, t).Some?
    {
      var v := GetValue(t);
      r := v.Some?;
    }

    method GetStringAttributeByType(t: u16, size: nat) returns (r: Option<seq<byte>>)
      requires Valid() && state != ParseError
      ensures r == if state == BodyValidated then StringOf(fed, t, size) else None
    {
      var v := GetValue(t);
      r := if v.Some? && |v.value| < size then v else None;
    }

    method GetAddressHelper(t: u16) returns (r: Option<Address>)
      requires Valid() && state != ParseError
      ensures r == if state == BodyValidated then AddressOf(fed, t) else None
    {
      var v := GetValue(t);
      if v.None? {
        return None;
      }
      r := GetMappedAddress(v.value);
    }

    method GetOtherAddress() returns (r: Option<Address>)
      requires Valid() && state != ParseError
      ensures r == if state == BodyValidated then OtherAddressOf(fed) else None
    {
      r := GetAddressHelper(STUN_ATTRIBUTE_OTHER_ADDRESS);
      if r.None? {
        r := GetAddressHelper(STUN_ATTRIBUTE_CHANGEDADDRESS);
      }
    }

    method GetXorMappedAddress() returns (r: Option<Address>)
      requires Valid() && state != ParseError
      ensures r == if state == BodyValidated then XorMappedAddressOf(fed) else None
    {
      r := GetAddressHelper(STUN_ATTRIBUTE_XORMAPPEDADDRESS);
      if r.None? {
        r := GetAddressHelper(STUN_ATTRIBUTE_XORMAPPEDADDRESS_OPTIONAL);
      }
      if r.Some? {
        var addr := new CSocketAddress(r.value);
        addr.ApplyStunXorMap(transactionid);
        r := Some(RawAddress(addr.v4, addr.port[..], if addr.v4 then addr.ip[..4] else addr.ip[..]));
      }
    }

    method IsFingerprintAttributeValid() returns (r: bool)
      requires Valid()
      ensures r <==> state == BodyValidated && FingerprintHolds(fed, Attributes(fed).value, crypto)
    {
      var found, offset := FindFingerprint();
      if !found {
        return false;
      }
      r := CompareChecksum(offset);
    }

    /** The checks IsFingerprintAttributeValid makes before it computes anything. */
    method FindFingerprint() returns (found: bool, offset: nat)
      requires Valid()
      ensures found ==> state == BodyValidated && 8 <= |fed| && offset + 4 <= |fed|
      ensures state == BodyValidated && FingerprintHolds(fed, Attributes(fed).value, crypto) <==>
              found && XorFingerprint(crypto.crc32(fed[..|fed| - 8])) == Read32(fed, offset)
    {
      found, offset := false, 0;
      if state == BodyValidated {
        var a := GetAttributeByType(STUN_ATTRIBUTE_FINGERPRINT);
        FingerprintIsLast(fed, crypto);
        if a.Some? && a.value.size == 4 {
          found, offset := true, a.value.offset;
        }
      }
    }

    method CompareChecksum(offset: nat) returns (r: bool)
      requires stream.Valid() && 8 <= |stream.Contents()| && offset + 4 <= |stream.Contents()|
      ensures var bytes := stream.Contents();
              r <==> XorFingerprint(crypto.crc32(bytes[..|bytes| - 8])) == Read32(bytes, offset)
    {
      var bytes := Bytes(0, stream.GetSize());
      assert bytes == stream.Contents();
      var computedValue := XorFingerprint(crypto.crc32(bytes[..|bytes| - 8]));
      r := Read32(bytes, offset) == computedValue;
    }

    /** The HMAC input of ValidateMessageIntegrity, read off the stream four bytes at a time. */
    method RebuildHashed(integrity: StunAttribute, fAdjust: bool) returns (hashed: seq<byte>)
      requires stream.Valid() && STUN_HEADER_SIZE <= |stream.Contents()|
      requires 24 <= integrity.offset <= |stream.Contents()| && integrity.offset % 4 == 0
      modifies stream`pos
      ensures stream.Valid()
      ensures hashed == Rebuilt(stream.Contents(), integrity, fAdjust)
    {
      var ok := stream.SeekDirect(0);
      var chunk;
      ok, chunk := stream.Read(2);
      hashed := chunk;
      ok, chunk := stream.Read(2);
      if fAdjust {
        chunk := BE16((Read16(chunk, 0) + 0x1_0000 - 8) % 0x1_0000);
      }
      var rest := ReadChunks((integrity.offset - 8) / 4);
      hashed := hashed + chunk + rest;
    }

    /** The loop of ValidateMessageIntegrity: `n` chunks of four bytes. */
    method ReadChunks(n: nat) returns (hashed: seq<byte>)
      requires stream.Valid() && stream.pos + 4 * n <= |stream.Contents()|
      modifies stream`pos
      ensures stream.Valid() && stream.pos == old(stream.pos) + 4 * n
      ensures hashed == stream.Contents()[old(stream.pos)..stream.pos]
    {
      ghost var bytes, start := stream.Contents(), stream.pos;
      hashed := [];
      for count := 0 to n
        invariant stream.Valid() && stream.pos == start + 4 * count
        invariant hashed == bytes[start..stream.pos]
      {
        ghost var here := stream.pos;
        var ok, chunk := stream.Read(4);
        hashed := hashed + chunk;
        assert bytes[start..here + 4] == bytes[start..here] + bytes[here..here + 4];
      }
    }

    method ValidateMessageIntegrity(key: seq<byte>) returns (r: bool)
      requires Valid()
      modifies stream`pos
      ensures Valid()
      ensures r <==> state == BodyValidated && IntegrityHolds(fed, Attributes(fed).value, key, crypto)
    {
      var found, a, fAdjust := FindIntegrity(key);
      if !found {
        return false;
      }
      r := CompareHash(a, fAdjust, key);
    }

    /** The checks ValidateMessageIntegrity makes before it hashes anything. */
    method FindIntegrity(key: seq<byte>) returns (found: bool, a: StunAttribute, fAdjust: bool)
      requires Valid()
      ensures found ==> state == BodyValidated && 24 <= a.offset && a.offset + 20 <= |fed| && a.offset % 4 == 0
      ensures state == BodyValidated && IntegrityHolds(fed, Attributes(fed).value, key, crypto) <==>
              found && crypto.hmac(key, Rebuilt(fed, a, fAdjust)) == fed[a.offset..a.offset + 20]
    {
      a, fAdjust := StunAttribute(0, 0, 0), false;
      if state != BodyValidated || countAttributes == 0 || indexMessageIntegrity == -1 || key == [] {
        return false, a, fAdjust;
      }
      var lastAttributeIndex := countAttributes - 1;
      var attribute := GetAttributeByType(STUN_ATTRIBUTE_MESSAGEINTEGRITY);
      if attribute.None? || attribute.value.size != 20 {
        return false, a, fAdjust;
      }
      if !(indexMessageIntegrity == lastAttributeIndex
           || (indexMessageIntegrity == lastAttributeIndex - 1 && indexFingerprint == lastAttributeIndex)) {
        return false, a, fAdjust;
      }
      LastOfFits(fed, STUN_ATTRIBUTE_MESSAGEINTEGRITY);
      return true, attribute.value, indexMessageIntegrity == lastAttributeIndex - 1;
    }

    method CompareHash(a: StunAttribute, fAdjust: bool, key: seq<byte>) returns (r: bool)
      requires stream.Valid() && STUN_HEADER_SIZE <= |stream.Contents()|
      requires 24 <= a.offset && a.offset + 20 <= |stream.Contents()| && a.offset % 4 == 0
      modifies stream`pos
      ensures stream.Valid()
      ensures r <==>
              crypto.hmac(key, Rebuilt(stream.Contents(), a, fAdjust)) == stream.Contents()[a.offset..a.offset + 20]
    {
      var hashed := RebuildHashed(a, fAdjust);
      var carried := Bytes(a.offset, 20);
      r := crypto.hmac(key, hashed) == carried;
    }
  }

  function Flatten(chunks: seq<seq<byte>>): seq<byte> {
    if chunks == [] then [] else Flatten(chunks[..|chunks| - 1]) + chunks[|chunks| - 1]
  }

  /** Chunk invariance: a fresh reader fed any chunks ends in the state, and with the attributes, that the
      concatenation of the chunks determines. */
  method AddChunks(reader: CStunMessageReader, chunks: seq<seq<byte>>) returns (s: ReaderState)
    requires reader.Valid() && reader.fed == []
    modifies reader, reader.stream.Repr(), reader.mapAttributes.Repr
    ensures reader.Valid() && reader.fed == Flatten(chunks)
    ensures reader.fAllowLegacyFormat == old(reader.fAllowLegacyFormat)
    ensures s == reader.state == Verdict(Flatten(chunks), reader.fAllowLegacyFormat)
    ensures s == BodyValidated ==> reader.Indexed(Attributes(Flatten(chunks)).value)
  {
    s := reader.state;
    for i := 0 to |chunks|
      invariant reader.Valid() && reader.fed == Flatten(chunks[..i]) && s == reader.state
      invariant reader.fAllowLegacyFormat == old(reader.fAllowLegacyFormat)
      invariant fresh(reader.stream.Repr() - old(reader.stream.Repr()))
    {
      s := reader.AddBytes(chunks[i]);
      assert chunks[..i + 1][..i] == chunks[..i];
    }
    assert chunks[..|chunks|] == chunks;
  }
}
