/** Every reply is a message a client accepts, and it says what it should. */
module StunReplyProofs {
  import opened Options
  import opened StunTypes
  import opened StunWire
  import opened StunIntegrity
  import opened SocketAddresses
  import opened StunBuilders
  import opened StunReaders
  import opened StunReplies

  /** The last attribute of a type in a list to be written. */
  function LastWire(ws: seq<Wire>, t: u16): Option<Wire> {
    if ws == [] then None
    else if ws[|ws| - 1].atype == t then Some(ws[|ws| - 1])
    else LastWire(ws[..|ws| - 1], t)
  }

  /** The part of a written value the declared length covers. */
  function WireValue(w: Wire): seq<byte> {
    if w.len <= |w.data| then w.data[..w.len] else w.data
  }

  lemma {:induction false} LastWireAppend(a: seq<Wire>, b: seq<Wire>, t: u16)
    ensures LastWire(a + b, t) == if LastWire(b, t).Some? then LastWire(b, t) else LastWire(a, t)
    decreases |b|
  {
    if b == [] {
      assert a + b == a;
    } else {
      var front := b[..|b| - 1];
      LastWireAppend(a, front, t);
      assert (a + b)[..|a + b| - 1] == a + front;
    }
  }

  /** The reader's last attribute of a type is the writer's, at the place it was put. */
  lemma {:induction false} LastPlaced(ws: seq<Wire>, t: u16, pos: nat)
    requires AllFormed(ws) && pos + |Body(ws)| < 0x1_0000
    ensures match LastWire(ws, t)
            case None => LastIndex(Placed(ws, pos), t) == -1
            case Some(w) => var i := LastIndex(Placed(ws, pos), t); i >= 0 && ws[i] == w
    decreases |ws|
  {
    if ws != [] {
      var front, w := ws[..|ws| - 1], ws[|ws| - 1];
      assert ws == front + [w];
      BodySnoc(front, w);
      PlacedSnoc(front, w, pos);
      LastPlaced(front, t, pos);
      LastIndexSnoc(Placed(front, pos), StunAttribute(w.atype, w.len, pos + |Body(front)| + 4), t);
    }
  }

  lemma CarriedValue(m: seq<byte>, a: StunAttribute, w: Wire)
    requires Carries(m, a, w) && Formed(w)
    ensures a.offset + a.size <= |m| && m[a.offset..a.offset + a.size] == WireValue(w)
  {
    assert m[a.offset..a.offset + a.size] == m[a.offset..a.offset + |w.data|][..w.len];
  }

  /** What a reader finds under a type in a written message is the value of the last attribute of that type. */
  lemma WrittenValue(msgType: bv16, c: StunMessageClass, transid: TransactionId, ws: seq<Wire>, t: u16)
    requires msgType & 0xf000 == 0 && Fits(ws)
    ensures var m := Message(msgType, c, transid, Body(ws));
            ValueOf(m, t) == match LastWire(ws, t) case None => None case Some(w) => Some(WireValue(w))
  {
    var m := Message(msgType, c, transid, Body(ws));
    BuiltIsAccepted(msgType, c, transid, ws, true);
    LastPlaced(ws, t, STUN_HEADER_SIZE);
    LastOfFits(m, t);
    var i := LastIndex(Placed(ws, STUN_HEADER_SIZE), t);
    if i >= 0 {
      CarriedAt(msgType, c, transid, ws, i);
    }
  }

  lemma CarriedAt(msgType: bv16, c: StunMessageClass, transid: TransactionId, ws: seq<Wire>, i: nat)
    requires msgType & 0xf000 == 0 && Fits(ws) && i < |ws|
    ensures var m, a := Message(msgType, c, transid, Body(ws)), Placed(ws, STUN_HEADER_SIZE)[i];
            a.offset + a.size <= |m| && m[a.offset..a.offset + a.size] == WireValue(ws[i])
  {
    var m := Message(msgType, c, transid, Body(ws));
    CodecRoundTrip(msgType, c, transid, ws, true);
    assert Carries(m, Attributes(m).value[i], ws[i]);
    assert Formed(ws[i]);
    CarriedValue(m, Attributes(m).value[i], ws[i]);
  }

  // ---- sizes ----

  /** Lists short enough for any reply. */
  ghost predicate Small(ws: seq<Wire>, count: nat, size: nat) {
    AllFormed(ws) && |ws| <= count && |Body(ws)| <= size
  }

  lemma SmallAppend(a: seq<Wire>, ca: nat, na: nat, b: seq<Wire>, cb: nat, nb: nat)
    requires Small(a, ca, na) && Small(b, cb, nb)
    ensures Small(a + b, ca + cb, na + nb)
  {
    BodyAppend(a, b);
  }

  lemma SmallOne(w: Wire, size: nat)
    requires Formed(w) && 4 + |w.data| <= size
    ensures Small([w], 1, size)
  {
    BodyOne(w);
  }

  lemma AddressWireSmall(fLegacy: bool, t: u16, a: Option<Address>)
    ensures Small(AddressWires(fLegacy, t, a), 1, 24)
  {
    if a.Some? {
      SmallOne(AttributeWire(fLegacy, t, AddressBytes(a.value)), 24);
    }
  }

  lemma StringWireSmall(fLegacy: bool, t: u16, s: AuthString)
    ensures Small(StringWires(fLegacy, t, s), 1, 68)
  {
    if s != [] {
      SmallOne(AttributeWire(fLegacy, t, s), 68);
    }
  }

  lemma RefusalSmall(fLegacy: bool, d: Decision)
    requires d.Refuse?
    ensures Small(RefusalWires(fLegacy, d), 3, 152)
  {
    var e := AttributeWire(fLegacy, STUN_ATTRIBUTE_ERRORCODE, ErrorValue(d.errorcode, FAILED));
    SmallOne(e, 16);
    var n := StringWires(fLegacy, STUN_ATTRIBUTE_NONCE, d.nonce);
    var r := StringWires(fLegacy, STUN_ATTRIBUTE_REALM, d.realm);
    StringWireSmall(fLegacy, STUN_ATTRIBUTE_NONCE, d.nonce);
    StringWireSmall(fLegacy, STUN_ATTRIBUTE_REALM, d.realm);
    SmallAppend(n, 1, 68, r, 1, 68);
    SmallAppend([e], 1, 16, n + r, 2, 136);
    assert [e] + [] == [e];
  }

  lemma AcceptSmall(fLegacy: bool, d: Decision, remote: Address, transid: TransactionId)
    requires d.Accept?
    ensures Small(AcceptWires(fLegacy, d, remote, transid), 4, 96)
  {
    var a := AddressWires(fLegacy, STUN_ATTRIBUTE_MAPPEDADDRESS, Some(remote));
    var b := AddressWires(fLegacy, OriginType(fLegacy), d.origin);
    var c := AddressWires(fLegacy, OtherType(fLegacy), d.other);
    var x := AddressWires(fLegacy, XorMappedType(fLegacy), Some(XorMapped(remote, transid)));
    AddressWireSmall(fLegacy, STUN_ATTRIBUTE_MAPPEDADDRESS, Some(remote));
    AddressWireSmall(fLegacy, OriginType(fLegacy), d.origin);
    AddressWireSmall(fLegacy, OtherType(fLegacy), d.other);
    AddressWireSmall(fLegacy, XorMappedType(fLegacy), Some(XorMapped(remote, transid)));
    SmallAppend(a, 1, 24, b, 1, 24);
    SmallAppend(a + b, 2, 48, c, 1, 24);
    SmallAppend(a + b + c, 3, 72, x, 1, 24);
  }

  // ---- what the address attributes decode to ----

  lemma {:induction false} LastOfAddressWires(fLegacy: bool, t: u16, a: Option<Address>, u: u16)
    ensures LastWire(AddressWires(fLegacy, t, a), u)
            == if a.Some? && t == u then Some(AttributeWire(fLegacy, t, AddressBytes(a.value))) else None
  {
    if a.Some? {
      assert [AttributeWire(fLegacy, t, AddressBytes(a.value))][..0] == [];
    }
  }

  /** Address values need no padding, so they read back whole in either mode. */
  lemma AddressWireValue(fLegacy: bool, t: u16, a: Address)
    ensures WireValue(AttributeWire(fLegacy, t, AddressBytes(a))) == AddressBytes(a)
    ensures ParseAddress(AddressBytes(a)) == Some(a)
  {
    AddressRoundTrip(a);
    AddressChain(a);
  }

  /** The types in a binding response are all different, so each address is found under its own. */
  lemma LastOfAccept(fLegacy: bool, d: Decision, remote: Address, transid: TransactionId, u: u16)
    requires d.Accept?
    ensures var l := LastWire(AcceptWires(fLegacy, d, remote, transid), u);
            && (u == STUN_ATTRIBUTE_MAPPEDADDRESS ==>
                  l == Some(AttributeWire(fLegacy, u, AddressBytes(remote))))
            && (u == XorMappedType(fLegacy) ==>
                  l == Some(AttributeWire(fLegacy, u, AddressBytes(XorMapped(remote, transid)))))
            && (u == OtherType(fLegacy) ==>
                  l == if d.other.Some? then Some(AttributeWire(fLegacy, u, AddressBytes(d.other.value))) else None)
            && (u == OriginType(fLegacy) ==>
                  l == if d.origin.Some? then Some(AttributeWire(fLegacy, u, AddressBytes(d.origin.value))) else None)
            && (u == XorMappedType(!fLegacy) || u == OtherType(!fLegacy) || u == OriginType(!fLegacy) ==> l == None)
  {
    var a := AddressWires(fLegacy, STUN_ATTRIBUTE_MAPPEDADDRESS, Some(remote));
    var b := AddressWires(fLegacy, OriginType(fLegacy), d.origin);
    var c := AddressWires(fLegacy, OtherType(fLegacy), d.other);
    var x := AddressWires(fLegacy, XorMappedType(fLegacy), Some(XorMapped(remote, transid)));
    LastOfAddressWires(fLegacy, STUN_ATTRIBUTE_MAPPEDADDRESS, Some(remote), u);
    LastOfAddressWires(fLegacy, OriginType(fLegacy), d.origin, u);
    LastOfAddressWires(fLegacy, OtherType(fLegacy), d.other, u);
    LastOfAddressWires(fLegacy, XorMappedType(fLegacy), Some(XorMapped(remote, transid)), u);
    LastWireAppend(a, b, u);
    LastWireAppend(a + b, c, u);
    LastWireAppend(a + b + c, x, u);
  }

  /** A client of RFC 3489 finds the addresses under the types that RFC defines, SOURCE-ADDRESS and CHANGED-ADDRESS, and
      the masked one under an optional type; any other client under RESPONSE-ORIGIN, OTHER-ADDRESS and
      XOR-MAPPED-ADDRESS. */
  ghost predicate SpeaksDialect(m: seq<byte>, d: Decision, remote: Address)
    requires |m| >= STUN_HEADER_SIZE && d.Accept?
  {
    var fLegacy := IsLegacy(TransactionIdOf(m));
    && AddressOf(m, if fLegacy then 0x0004 else 0x802b) == d.origin
    && AddressOf(m, if fLegacy then 0x0005 else 0x802c) == d.other
    && AddressOf(m, if fLegacy then 0x8020 else 0x0020) == Some(XorMapped(remote, TransactionIdOf(m)))
    && ValueOf(m, if fLegacy then 0x802b else 0x0004) == None
    && ValueOf(m, if fLegacy then 0x802c else 0x0005) == None
    && ValueOf(m, if fLegacy then 0x0020 else 0x8020) == None
  }

  /** What a client can read out of a message built from the attributes of an accepted request, signed or not. */
  ghost predicate TellsAddresses(m: seq<byte>, d: Decision, remote: Address)
    requires |m| >= STUN_HEADER_SIZE && d.Accept?
  {
    && MappedAddressOf(m) == Some(remote)
    && XorMappedAddressOf(m) == Some(remote)
    && OtherAddressOf(m) == d.other
    && SpeaksDialect(m, d, remote)
  }

  lemma AddressUnder(m: seq<byte>, fLegacy: bool, t: u16, a: Option<Address>)
    requires ValueOf(m, t) == match a
                              case None => None
                              case Some(x) => Some(WireValue(AttributeWire(fLegacy, t, AddressBytes(x))))
    ensures AddressOf(m, t) == a
  {
    if a.Some? {
      AddressWireValue(fLegacy, t, a.value);
    }
  }

  /** Under every type but MESSAGE-INTEGRITY a reader finds what the list says. */
  ghost predicate ReadsLike(m: seq<byte>, ws: seq<Wire>) {
    forall u: u16 | u != STUN_ATTRIBUTE_MESSAGEINTEGRITY ::
      ValueOf(m, u) == match LastWire(ws, u) case None => None case Some(w) => Some(WireValue(w))
  }

  lemma SignedReadsLike(msgType: bv16, c: StunMessageClass, transid: TransactionId, ws: seq<Wire>, tail: seq<Wire>)
    requires msgType & 0xf000 == 0 && Fits(ws + tail)
    requires forall i | 0 <= i < |tail| :: tail[i].atype == STUN_ATTRIBUTE_MESSAGEINTEGRITY
    ensures ReadsLike(Message(msgType, c, transid, Body(ws + tail)), ws)
  {
    var m := Message(msgType, c, transid, Body(ws + tail));
    forall u: u16 | u != STUN_ATTRIBUTE_MESSAGEINTEGRITY
      ensures ValueOf(m, u) == match LastWire(ws, u) case None => None case Some(w) => Some(WireValue(w))
    {
      WrittenValue(msgType, c, transid, ws + tail, u);
      LastWireAppend(ws, tail, u);
      OnlyIntegrity(tail, u);
    }
  }

  lemma {:induction false} OnlyIntegrity(tail: seq<Wire>, u: u16)
    requires forall i | 0 <= i < |tail| :: tail[i].atype == STUN_ATTRIBUTE_MESSAGEINTEGRITY
    requires u != STUN_ATTRIBUTE_MESSAGEINTEGRITY
    ensures LastWire(tail, u) == None
  {
    if tail != [] {
      OnlyIntegrity(tail[..|tail| - 1], u);
    }
  }

  lemma AcceptTells(fLegacy: bool, d: Decision, remote: Address, transid: TransactionId, tail: seq<Wire>)
    requires d.Accept? && Fits(AcceptWires(fLegacy, d, remote, transid) + tail) && fLegacy == IsLegacy(transid)
    requires forall i | 0 <= i < |tail| :: tail[i].atype == STUN_ATTRIBUTE_MESSAGEINTEGRITY
    ensures TellsAddresses(
              Message(StunMsgTypeBinding, SuccessResponse, transid,
                      Body(AcceptWires(fLegacy, d, remote, transid) + tail)),
              d, remote)
  {
    var ws := AcceptWires(fLegacy, d, remote, transid);
    MessageHeader(StunMsgTypeBinding, SuccessResponse, transid, Body(ws + tail));
    SignedReadsLike(StunMsgTypeBinding, SuccessResponse, transid, ws, tail);
    ReadAddresses(Message(StunMsgTypeBinding, SuccessResponse, transid, Body(ws + tail)), ws, fLegacy, d, remote,
                  transid);
  }

  lemma ReadAddresses(m: seq<byte>, ws: seq<Wire>, fLegacy: bool, d: Decision, remote: Address, transid: TransactionId)
    requires d.Accept? && ws == AcceptWires(fLegacy, d, remote, transid)
    requires |m| >= STUN_HEADER_SIZE && TransactionIdOf(m) == transid && fLegacy == IsLegacy(transid)
    requires ReadsLike(m, ws)
    ensures TellsAddresses(m, d, remote)
  {
    ReadDialect(m, ws, fLegacy, d, remote, transid);
    LastOfAccept(fLegacy, d, remote, transid, STUN_ATTRIBUTE_MAPPEDADDRESS);
    LastOfAccept(fLegacy, d, remote, transid, XorMappedType(fLegacy));
    LastOfAccept(fLegacy, d, remote, transid, XorMappedType(!fLegacy));
    LastOfAccept(fLegacy, d, remote, transid, OtherType(fLegacy));
    LastOfAccept(fLegacy, d, remote, transid, OtherType(!fLegacy));
    AddressUnder(m, fLegacy, STUN_ATTRIBUTE_MAPPEDADDRESS, Some(remote));
    AddressUnder(m, fLegacy, XorMappedType(fLegacy), Some(XorMapped(remote, transid)));
    AddressUnder(m, fLegacy, XorMappedType(!fLegacy), None);
    AddressUnder(m, fLegacy, OtherType(fLegacy), d.other);
    AddressUnder(m, fLegacy, OtherType(!fLegacy), None);
    XorMappedTwice(remote, transid);
  }

  lemma ReadDialect(m: seq<byte>, ws: seq<Wire>, fLegacy: bool, d: Decision, remote: Address, transid: TransactionId)
    requires d.Accept? && ws == AcceptWires(fLegacy, d, remote, transid)
    requires |m| >= STUN_HEADER_SIZE && TransactionIdOf(m) == transid && fLegacy == IsLegacy(transid)
    requires ReadsLike(m, ws)
    ensures SpeaksDialect(m, d, remote)
  {
    LastOfAccept(fLegacy, d, remote, transid, XorMappedType(fLegacy));
    LastOfAccept(fLegacy, d, remote, transid, XorMappedType(!fLegacy));
    LastOfAccept(fLegacy, d, remote, transid, OtherType(fLegacy));
    LastOfAccept(fLegacy, d, remote, transid, OtherType(!fLegacy));
    LastOfAccept(fLegacy, d, remote, transid, OriginType(fLegacy));
    LastOfAccept(fLegacy, d, remote, transid, OriginType(!fLegacy));
    AddressUnder(m, fLegacy, XorMappedType(fLegacy), Some(XorMapped(remote, transid)));
    AddressUnder(m, fLegacy, OtherType(fLegacy), d.other);
    AddressUnder(m, fLegacy, OriginType(fLegacy), d.origin);
  }

  // ---- what the challenge decodes to ----

  lemma {:induction false} CStringOfPadded(s: seq<byte>, n: nat)
    requires 0 !in s
    ensures CString(s + Zeros(n)) == s
  {
    if s == [] {
      assert s + Zeros(n) == Zeros(n);
    } else {
      assert (s + Zeros(n))[1..] == s[1..] + Zeros(n);
      assert s[0] in s && forall x | x in s[1..] :: x in s;
      CStringOfPadded(s[1..], n);
      assert [s[0]] + s[1..] == s;
    }
  }

  lemma LastOfStringWires(fLegacy: bool, t: u16, s: seq<byte>, u: u16)
    ensures LastWire(StringWires(fLegacy, t, s), u)
            == if s != [] && t == u then Some(AttributeWire(fLegacy, t, s)) else None
  {
    if s != [] {
      assert [AttributeWire(fLegacy, t, s)][..0] == [];
    }
  }

  /** A string is read back whole, although a legacy attribute's length counts the padding. */
  lemma StringWireValue(fLegacy: bool, t: u16, s: AuthString)
    ensures var v := WireValue(AttributeWire(fLegacy, t, s)); |v| <= 64 && CString(v) == s
  {
    var pad := Padding(|s|);
    CStringOfPadded(s, pad);
    CStringOfPadded(s, 0);
    assert s + Zeros(0) == s && (s + Zeros(pad))[..|s|] == s && (s + Zeros(pad))[..|s| + pad] == s + Zeros(pad);
  }

  lemma StringUnder(m: seq<byte>, fLegacy: bool, t: u16, s: AuthString)
    requires ValueOf(m, t) == if s == [] then None else Some(WireValue(AttributeWire(fLegacy, t, s)))
    ensures AuthStringOf(m, t) == s
  {
    StringWireValue(fLegacy, t, s);
  }

  /** What the last attribute of a type is in a refusal: a challenge goes with the codes 401 and 438. */
  lemma LastOfRefusal(fLegacy: bool, d: Decision, u: u16)
    requires d.Refuse? && (u == STUN_ATTRIBUTE_NONCE || u == STUN_ATTRIBUTE_REALM)
    ensures var s := if u == STUN_ATTRIBUTE_NONCE then d.nonce else d.realm;
            LastWire(RefusalWires(fLegacy, d), u)
            == if d.errorcode in {401, 438} && s != [] then Some(AttributeWire(fLegacy, u, s)) else None
  {
    var e := AttributeWire(fLegacy, STUN_ATTRIBUTE_ERRORCODE, ErrorValue(d.errorcode, FAILED));
    var n := StringWires(fLegacy, STUN_ATTRIBUTE_NONCE, d.nonce);
    var r := StringWires(fLegacy, STUN_ATTRIBUTE_REALM, d.realm);
    assert [e][..0] == [];
    LastOfStringWires(fLegacy, STUN_ATTRIBUTE_NONCE, d.nonce, u);
    LastOfStringWires(fLegacy, STUN_ATTRIBUTE_REALM, d.realm, u);
    LastWireAppend(n, r, u);
    LastWireAppend([e], n + r, u);
    assert [e] + [] == [e];
  }

  /** What a client can read out of a refusal: the code, and with 401 and 438 the nonce and the realm to try again
      with. */
  ghost predicate TellsError(m: seq<byte>, d: Decision)
    requires d.Refuse?
  {
    && ErrorCodeOf(m) == Some(d.errorcode as nat)
    && AuthStringOf(m, 0x0015) == (if d.errorcode in {401, 438} then d.nonce else [])
    && AuthStringOf(m, 0x0014) == (if d.errorcode in {401, 438} then d.realm else [])
    && (d.errorcode !in {401, 438} ==> ValueOf(m, 0x0015) == None && ValueOf(m, 0x0014) == None)
  }

  lemma RefusalTells(transid: TransactionId, msgType: bv16, fLegacy: bool, d: Decision, u: u16)
    requires d.Refuse? && (u == STUN_ATTRIBUTE_NONCE || u == STUN_ATTRIBUTE_REALM) && msgType & 0xf000 == 0
    requires Fits(RefusalWires(fLegacy, d))
    ensures var m := Message(msgType, FailureResponse, transid, Body(RefusalWires(fLegacy, d)));
            && AuthStringOf(m, u)
               == (if d.errorcode in {401, 438} then (if u == STUN_ATTRIBUTE_NONCE then d.nonce else d.realm) else [])
            && (d.errorcode !in {401, 438} ==> ValueOf(m, u) == None)
  {
    var m := Message(msgType, FailureResponse, transid, Body(RefusalWires(fLegacy, d)));
    WrittenValue(msgType, FailureResponse, transid, RefusalWires(fLegacy, d), u);
    LastOfRefusal(fLegacy, d, u);
    var s: AuthString :=
      if d.errorcode !in {401, 438} then [] else if u == STUN_ATTRIBUTE_NONCE then d.nonce else d.realm;
    StringUnder(m, fLegacy, u, s);
  }

  // ---- the main results ----

  /** GetErrorCode on the value of an ERROR-CODE attribute. */
  ghost function ErrorCodeOf(bytes: seq<byte>): Option<nat> {
    var v := ValueOf(bytes, STUN_ATTRIBUTE_ERRORCODE);
    if v.Some? && |v.value| >= 4 then Some(ErrorNumber(v.value)) else None
  }

  function ErrorNumber(v: seq<byte>): nat
    requires |v| >= 4
  {
    var cl: int, num: int := v[2], v[3];
    cl % 8 * 100 + num
  }

  /** What every reply promises its receiver. */
  ghost predicate WellFormedReply(request: seq<byte>, reply: seq<byte>, msgType: bv16, c: StunMessageClass)
    requires |request| >= STUN_HEADER_SIZE
  {
    && STUN_HEADER_SIZE <= |reply| <= MAX_STUN_MESSAGE_SIZE
    && (forall fAllowLegacy: bool | fAllowLegacy || !IsLegacy(TransactionIdOf(request)) ::
          Verdict(reply, fAllowLegacy) == BodyValidated)
    && TransactionIdOf(reply) == TransactionIdOf(request)
    && Normalized(RawType(reply)) == msgType && ClassOf(RawType(reply)) == c
  }

  lemma BuiltIsWellFormed(request: seq<byte>, msgType: bv16, c: StunMessageClass, ws: seq<Wire>)
    requires |request| >= STUN_HEADER_SIZE && msgType & 0xf000 == 0 && Fits(ws) && |Body(ws)| <= 700
    ensures WellFormedReply(request, Message(msgType, c, TransactionIdOf(request), Body(ws)), msgType, c)
  {
    var transid := TransactionIdOf(request);
    MessageHeader(msgType, c, transid, Body(ws));
    TypeFieldRoundTrip(msgType, c);
    forall fAllowLegacy: bool | fAllowLegacy || !IsLegacy(transid)
      ensures Verdict(Message(msgType, c, transid, Body(ws)), fAllowLegacy) == BodyValidated
    {
      BuiltIsAccepted(msgType, c, transid, ws, fAllowLegacy);
    }
  }

  /** A refusal is a well-formed error response to the request's own method that carries the error code, and the
      challenge that goes with it. */
  lemma RefusalReply(request: seq<byte>, msgIn: MessageIn, d: Decision, crypto: Crypto)
    requires |request| >= STUN_HEADER_SIZE && ZeroTopBits(RawType(request))
    requires d.Refuse? && 300 <= d.errorcode <= 600
    ensures var reply := ReplyBytes(request, msgIn, d, crypto);
            && WellFormedReply(request, reply, Normalized(RawType(request)), FailureResponse)
            && TellsError(reply, d)
  {
    var transid := TransactionIdOf(request);
    var fLegacy := IsLegacy(transid);
    var msgType := Normalized(RawType(request));
    FieldTypeRoundTrip(RawType(request));
    RefusalSmall(fLegacy, d);
    var ws := RefusalWires(fLegacy, d);
    BuiltIsWellFormed(request, msgType, FailureResponse, ws);
    WrittenValue(msgType, FailureResponse, transid, ws, STUN_ATTRIBUTE_ERRORCODE);
    LastErrorWire(fLegacy, d);
    ErrorDecodes(fLegacy, d.errorcode);
    RefusalTells(transid, msgType, fLegacy, d, STUN_ATTRIBUTE_NONCE);
    RefusalTells(transid, msgType, fLegacy, d, STUN_ATTRIBUTE_REALM);
  }

  lemma LastErrorWire(fLegacy: bool, d: Decision)
    requires d.Refuse?
    ensures LastWire(RefusalWires(fLegacy, d), STUN_ATTRIBUTE_ERRORCODE)
            == Some(AttributeWire(fLegacy, STUN_ATTRIBUTE_ERRORCODE, ErrorValue(d.errorcode, FAILED)))
  {
    var e := AttributeWire(fLegacy, STUN_ATTRIBUTE_ERRORCODE, ErrorValue(d.errorcode, FAILED));
    var n := StringWires(fLegacy, STUN_ATTRIBUTE_NONCE, d.nonce);
    var r := StringWires(fLegacy, STUN_ATTRIBUTE_REALM, d.realm);
    assert [e][..0] == [];
    assert n == [] || n[..0] == [];
    assert r == [] || r[..0] == [];
    LastWireAppend(n, r, STUN_ATTRIBUTE_ERRORCODE);
    LastWireAppend([e], n + r, STUN_ATTRIBUTE_ERRORCODE);
    assert [e] + [] == [e];
  }

  lemma ErrorDecodes(fLegacy: bool, errorcode: u16)
    requires 300 <= errorcode <= 600
    ensures var w := AttributeWire(fLegacy, STUN_ATTRIBUTE_ERRORCODE, ErrorValue(errorcode, FAILED));
            |WireValue(w)| >= 4 && ErrorNumber(WireValue(w)) == errorcode
  {
  }

  /** An acceptance is a well-formed binding response in which both mapped addresses decode to the sender's address,
      the other address to the server's other address, and which validates under the key the request was signed with. */
  lemma AcceptReply(request: seq<byte>, msgIn: MessageIn, d: Decision, crypto: Crypto)
    requires |request| >= STUN_HEADER_SIZE && d.Accept?
    ensures var reply := ReplyBytes(request, msgIn, d, crypto);
            && WellFormedReply(request, reply, StunMsgTypeBinding, SuccessResponse)
            && TellsAddresses(reply, d, msgIn.addrRemote)
            && (d.key.Some? && d.key.value != [] ==>
                  Attributes(reply).Some? && IntegrityHolds(reply, Attributes(reply).value, d.key.value, crypto))
  {
    if d.key.None? || d.key.value == [] {
      UnsignedReply(request, msgIn, d, crypto);
    } else {
      SignedReply(request, msgIn, d, crypto);
    }
  }

  lemma UnsignedReply(request: seq<byte>, msgIn: MessageIn, d: Decision, crypto: Crypto)
    requires |request| >= STUN_HEADER_SIZE && d.Accept? && (d.key.None? || d.key.value == [])
    ensures var reply := ReplyBytes(request, msgIn, d, crypto);
            WellFormedReply(request, reply, StunMsgTypeBinding, SuccessResponse)
            && TellsAddresses(reply, d, msgIn.addrRemote)
  {
    var transid := TransactionIdOf(request);
    var fLegacy := IsLegacy(transid);
    var ws := AcceptWires(fLegacy, d, msgIn.addrRemote, transid);
    AcceptSmall(fLegacy, d, msgIn.addrRemote, transid);
    assert ws + [] == ws;
    BuiltIsWellFormed(request, StunMsgTypeBinding, SuccessResponse, ws);
    AcceptTells(fLegacy, d, msgIn.addrRemote, transid, []);
  }

  lemma SignedReply(request: seq<byte>, msgIn: MessageIn, d: Decision, crypto: Crypto)
    requires |request| >= STUN_HEADER_SIZE && d.Accept? && d.key.Some? && d.key.value != []
    ensures var reply := ReplyBytes(request, msgIn, d, crypto);
            && WellFormedReply(request, reply, StunMsgTypeBinding, SuccessResponse)
            && TellsAddresses(reply, d, msgIn.addrRemote)
            && Attributes(reply).Some? && IntegrityHolds(reply, Attributes(reply).value, d.key.value, crypto)
  {
    var transid := TransactionIdOf(request);
    var ws, w := SignedIs(request, msgIn, d, crypto);
    BuiltIsAccepted(StunMsgTypeBinding, SuccessResponse, transid, ws + [w], true);
    SignedTells(request, d, msgIn.addrRemote, w);
  }

  /** The signed reply as an ordinary message. */
  lemma SignedIs(request: seq<byte>, msgIn: MessageIn, d: Decision, crypto: Crypto) returns (ws: seq<Wire>, w: Wire)
    requires |request| >= STUN_HEADER_SIZE && d.Accept? && d.key.Some? && d.key.value != []
    ensures ws == AcceptWires(IsLegacy(TransactionIdOf(request)), d, msgIn.addrRemote, TransactionIdOf(request))
    ensures w.atype == STUN_ATTRIBUTE_MESSAGEINTEGRITY && Fits(ws + [w]) && |Body(ws + [w])| <= 700
    ensures var reply := ReplyBytes(request, msgIn, d, crypto);
            && reply == Message(StunMsgTypeBinding, SuccessResponse, TransactionIdOf(request), Body(ws + [w]))
            && IntegrityHolds(reply, Placed(ws + [w], STUN_HEADER_SIZE), d.key.value, crypto)
  {
    var transid := TransactionIdOf(request);
    ws := AcceptWires(IsLegacy(transid), d, msgIn.addrRemote, transid);
    AcceptSmall(IsLegacy(transid), d, msgIn.addrRemote, transid);
    w := IntegrityWire(StunMsgTypeBinding, SuccessResponse, transid, Body(ws), d.key.value, crypto);
    IntegrityIsWire(StunMsgTypeBinding, SuccessResponse, 0, transid, Body(ws), d.key.value, crypto);
    IntegrityLast(StunMsgTypeBinding, SuccessResponse, transid, ws, d.key.value, crypto);
  }

  lemma SignedTells(request: seq<byte>, d: Decision, remote: Address, w: Wire)
    requires |request| >= STUN_HEADER_SIZE && d.Accept? && w.atype == STUN_ATTRIBUTE_MESSAGEINTEGRITY
    requires var transid := TransactionIdOf(request);
             var ws := AcceptWires(IsLegacy(transid), d, remote, transid) + [w]; Fits(ws) && |Body(ws)| <= 700
    ensures var transid := TransactionIdOf(request);
            var ws := AcceptWires(IsLegacy(transid), d, remote, transid) + [w];
            var reply := Message(StunMsgTypeBinding, SuccessResponse, transid, Body(ws));
            WellFormedReply(request, reply, StunMsgTypeBinding, SuccessResponse) && TellsAddresses(reply, d, remote)
  {
    var transid := TransactionIdOf(request);
    var ws := AcceptWires(IsLegacy(transid), d, remote, transid);
    BuiltIsWellFormed(request, StunMsgTypeBinding, SuccessResponse, ws + [w]);
    AcceptTells(IsLegacy(transid), d, remote, transid, [w]);
  }

  lemma AuthorizeIsSound(bytes: seq<byte>, auth: Option<AuthProvider>, crypto: Crypto)
    requires STUN_HEADER_SIZE <= |bytes| < 0x1_0000 && Attributes(bytes).Some?
    ensures var a := Authorize(bytes, auth, crypto);
            && a.errorcode in {0, STUN_ERROR_BADREQUEST, STUN_ERROR_UNAUTHORIZED, STUN_ERROR_STALENONCE}
            && (a.key.Some? ==>
                  a.key.value != [] && IntegrityHolds(bytes, Attributes(bytes).value, a.key.value, crypto))
  {
  }

  /** A screened request has a proper error code, or no code and no challenge. */
  lemma ScreeningRange(bytes: seq<byte>, msgIn: MessageIn, auth: Option<AuthProvider>, crypto: Crypto)
    requires STUN_HEADER_SIZE <= |bytes| < 0x1_0000 && Attributes(bytes).Some?
    ensures var a := Screening(bytes, msgIn, auth, crypto);
            if a.errorcode == 0 then a.nonce == [] && a.realm == [] else 400 <= a.errorcode < 500
  {
  }

  lemma FlipIsExact(r: SocketRole, c: ChangeRequest)
    ensures RoleIndex(Flip(r, c)) / 2 != RoleIndex(r) / 2 <==> c.fChangeIP
    ensures RoleIndex(Flip(r, c)) % 2 != RoleIndex(r) % 2 <==> c.fChangePort
  {
  }

  /** Every validated message is either not a request, and ignored, or answered: refused with 400, 401 or 438, or
      accepted on the receiving role with exactly the requested bits flipped, where a flipped role has an address and
      the transport is not connection oriented. */
  lemma DecisionIsSound(bytes: seq<byte>, msgIn: MessageIn, tsa: TransportAddressSet, auth: Option<AuthProvider>,
                        crypto: Crypto)
    requires STUN_HEADER_SIZE <= |bytes| < 0x1_0000 && Attributes(bytes).Some?
    ensures var d, change := Decide(bytes, msgIn, tsa, auth, crypto), WantedChange(bytes);
            match d
            case Ignore => ClassOf(RawType(bytes)) != Request
            case Refuse(code, nonce, realm) =>
              ClassOf(RawType(bytes)) == Request
              && code in {STUN_ERROR_BADREQUEST, STUN_ERROR_UNAUTHORIZED, STUN_ERROR_STALENONCE}
            case Accept(role, origin, other, key) =>
              && ClassOf(RawType(bytes)) == Request && Normalized(RawType(bytes)) == StunMsgTypeBinding
              && (RoleIndex(role) / 2 != RoleIndex(msgIn.socketrole) / 2 <==> change.fChangeIP)
              && (RoleIndex(role) % 2 != RoleIndex(msgIn.socketrole) % 2 <==> change.fChangePort)
              && (role != msgIn.socketrole ==> HasAddress(tsa, role) && !msgIn.fConnectionOriented)
              && (key.Some? ==> key.value != [] && IntegrityHolds(bytes, Attributes(bytes).value, key.value, crypto))
  {
    if ClassOf(RawType(bytes)) == Request {
      AuthorizeIsSound(bytes, auth, crypto);
      FlipIsExact(msgIn.socketrole, WantedChange(bytes));
    }
  }

  /** The role a request is answered from has an address exactly when a change was asked for, which is checked, or the
      receiving role, which is not checked, has one. */
  lemma RoleHasAddressIff(bytes: seq<byte>, msgIn: MessageIn, tsa: TransportAddressSet, auth: Option<AuthProvider>,
                          crypto: Crypto)
    requires STUN_HEADER_SIZE <= |bytes| < 0x1_0000 && Attributes(bytes).Some?
    ensures var d, change := Decide(bytes, msgIn, tsa, auth, crypto), WantedChange(bytes);
            d.Accept? ==>
              (HasAddress(tsa, d.role) <==> change.fChangeIP || change.fChangePort || HasAddress(tsa, msgIn.socketrole))
  {
    DecisionIsSound(bytes, msgIn, tsa, auth, crypto);
  }

  /** A bare binding request to a server whose address set is not filled in is accepted on a role without address. */
  lemma RoleMayLackAddress(crypto: Crypto)
    ensures var bytes := Message(StunMsgTypeBinding, Request, Zeros(16), []);
            var msgIn := MessageIn(RolePP, ZERO_ADDRESS, ZERO_ADDRESS, false);
            var tsa := seq(4, i => TransportAddress(ZERO_ADDRESS, false));
            && Attributes(bytes).Some?
            && var d := Decide(bytes, msgIn, tsa, None, crypto); d.Accept? && !HasAddress(tsa, d.role)
  {
    var bytes := Message(StunMsgTypeBinding, Request, Zeros(16), []);
    assert Body([]) == [] && Fits([]);
    BuiltIsAccepted(StunMsgTypeBinding, Request, Zeros(16), [], true);
    MessageHeader(StunMsgTypeBinding, Request, Zeros(16), []);
    TypeFieldRoundTrip(StunMsgTypeBinding, Request);
    WrittenValue(StunMsgTypeBinding, Request, Zeros(16), [], STUN_ATTRIBUTE_RESPONSE_PORT);
    WrittenValue(StunMsgTypeBinding, Request, Zeros(16), [], STUN_ATTRIBUTE_CHANGEREQUEST);
  }

  /** End to end: a message the reader accepts is either no request, or gets a reply that the same reader accepts, with
      the request's transaction id, and that is an error response with the code of the decision, or a success response
      telling the client its own address twice. */
  lemma EveryRequestIsAnswered(request: seq<byte>, fAllowLegacy: bool, msgIn: MessageIn, tsa: TransportAddressSet,
                               auth: Option<AuthProvider>, crypto: Crypto)
    requires Verdict(request, fAllowLegacy) == BodyValidated
    ensures STUN_HEADER_SIZE <= |request| < 0x1_0000 && Attributes(request).Some?
    ensures var d := Decide(request, msgIn, tsa, auth, crypto);
            if d.Ignore? then ClassOf(RawType(request)) != Request
            else
              var reply := ReplyBytes(request, msgIn, d, crypto);
              && ClassOf(RawType(request)) == Request
              && |reply| <= MAX_STUN_MESSAGE_SIZE && Verdict(reply, fAllowLegacy) == BodyValidated
              && TransactionIdOf(reply) == TransactionIdOf(request)
              && (if d.Refuse? then
                    ClassOf(RawType(reply)) == FailureResponse && TellsError(reply, d)
                  else
                    ClassOf(RawType(reply)) == SuccessResponse && TellsAddresses(reply, d, msgIn.addrRemote))
  {
    var d := Decide(request, msgIn, tsa, auth, crypto);
    DecisionIsSound(request, msgIn, tsa, auth, crypto);
    if d.Refuse? {
      RefusalReply(request, msgIn, d, crypto);
    } else if d.Accept? {
      AcceptReply(request, msgIn, d, crypto);
    }
  }
}
