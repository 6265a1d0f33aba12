/** The discovery client's messages: what it sends, what it takes from a datagram, and what the server of
    stuncore/messagehandler.cpp answers to it. */
module ClientWire {
  import opened Options
  import opened StunTypes
  import opened StunWire
  import opened StunIntegrity
  import opened SocketAddresses
  import opened StunBuilders
  import opened StunReaders
  import opened StunReplies
  import opened StunReplyProofs
  import opened NatDiscovery
  import opened NatVerdict

  function ChangeWire(change: ChangeRequest): Wire {
    AttributeWire(false, STUN_ATTRIBUTE_CHANGEREQUEST, ChangeRequestValue(change.fChangeIP, change.fChangePort))
  }

  /** Every test sends a binding request with a CHANGE-REQUEST attribute, blank or not. */
  function RequestBytes(transid: TransactionId, change: ChangeRequest): seq<byte> {
    Message(StunMsgTypeBinding, StunMessageClass.Request, transid, Body([ChangeWire(change)]))
  }

  /** What the client takes from a datagram: the mapped address is the XOR-MAPPED-ADDRESS if there is one. */
  ghost function Parse(bytes: seq<byte>): Option<Response> {
    if Verdict(bytes, true) != BodyValidated then None
    else Some(Response(TransactionIdOf(bytes), FirstOf(XorMappedAddressOf(bytes), MappedAddressOf(bytes)),
                       OtherAddressOf(bytes)))
  }

  /** What an attribute of a list says, if it is an address and there. */
  function AddressIn(ws: seq<Wire>, t: u16): Option<Address> {
    match LastWire(ws, t)
    case None => None
    case Some(w) => ParseAddress(WireValue(w))
  }

  function Unmasked(a: Option<Address>, transid: TransactionId): Option<Address> {
    match a case None => None case Some(x) => Some(XorMapped(x, transid))
  }

  /** What the client makes of a response of any server: whatever MAPPED-ADDRESS says, the mapped address is the
      unmasked XOR-MAPPED-ADDRESS, of type 0x0020 or else 0x8020, if that is an address; only a message without one is
      taken at MAPPED-ADDRESS. The other address is OTHER-ADDRESS, or else CHANGED-ADDRESS. */
  lemma AnyResponseIsParsed(msgType: bv16, c: StunMessageClass, transid: TransactionId, ws: seq<Wire>)
    requires msgType & 0xf000 == 0 && Fits(ws)
    ensures var r := Parse(Message(msgType, c, transid, Body(ws)));
            && r.Some? && r.value.transid == transid
            && (AddressIn(ws, 0x0020).Some? ==> r.value.mapped == Unmasked(AddressIn(ws, 0x0020), transid))
            && (AddressIn(ws, 0x0020).None? && AddressIn(ws, 0x8020).Some? ==>
                  r.value.mapped == Unmasked(AddressIn(ws, 0x8020), transid))
            && (AddressIn(ws, 0x0020).None? && AddressIn(ws, 0x8020).None? ==>
                  r.value.mapped == AddressIn(ws, 0x0001))
            && (AddressIn(ws, 0x802c).Some? ==> r.value.other == AddressIn(ws, 0x802c))
            && (AddressIn(ws, 0x802c).None? ==> r.value.other == AddressIn(ws, 0x0005))
  {
    var m := Message(msgType, c, transid, Body(ws));
    BuiltIsAccepted(msgType, c, transid, ws, true);
    MessageHeader(msgType, c, transid, Body(ws));
    AddressIsIn(msgType, c, transid, ws, 0x0020);
    AddressIsIn(msgType, c, transid, ws, 0x8020);
    AddressIsIn(msgType, c, transid, ws, 0x0001);
    AddressIsIn(msgType, c, transid, ws, 0x802c);
    AddressIsIn(msgType, c, transid, ws, 0x0005);
  }

  lemma AddressIsIn(msgType: bv16, c: StunMessageClass, transid: TransactionId, ws: seq<Wire>, t: u16)
    requires msgType & 0xf000 == 0 && Fits(ws)
    ensures AddressOf(Message(msgType, c, transid, Body(ws)), t) == AddressIn(ws, t)
  {
    WrittenValue(msgType, c, transid, ws, t);
  }

  /** So a server that writes only the masked address is understood, in either mode and by any type of the two. */
  lemma MaskedAddressIsUnderstood(c: StunMessageClass, transid: TransactionId, ws: seq<Wire>, fLegacy: bool, t: u16,
                                  a: Address)
    requires Fits(ws) && t in {0x0020, 0x8020} && (t == 0x8020 ==> LastWire(ws, 0x0020) == None)
    requires LastWire(ws, t) == Some(AttributeWire(fLegacy, t, AddressBytes(XorMapped(a, transid))))
    ensures var r := Parse(Message(StunMsgTypeBinding, c, transid, Body(ws))); r.Some? && r.value.mapped == Some(a)
  {
    AnyResponseIsParsed(StunMsgTypeBinding, c, transid, ws);
    AddressWireValue(fLegacy, t, XorMapped(a, transid));
    XorMappedTwice(a, transid);
  }

  lemma ChangeRoundTrip(change: ChangeRequest)
    ensures ReadChangeRequest(ChangeRequestValue(change.fChangeIP, change.fChangePort)) == change
  {
    var n := (if change.fChangeIP then 4 else 0) + (if change.fChangePort then 2 else 0);
    assert BE32(n)[0..4] == BE32(n);
    BE32RoundTrip(BE32(n), 0, n);
  }

  lemma RequestFits(change: ChangeRequest)
    ensures Fits([ChangeWire(change)]) && |Body([ChangeWire(change)])| == 8
    ensures WireValue(ChangeWire(change)) == ChangeRequestValue(change.fChangeIP, change.fChangePort)
  {
    BodyOne(ChangeWire(change));
    assert ChangeWire(change).data == ChangeRequestValue(change.fChangeIP, change.fChangePort);
  }

  lemma ValueInRequest(transid: TransactionId, change: ChangeRequest, t: u16)
    ensures ValueOf(RequestBytes(transid, change), t)
            == if t == STUN_ATTRIBUTE_CHANGEREQUEST then Some(ChangeRequestValue(change.fChangeIP, change.fChangePort))
               else None
  {
    RequestFits(change);
    WrittenValue(StunMsgTypeBinding, StunMessageClass.Request, transid, [ChangeWire(change)], t);
    assert [ChangeWire(change)][..0] == [];
  }

  /** A server reads the client's request as it was meant. */
  lemma RequestIsHeard(transid: TransactionId, change: ChangeRequest)
    ensures var bytes := RequestBytes(transid, change);
            && Verdict(bytes, true) == BodyValidated
            && STUN_HEADER_SIZE <= |bytes| < 0x1_0000 && Attributes(bytes).Some?
            && TransactionIdOf(bytes) == transid
            && ClassOf(RawType(bytes)) == StunMessageClass.Request && Normalized(RawType(bytes)) == StunMsgTypeBinding
            && WantedChange(bytes) == change && !HasResponsePort(bytes)
            && ValueOf(bytes, STUN_ATTRIBUTE_PADDING) == None
  {
    RequestFits(change);
    ChangeRoundTrip(change);
    BuiltIsAccepted(StunMsgTypeBinding, StunMessageClass.Request, transid, [ChangeWire(change)], true);
    MessageHeader(StunMsgTypeBinding, StunMessageClass.Request, transid, Body([ChangeWire(change)]));
    TypeFieldRoundTrip(StunMsgTypeBinding, StunMessageClass.Request);
    ValueInRequest(transid, change, STUN_ATTRIBUTE_CHANGEREQUEST);
    ValueInRequest(transid, change, STUN_ATTRIBUTE_RESPONSE_PORT);
    ValueInRequest(transid, change, STUN_ATTRIBUTE_PADDING);
  }

  /** Client and server together: a server without authentication that has the addresses asked for answers from the
      role asked for, and the client reads its own mapped address and the server's other address out of the bytes. */
  lemma RequestIsAnswered(transid: TransactionId, change: ChangeRequest, msgIn: MessageIn, tsa: TransportAddressSet,
                          crypto: Crypto)
    requires change.fChangeIP || change.fChangePort ==>
               HasAddress(tsa, Flip(msgIn.socketrole, change)) && !msgIn.fConnectionOriented
    ensures var bytes := RequestBytes(transid, change);
            && STUN_HEADER_SIZE <= |bytes| < 0x1_0000 && Attributes(bytes).Some?
            && var d := Decide(bytes, msgIn, tsa, None, crypto);
               && d.Accept? && d.role == Flip(msgIn.socketrole, change)
               && Parse(ReplyBytes(bytes, msgIn, d, crypto))
                  == Some(Response(transid, Some(msgIn.addrRemote), OtherFor(tsa, msgIn.socketrole)))
  {
    var bytes := RequestBytes(transid, change);
    RequestIsHeard(transid, change);
    var d := Decide(bytes, msgIn, tsa, None, crypto);
    assert d == Bind(bytes, msgIn, tsa, None);
    AcceptReply(bytes, msgIn, d, crypto);
    EveryRequestIsAnswered(bytes, true, msgIn, tsa, None, crypto);
  }

  /** The four addresses of a server as the client works them out (section 3 of RFC 5780): it asks the primary one, and
      is told the one that differs in IP and port. */
  predicate LaidOut(tsa: TransportAddressSet, server: Address, other: Option<Address>) {
    && tsa[RoleIndex(RolePP)].addr == server && OtherFor(tsa, RolePP) == other
    && (other.Some? ==>
          tsa[RoleIndex(RolePA)].addr == PA(server, other.value)
          && tsa[RoleIndex(RoleAP)].addr == AP(server, other.value))
  }

  /** The socket a test's request comes in on. */
  function RoleAsked(kind: TestKind): SocketRole {
    match kind
    case BehaviorTest(fIsTest3) => if fIsTest3 then RoleAA else RoleAP
    case _ => RolePP
  }

  /** So the server is one of the correct servers the discovery verdicts assume: its reply to a request of any test is
      an answer, and it leaves from the very address that the verdicts ask the filter about. */
  lemma ServerIsCorrect(net: Nat, server: Address, kind: TestKind, s: Probe, msgIn: MessageIn, tsa: TransportAddressSet,
                        crypto: Crypto)
    requires LaidOut(tsa, server, net.other) && (kind != BasicBinding ==> net.other.Some? && s.test != 0)
    requires s.dest == TrueTarget(net, server, kind) && s.change == Change(kind)
    requires msgIn.socketrole == RoleAsked(kind) && msgIn.addrRemote == net.mapping(s.dest)
    requires !msgIn.fConnectionOriented
    ensures tsa[RoleIndex(msgIn.socketrole)].addr == s.dest
    ensures var bytes := RequestBytes(s.transid, s.change);
            && STUN_HEADER_SIZE <= |bytes| < 0x1_0000 && Attributes(bytes).Some?
            && var d := Decide(bytes, msgIn, tsa, None, crypto);
               && d.Accept? && tsa[RoleIndex(d.role)].addr == Source(server, net.other, s.dest, s.change)
               && var resp := Parse(ReplyBytes(bytes, msgIn, d, crypto));
                  resp.Some? && IsAnswer(net, s, resp.value)
  {
    LeavesFrom(net, server, kind, s.dest, tsa);
    RequestIsAnswered(s.transid, s.change, msgIn, tsa, crypto);
    ReplyIsAnswer(net, server, kind, s, tsa);
  }

  lemma LeavesFrom(net: Nat, server: Address, kind: TestKind, dest: Address, tsa: TransportAddressSet)
    requires LaidOut(tsa, server, net.other) && (kind != BasicBinding ==> net.other.Some?)
    requires dest == TrueTarget(net, server, kind)
    ensures tsa[RoleIndex(RoleAsked(kind))].addr == dest
    ensures var role := Flip(RoleAsked(kind), Change(kind));
            && tsa[RoleIndex(role)].addr == Source(server, net.other, dest, Change(kind))
            && (Change(kind).fChangeIP || Change(kind).fChangePort ==> HasAddress(tsa, role))
  {
  }

  lemma ReplyIsAnswer(net: Nat, server: Address, kind: TestKind, s: Probe, tsa: TransportAddressSet)
    requires LaidOut(tsa, server, net.other) && (kind != BasicBinding ==> s.test != 0)
    ensures IsAnswer(net, s, Response(s.transid, Some(net.mapping(s.dest)), OtherFor(tsa, RoleAsked(kind))))
  {
  }
}
