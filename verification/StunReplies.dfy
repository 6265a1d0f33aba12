/** What stuncore/messagehandler.cpp answers to a validated message (section 6.1 of RFC 5780), as a function of the
    message, and what a client reads out of the answer. */
module StunReplies {
  import opened Options
  import opened StunTypes
  import opened StunWire
  import opened StunIntegrity
  import opened SocketAddresses
  import opened StunBuilders
  import opened StunReaders

  // ---- roles and inputs ----

  datatype SocketRole = RolePP | RolePA | RoleAP | RoleAA

  function RoleIndex(r: SocketRole): (i: nat)
    ensures i < 4
  {
    match r case RolePP => 0 case RolePA => 1 case RoleAP => 2 case RoleAA => 3
  }

  function SwapPort(r: SocketRole): SocketRole {
    match r case RolePP => RolePA case RolePA => RolePP case RoleAP => RoleAA case RoleAA => RoleAP
  }

  function SwapIP(r: SocketRole): SocketRole {
    match r case RolePP => RoleAP case RolePA => RoleAA case RoleAP => RolePP case RoleAA => RolePA
  }

  /** Swapping is what the source does to the role's number: one bit for the port, one for the address. */
  lemma SwapsAreBits(r: SocketRole)
    ensures RoleIndex(SwapPort(r)) as bv16 == (RoleIndex(r) as bv16) ^ 1
    ensures RoleIndex(SwapIP(r)) as bv16 == (RoleIndex(r) as bv16) ^ 2
  {
  }

  datatype TransportAddress = TransportAddress(addr: Address, fValid: bool)

  type TransportAddressSet = s: seq<TransportAddress> | |s| == 4
    witness seq(4, i => TransportAddress(ZERO_ADDRESS, false))

  predicate HasAddress(tsa: TransportAddressSet, r: SocketRole) {
    tsa[RoleIndex(r)].fValid
  }

  datatype MessageIn = MessageIn(socketrole: SocketRole, addrLocal: Address, addrRemote: Address,
                                 fConnectionOriented: bool)

  /** A char array of 65 bytes, read as a C string. */
  type AuthString = s: seq<byte> | |s| <= MAX_STUN_AUTH_STRING_SIZE && 0 !in s witness []

  function CString(s: seq<byte>): (r: seq<byte>)
    ensures |r| <= |s| && 0 !in r
  {
    if s == [] || s[0] == 0 then [] else [s[0]] + CString(s[1..])
  }

  datatype AuthAttributes = AuthAttributes(user: AuthString, realm: AuthString, nonce: AuthString,
                                           legacyPassword: AuthString, fMessageIntegrityPresent: bool)

  datatype AuthResponseType = Allow | AllowConditional | StaleNonce | Reject | Unauthorized

  datatype AuthResponse = AuthResponse(responseType: AuthResponseType, fLongTerm: bool,
                                       password: AuthString, realm: AuthString, nonce: AuthString)

  /** An auth provider: any function, which may also fail. */
  type AuthProvider = AuthAttributes -> Option<AuthResponse>

  // ---- the decision ----

  datatype Decision =
    | Ignore
    | Refuse(errorcode: u16, nonce: AuthString, realm: AuthString)
    | Accept(role: SocketRole, origin: Option<Address>, other: Option<Address>, key: Option<seq<byte>>)

  ghost function AuthStringOf(bytes: seq<byte>, t: u16): AuthString {
    var v := StringOf(bytes, t, MAX_STUN_AUTH_STRING_SIZE + 1);
    if v.Some? && |v.value| <= MAX_STUN_AUTH_STRING_SIZE then CString(v.value) else []
  }

  ghost function AuthAttributesOf(bytes: seq<byte>): AuthAttributes {
    AuthAttributes(AuthStringOf(bytes, STUN_ATTRIBUTE_USERNAME), AuthStringOf(bytes, STUN_ATTRIBUTE_REALM),
                   AuthStringOf(bytes, STUN_ATTRIBUTE_NONCE), AuthStringOf(bytes, STUN_ATTRIBUTE_LEGACY_PASSWORD),
                   ValueOf(bytes, STUN_ATTRIBUTE_MESSAGEINTEGRITY).Some?)
  }

  function KeyFor(attributes: AuthAttributes, response: AuthResponse, crypto: Crypto): seq<byte> {
    if response.fLongTerm then LongTermKey(attributes.user, attributes.realm, response.password, crypto)
    else response.password
  }

  /** The outcome of ValidateAuth: an error code or 0, the challenge that goes with it, the key to sign with. */
  datatype AuthOutcome = AuthOutcome(errorcode: u16, nonce: AuthString, realm: AuthString, key: Option<seq<byte>>)

  ghost function Authorize(bytes: seq<byte>, auth: Option<AuthProvider>, crypto: Crypto): AuthOutcome
    requires STUN_HEADER_SIZE <= |bytes| < 0x1_0000 && Attributes(bytes).Some?
  {
    if auth.None? then AuthOutcome(0, [], [], None) else
      var attributes := AuthAttributesOf(bytes);
      match auth.value(attributes)
      case None => AuthOutcome(STUN_ERROR_BADREQUEST, [], [], None)
      case Some(response) =>
        match response.responseType
        case StaleNonce => AuthOutcome(STUN_ERROR_STALENONCE, response.nonce, response.realm, None)
        case Unauthorized => AuthOutcome(STUN_ERROR_UNAUTHORIZED, response.nonce, response.realm, None)
        case Reject => AuthOutcome(STUN_ERROR_BADREQUEST, [], [], None)
        case Allow => AuthOutcome(0, [], [], None)
        case AllowConditional =>
          var key := KeyFor(attributes, response, crypto);
          if IntegrityHolds(bytes, Attributes(bytes).value, key, crypto) then AuthOutcome(0, [], [], Some(key))
          else AuthOutcome(STUN_ERROR_UNAUTHORIZED, response.nonce, response.realm, None)
  }

  ghost predicate HasResponsePort(bytes: seq<byte>) {
    ResponsePortOf(bytes).Some? && ResponsePortOf(bytes).value != 0
  }

  /** The change the request asks for, if it asks for any. */
  ghost function WantedChange(bytes: seq<byte>): ChangeRequest {
    if ChangeRequestOf(bytes).Some? then ChangeRequestOf(bytes).value else ChangeRequest(false, false)
  }

  function Flip(r: SocketRole, c: ChangeRequest): SocketRole {
    var r1 := if c.fChangeIP then SwapIP(r) else r;
    if c.fChangePort then SwapPort(r1) else r1
  }

  function OtherFor(tsa: TransportAddressSet, role: SocketRole): Option<Address> {
    var other := SwapIP(SwapPort(role));
    if HasAddress(tsa, RolePP) && HasAddress(tsa, RolePA) && HasAddress(tsa, RoleAP) && HasAddress(tsa, RoleAA)
       && !IsIPAddressZero(tsa[RoleIndex(other)].addr)
    then Some(tsa[RoleIndex(other)].addr) else None
  }

  function OriginFor(tsa: TransportAddressSet, msgIn: MessageIn, out: SocketRole): Option<Address> {
    var addr := tsa[RoleIndex(out)].addr;
    var origin := if IsIPAddressZero(addr) && out == msgIn.socketrole then msgIn.addrLocal else addr;
    if IsIPAddressZero(origin) then None else Some(origin)
  }

  /** ProcessBindingRequest, once the request is authorized. */
  ghost function Bind(bytes: seq<byte>, msgIn: MessageIn, tsa: TransportAddressSet, key: Option<seq<byte>>): Decision {
    var change := WantedChange(bytes);
    var out := Flip(msgIn.socketrole, change);
    if HasResponsePort(bytes) && ValueOf(bytes, STUN_ATTRIBUTE_PADDING).Some? then Refuse(STUN_ERROR_BADREQUEST, [], [])
    else if (change.fChangeIP || change.fChangePort) && (!HasAddress(tsa, out) || msgIn.fConnectionOriented) then
      Refuse(STUN_ERROR_BADREQUEST, [], [])
    else Accept(out, OriginFor(tsa, msgIn, out), OtherFor(tsa, msgIn.socketrole), key)
  }

  /** Everything a request must pass before it is treated as a binding request. */
  ghost function Screening(bytes: seq<byte>, msgIn: MessageIn, auth: Option<AuthProvider>, crypto: Crypto): AuthOutcome
    requires STUN_HEADER_SIZE <= |bytes| < 0x1_0000 && Attributes(bytes).Some?
  {
    if HasResponsePort(bytes) && msgIn.fConnectionOriented then AuthOutcome(STUN_ERROR_BADREQUEST, [], [], None)
    else if Normalized(RawType(bytes)) != StunMsgTypeBinding then AuthOutcome(STUN_ERROR_BADREQUEST, [], [], None)
    else Authorize(bytes, auth, crypto)
  }

  /** ProcessRequestImpl. */
  ghost function Decide(bytes: seq<byte>, msgIn: MessageIn, tsa: TransportAddressSet, auth: Option<AuthProvider>,
                        crypto: Crypto): Decision
    requires STUN_HEADER_SIZE <= |bytes| < 0x1_0000 && Attributes(bytes).Some?
  {
    if ClassOf(RawType(bytes)) != Request then Ignore
    else
      var a := Screening(bytes, msgIn, auth, crypto);
      if a.errorcode != 0 then Refuse(a.errorcode, a.nonce, a.realm) else Bind(bytes, msgIn, tsa, a.key)
  }

  ghost function Destination(bytes: seq<byte>, msgIn: MessageIn): Address
    requires STUN_HEADER_SIZE <= |bytes|
  {
    if ClassOf(RawType(bytes)) == Request && HasResponsePort(bytes) && !msgIn.fConnectionOriented then
      WithPort(msgIn.addrRemote, ResponsePortOf(bytes).value)
    else msgIn.addrRemote
  }

  // ---- the reply ----

  const FAILED: seq<byte> := [0x46, 0x41, 0x49, 0x4c, 0x45, 0x44]

  function StringWires(fLegacy: bool, t: u16, s: seq<byte>): seq<Wire> {
    if s == [] then [] else [AttributeWire(fLegacy, t, s)]
  }

  function RefusalWires(fLegacy: bool, d: Decision): seq<Wire>
    requires d.Refuse?
  {
    [AttributeWire(fLegacy, STUN_ATTRIBUTE_ERRORCODE, ErrorValue(d.errorcode, FAILED))]
    + (if d.errorcode == STUN_ERROR_STALENONCE || d.errorcode == STUN_ERROR_UNAUTHORIZED then
         StringWires(fLegacy, STUN_ATTRIBUTE_NONCE, d.nonce) + StringWires(fLegacy, STUN_ATTRIBUTE_REALM, d.realm)
       else [])
  }

  function AddressWires(fLegacy: bool, t: u16, a: Option<Address>): seq<Wire> {
    if a.None? then [] else [AttributeWire(fLegacy, t, AddressBytes(a.value))]
  }

  function AcceptWires(fLegacy: bool, d: Decision, remote: Address, transid: TransactionId): seq<Wire>
    requires d.Accept?
  {
    AddressWires(fLegacy, STUN_ATTRIBUTE_MAPPEDADDRESS, Some(remote))
    + AddressWires(fLegacy, OriginType(fLegacy), d.origin)
    + AddressWires(fLegacy, OtherType(fLegacy), d.other)
    + AddressWires(fLegacy, XorMappedType(fLegacy), Some(XorMapped(remote, transid)))
  }

  /** The bytes of the reply: an error response echoing the method of the request, or a binding success response,
      signed when the request was. */
  function ReplyBytes(request: seq<byte>, msgIn: MessageIn, d: Decision, crypto: Crypto): seq<byte>
    requires |request| >= STUN_HEADER_SIZE && !d.Ignore?
  {
    var transid := TransactionIdOf(request);
    var fLegacy := IsLegacy(transid);
    if d.Refuse? then
      Message(Normalized(RawType(request)), FailureResponse, transid, Body(RefusalWires(fLegacy, d)))
    else
      var body := Body(AcceptWires(fLegacy, d, msgIn.addrRemote, transid));
      if d.key.None? || d.key.value == [] then Message(StunMsgTypeBinding, SuccessResponse, transid, body)
      else WithIntegrity(Draft(StunMsgTypeBinding, SuccessResponse, 0, transid, body), d.key.value, crypto)
  }
}
