/** The request handler of stuncore/messagehandler.cpp, proved against the decision and the reply of StunReplies. */
module MessageHandlers {
  import opened Options
  import opened StunTypes
  import opened StunWire
  import opened StunIntegrity
  import opened SocketAddresses
  import opened DataStreams
  import opened StunBuilders
  import opened StunReaders
  import opened StunReplies
  import opened StunReplyProofs

  /** The caller's output message. */
  class StunMessageOut {
    var socketrole: SocketRole
    var addrDest: Address
    const buffer: Buffer

    constructor (buffer: Buffer)
      ensures this.buffer == buffer
    {
      socketrole := RolePP;
      addrDest := ZERO_ADDRESS;
      this.buffer := buffer;
    }

    ghost predicate Roomy()
      reads buffer
    {
      buffer.size <= buffer.data.Length && MAX_STUN_MESSAGE_SIZE <= buffer.data.Length
    }

    ghost function Output(): seq<byte>
      requires Roomy()
      reads buffer, buffer.data
    {
      buffer.data[..buffer.size]
    }
  }

  /** The credentials a reply is signed with. */
  datatype StunMessageIntegrity = StunMessageIntegrity(fUseLongTerm: bool, user: AuthString, realm: AuthString,
                                                       password: AuthString)

  function SigningKey(i: Option<StunMessageIntegrity>, crypto: Crypto): Option<seq<byte>> {
    if i.None? then None
    else if i.value.fUseLongTerm then Some(LongTermKey(i.value.user, i.value.realm, i.value.password, crypto))
    else Some(i.value.password)
  }

  lemma DraftSnoc(msgType: bv16, c: StunMessageClass, transid: TransactionId, ws: seq<Wire>, w: Wire)
    ensures Draft(msgType, c, 0, transid, Body(ws)) + WireBytes(w) == Draft(msgType, c, 0, transid, Body(ws + [w]))
  {
    BodySnoc(ws, w);
  }

  lemma DraftStart(msgType: bv16, c: StunMessageClass, transid: TransactionId)
    ensures [] + BE16(MsgTypeField(msgType, c) as int) + BE16(0) + transid == Draft(msgType, c, 0, transid, Body([]))
  {
  }

  lemma WiresChain(a: seq<Wire>, b: seq<Wire>, c: seq<Wire>)
    ensures a + b + c == a + (b + c)
  {
  }

  /** Fixing the length of a finished message changes nothing. */
  lemma FixedAgain(msgType: bv16, c: StunMessageClass, transid: TransactionId, body: seq<byte>)
    requires |body| < 0x1_0000
    ensures WithLength(Message(msgType, c, transid, body)) == Message(msgType, c, transid, body)
  {
    MessageIsDraft(msgType, c, transid, body);
    FixedIsMessage(msgType, c, |body|, transid, body);
  }

  /** The outcome that a provider's response leads to, given whether the key it names validates the message. */
  lemma AuthorizedAs(bytes: seq<byte>, auth: Option<AuthProvider>, crypto: Crypto, response: AuthResponse, valid: bool)
    requires STUN_HEADER_SIZE <= |bytes| < 0x1_0000 && Attributes(bytes).Some?
    requires auth.Some? && auth.value(AuthAttributesOf(bytes)) == Some(response)
    requires var key := KeyFor(AuthAttributesOf(bytes), response, crypto);
             valid <==>
             response.responseType == AllowConditional && IntegrityHolds(bytes, Attributes(bytes).value, key, crypto)
    ensures var t, a := response.responseType, Authorize(bytes, auth, crypto);
            && a.errorcode == (if t == StaleNonce then STUN_ERROR_STALENONCE
                               else if t == Unauthorized || (t == AllowConditional && !valid) then
                                 STUN_ERROR_UNAUTHORIZED
                               else if t == Reject then STUN_ERROR_BADREQUEST else 0)
            && (if a.errorcode == STUN_ERROR_UNAUTHORIZED || a.errorcode == STUN_ERROR_STALENONCE then
                  a.nonce == response.nonce && a.realm == response.realm
                else a.nonce == [] && a.realm == [])
            && a.key == if t == AllowConditional && valid then Some(KeyFor(AuthAttributesOf(bytes), response, crypto))
                        else None
  {
  }

  class CStunRequestHandler {
    const auth: Option<AuthProvider>
    const tsa: TransportAddressSet
    const msgIn: MessageIn
    const reader: CStunMessageReader
    const msgOut: StunMessageOut
    const crypto: Crypto

    var errorcode: u16
    var errorNonce: AuthString
    var errorRealm: AuthString
    var integrity: Option<StunMessageIntegrity>
    var fRequestHasResponsePort: bool
    var transid: TransactionId
    var fLegacyMode: bool

    constructor (reader: CStunMessageReader, msgIn: MessageIn, msgOut: StunMessageOut, tsa: TransportAddressSet,
                 auth: Option<AuthProvider>)
      ensures this.reader == reader && this.msgIn == msgIn && this.msgOut == msgOut && this.tsa == tsa
      ensures this.auth == auth && this.crypto == reader.crypto
      ensures errorcode == 0 && errorNonce == [] && errorRealm == [] && integrity == None && !fRequestHasResponsePort
    {
      this.reader := reader;
      this.msgIn := msgIn;
      this.msgOut := msgOut;
      this.tsa := tsa;
      this.auth := auth;
      this.crypto := reader.crypto;
      errorcode := 0;
      errorNonce := [];
      errorRealm := [];
      integrity := None;
      fRequestHasResponsePort := false;
      transid := Zeros(16);
      fLegacyMode := false;
    }

    ghost function ReaderFootprint(): set<object>
      reads reader.stream
    {
      {reader, reader.mapAttributes} + reader.stream.Repr() + reader.mapAttributes.Repr
    }

    ghost predicate Readable()
      reads reader, reader.stream, reader.stream.Repr(), reader.mapAttributes, reader.mapAttributes.Repr
    {
      && reader.Valid() && reader.state == BodyValidated && reader.crypto == crypto
      && this !in reader.mapAttributes.Repr
    }

    ghost predicate Ready()
      reads reader, reader.stream, reader.stream.Repr(), reader.mapAttributes, reader.mapAttributes.Repr, msgOut,
            msgOut.buffer
    {
      && Readable() && msgOut.Roomy()
      && {this, msgOut, msgOut.buffer, msgOut.buffer.data} !! ReaderFootprint()
    }

    /** A reply under construction in the caller's buffer. */
    ghost predicate Building(b: CStunMessageBuilder, msgType: bv16, c: StunMessageClass, ws: seq<Wire>)
      reads this, b, b.stream, b.stream.Repr(), msgOut
    {
      && b.Valid() && b.Contents() == Draft(msgType, c, 0, transid, Body(ws))
      && b.stream.buffer == msgOut.buffer && b.transactionid == transid && b.fLegacyMode == fLegacyMode
      && b.crypto == crypto
    }

    method StartReply(msgType: bv16, c: StunMessageClass) returns (b: CStunMessageBuilder)
      requires msgOut.Roomy()
      modifies msgOut.buffer, msgOut.buffer.data
      ensures fresh(b) && fresh(b.stream) && Building(b, msgType, c, [])
    {
      b := new CStunMessageBuilder(msgOut.buffer, crypto, fLegacyMode);
      b.AddHeader(msgType, c);
      b.AddTransactionId(transid);
      DraftStart(msgType, c, transid);
    }

    method PutErrorCode(b: CStunMessageBuilder, ghost msgType: bv16)
      requires Building(b, msgType, FailureResponse, []) && msgOut.Roomy() && 300 <= errorcode <= 600
      modifies b.stream, msgOut.buffer, msgOut.buffer.data
      ensures Building(b, msgType, FailureResponse,
                       [AttributeWire(fLegacyMode, STUN_ATTRIBUTE_ERRORCODE, ErrorValue(errorcode, FAILED))])
    {
      ghost var w := AttributeWire(fLegacyMode, STUN_ATTRIBUTE_ERRORCODE, ErrorValue(errorcode, FAILED));
      var ok := b.AddErrorCode(errorcode, FAILED);
      DraftSnoc(msgType, FailureResponse, transid, [], w);
      assert [] + [w] == [w];
    }

    method PutString(b: CStunMessageBuilder, t: u16, s: AuthString, ghost msgType: bv16, ghost ws: seq<Wire>)
      requires Building(b, msgType, FailureResponse, ws) && msgOut.Roomy() && |Body(ws)| <= 600
      modifies b.stream, msgOut.buffer, msgOut.buffer.data
      ensures Building(b, msgType, FailureResponse, ws + StringWires(fLegacyMode, t, s))
    {
      if s != [] {
        DraftSnoc(msgType, FailureResponse, transid, ws, AttributeWire(fLegacyMode, t, s));
        var ok := b.AddStringAttribute(t, s);
      } else {
        assert ws + [] == ws;
      }
    }

    method FinishReply(b: CStunMessageBuilder, ghost msgType: bv16, ghost c: StunMessageClass, ghost ws: seq<Wire>)
      requires Building(b, msgType, c, ws) && msgOut.Roomy()
      modifies b.stream, msgOut.buffer, msgOut.buffer.data
      ensures msgOut.Roomy() && msgOut.Output() == Message(msgType, c, transid, Body(ws))
      ensures b.Valid() && b.Contents() == msgOut.Output() && b.stream.buffer == msgOut.buffer
    {
      FixedIsMessage(msgType, c, 0, transid, Body(ws));
      var ok := b.FixLengthField();
    }

    /** The challenge of an error response: nonce, then realm, each unless empty. */
    method PutChallenge(b: CStunMessageBuilder, ghost msgType: bv16, ghost ws: seq<Wire>)
      requires Building(b, msgType, FailureResponse, ws) && msgOut.Roomy() && |Body(ws)| <= 100
      modifies b.stream, msgOut.buffer, msgOut.buffer.data
      ensures Building(b, msgType, FailureResponse,
                       ws + (StringWires(fLegacyMode, STUN_ATTRIBUTE_NONCE, errorNonce)
                             + StringWires(fLegacyMode, STUN_ATTRIBUTE_REALM, errorRealm)))
    {
      ghost var n := StringWires(fLegacyMode, STUN_ATTRIBUTE_NONCE, errorNonce);
      ghost var r := StringWires(fLegacyMode, STUN_ATTRIBUTE_REALM, errorRealm);
      StringWireSmall(fLegacyMode, STUN_ATTRIBUTE_NONCE, errorNonce);
      BodyAppend(ws, n);
      WiresChain(ws, n, r);
      PutString(b, STUN_ATTRIBUTE_NONCE, errorNonce, msgType, ws);
      PutString(b, STUN_ATTRIBUTE_REALM, errorRealm, msgType, ws + n);
    }

    /** All attributes of an error response. */
    method PutError(b: CStunMessageBuilder, ghost msgType: bv16, ghost d: Decision)
      requires Building(b, msgType, FailureResponse, []) && msgOut.Roomy() && 300 <= errorcode <= 600
      requires d == Refuse(errorcode, errorNonce, errorRealm)
      modifies b.stream, msgOut.buffer, msgOut.buffer.data
      ensures Building(b, msgType, FailureResponse, RefusalWires(fLegacyMode, d))
    {
      ghost var ws := [AttributeWire(fLegacyMode, STUN_ATTRIBUTE_ERRORCODE, ErrorValue(errorcode, FAILED))];
      BodyOne(ws[0]);
      PutErrorCode(b, msgType);
      if errorcode == STUN_ERROR_STALENONCE || errorcode == STUN_ERROR_UNAUTHORIZED {
        PutChallenge(b, msgType, ws);
      } else {
        assert ws + [] == ws;
      }
    }

    method BuildErrorResponse()
      requires msgOut.Roomy() && 400 <= errorcode < 500
      requires STUN_HEADER_SIZE <= |reader.fed| && reader.HeaderRead()
      requires transid == TransactionIdOf(reader.fed) && fLegacyMode == IsLegacy(transid)
      modifies msgOut.buffer, msgOut.buffer.data
      ensures msgOut.Roomy()
      ensures msgOut.Output() == ReplyBytes(reader.fed, msgIn, Refuse(errorcode, errorNonce, errorRealm), crypto)
    {
      ghost var d := Refuse(errorcode, errorNonce, errorRealm);
      var msgType := reader.msgTypeNormalized;
      var b := StartReply(msgType, FailureResponse);
      PutError(b, msgType, d);
      FinishReply(b, msgType, FailureResponse, RefusalWires(fLegacyMode, d));
    }

    // ---- authorization ----

    method ReadAuthString(t: u16) returns (s: AuthString)
      requires reader.Valid() && reader.state == BodyValidated
      ensures s == AuthStringOf(reader.fed, t)
    {
      var v := reader.GetStringAttributeByType(t, MAX_STUN_AUTH_STRING_SIZE + 1);
      s := if v.Some? then CString(v.value) else [];
    }

    method ReadCredentials() returns (user: AuthString, realm: AuthString, nonce: AuthString)
      requires reader.Valid() && reader.state == BodyValidated
      ensures user == AuthStringOf(reader.fed, STUN_ATTRIBUTE_USERNAME)
      ensures realm == AuthStringOf(reader.fed, STUN_ATTRIBUTE_REALM)
      ensures nonce == AuthStringOf(reader.fed, STUN_ATTRIBUTE_NONCE)
    {
      user := ReadAuthString(STUN_ATTRIBUTE_USERNAME);
      realm := ReadAuthString(STUN_ATTRIBUTE_REALM);
      nonce := ReadAuthString(STUN_ATTRIBUTE_NONCE);
    }

    method ReadAuthAttributes() returns (a: AuthAttributes)
      requires reader.Valid() && reader.state == BodyValidated
      ensures a == AuthAttributesOf(reader.fed)
    {
      var user, realm, nonce := ReadCredentials();
      var legacyPassword := ReadAuthString(STUN_ATTRIBUTE_LEGACY_PASSWORD);
      var present := reader.HasAttribute(STUN_ATTRIBUTE_MESSAGEINTEGRITY);
      a := AuthAttributes(user, realm, nonce, legacyPassword, present);
    }

    /** What an error code, a challenge and a key say together. */
    ghost function Outcome(): AuthOutcome
      reads this
    {
      AuthOutcome(errorcode, errorNonce, errorRealm, SigningKey(integrity, crypto))
    }

    /** ValidateAuth, with the generic refusal its caller substitutes when the provider fails. */
    method ValidateAuth()
      requires Readable() && Outcome() == AuthOutcome(0, [], [], None)
      modifies `errorcode, `errorNonce, `errorRealm, `integrity, reader.stream`pos
      ensures reader.Valid() && Outcome() == Authorize(reader.fed, auth, crypto)
    {
      if auth.Some? {
        var code, nonce, realm, signing := Judge();
        errorcode := code;
        errorRealm := realm;
        errorNonce := nonce;
        integrity := signing;
      }
    }

    /** How the provider's response is acted on. */
    method Judge() returns (code: u16, nonce: AuthString, realm: AuthString, signing: Option<StunMessageIntegrity>)
      requires Readable() && auth.Some?
      modifies reader.stream`pos
      ensures reader.Valid()
      ensures AuthOutcome(code, nonce, realm, SigningKey(signing, crypto)) == Authorize(reader.fed, auth, crypto)
    {
      var attributes := ReadAuthAttributes();
      var response := auth.value(attributes);
      if response.None? {
        code, nonce, realm, signing := STUN_ERROR_BADREQUEST, [], [], None;
      } else {
        code, nonce, realm, signing := Apply(attributes, response.value);
      }
    }

    method Apply(attributes: AuthAttributes, response: AuthResponse)
      returns (code: u16, nonce: AuthString, realm: AuthString, signing: Option<StunMessageIntegrity>)
      requires Readable() && auth.Some?
      requires attributes == AuthAttributesOf(reader.fed) && auth.value(attributes) == Some(response)
      modifies reader.stream`pos
      ensures reader.Valid()
      ensures AuthOutcome(code, nonce, realm, SigningKey(signing, crypto)) == Authorize(reader.fed, auth, crypto)
    {
      var valid := KeyHolds(attributes, response);
      code, nonce, realm, signing := Conclude(attributes, response, valid);
      AuthorizedAs(reader.fed, auth, crypto, response, valid);
    }

    /** The message integrity is checked only when the provider makes the answer depend on it. */
    method KeyHolds(attributes: AuthAttributes, response: AuthResponse) returns (valid: bool)
      requires Readable()
      modifies reader.stream`pos
      ensures reader.Valid()
      ensures valid <==> response.responseType == AllowConditional
                         && IntegrityHolds(reader.fed, Attributes(reader.fed).value,
                                           KeyFor(attributes, response, crypto), crypto)
    {
      valid := false;
      if response.responseType == AllowConditional {
        valid := reader.ValidateMessageIntegrity(KeyFor(attributes, response, crypto));
      }
    }

    /** The error code, and the challenge that goes with it, or the credentials to sign the reply with. */
    method Conclude(attributes: AuthAttributes, response: AuthResponse, valid: bool)
      returns (code: u16, nonce: AuthString, realm: AuthString, signing: Option<StunMessageIntegrity>)
      ensures var t := response.responseType;
              && code == (if t == StaleNonce then STUN_ERROR_STALENONCE
                          else if t == Unauthorized || (t == AllowConditional && !valid) then STUN_ERROR_UNAUTHORIZED
                          else if t == Reject then STUN_ERROR_BADREQUEST else 0)
              && (if code == STUN_ERROR_UNAUTHORIZED || code == STUN_ERROR_STALENONCE then
                    nonce == response.nonce && realm == response.realm
                  else nonce == [] && realm == [])
              && SigningKey(signing, crypto)
                 == if t == AllowConditional && valid then Some(KeyFor(attributes, response, crypto))
                                                else None
    {
      code, nonce, realm, signing := 0, [], [], None;
      match response.responseType {
        case StaleNonce => code := STUN_ERROR_STALENONCE;
        case Unauthorized => code := STUN_ERROR_UNAUTHORIZED;
        case Reject => code := STUN_ERROR_BADREQUEST;
        case Allow =>
        case AllowConditional =>
          if valid {
            signing := Some(StunMessageIntegrity(response.fLongTerm, attributes.user, attributes.realm,
                                                 response.password));
          } else {
            code := STUN_ERROR_UNAUTHORIZED;
          }
      }
      if code == STUN_ERROR_UNAUTHORIZED || code == STUN_ERROR_STALENONCE {
        realm := response.realm;
        nonce := response.nonce;
      }
    }

    // ---- the binding response ----

    method PutMapped(b: CStunMessageBuilder)
      requires Building(b, StunMsgTypeBinding, SuccessResponse, []) && msgOut.Roomy()
      modifies b.stream, msgOut.buffer, msgOut.buffer.data
      ensures Building(b, StunMsgTypeBinding, SuccessResponse,
                       AddressWires(fLegacyMode, STUN_ATTRIBUTE_MAPPEDADDRESS, Some(msgIn.addrRemote)))
    {
      ghost var w := AttributeWire(fLegacyMode, STUN_ATTRIBUTE_MAPPEDADDRESS, AddressBytes(msgIn.addrRemote));
      b.AddMappedAddress(msgIn.addrRemote);
      DraftSnoc(StunMsgTypeBinding, SuccessResponse, transid, [], w);
      assert [] + [w] == [w];
    }

    method PutOrigin(b: CStunMessageBuilder, a: Option<Address>, ghost ws: seq<Wire>)
      requires Building(b, StunMsgTypeBinding, SuccessResponse, ws) && msgOut.Roomy() && |Body(ws)| <= 600
      modifies b.stream, msgOut.buffer, msgOut.buffer.data
      ensures Building(b, StunMsgTypeBinding, SuccessResponse,
                       ws + AddressWires(fLegacyMode, OriginType(fLegacyMode), a))
    {
      if a.Some? {
        DraftSnoc(StunMsgTypeBinding, SuccessResponse, transid, ws,
                  AttributeWire(fLegacyMode, OriginType(fLegacyMode), AddressBytes(a.value)));
        b.AddResponseOriginAddress(a.value);
      } else {
        assert ws + [] == ws;
      }
    }

    method PutOther(b: CStunMessageBuilder, a: Option<Address>, ghost ws: seq<Wire>)
      requires Building(b, StunMsgTypeBinding, SuccessResponse, ws) && msgOut.Roomy() && |Body(ws)| <= 600
      modifies b.stream, msgOut.buffer, msgOut.buffer.data
      ensures Building(b, StunMsgTypeBinding, SuccessResponse,
                       ws + AddressWires(fLegacyMode, OtherType(fLegacyMode), a))
    {
      if a.Some? {
        DraftSnoc(StunMsgTypeBinding, SuccessResponse, transid, ws,
                  AttributeWire(fLegacyMode, OtherType(fLegacyMode), AddressBytes(a.value)));
        b.AddOtherAddress(a.value);
      } else {
        assert ws + [] == ws;
      }
    }

    method PutXorMapped(b: CStunMessageBuilder, ghost ws: seq<Wire>)
      requires Building(b, StunMsgTypeBinding, SuccessResponse, ws) && msgOut.Roomy() && |Body(ws)| <= 600
      modifies b.stream, msgOut.buffer, msgOut.buffer.data
      ensures Building(b, StunMsgTypeBinding, SuccessResponse,
                       ws + AddressWires(fLegacyMode, XorMappedType(fLegacyMode),
                                         Some(XorMapped(msgIn.addrRemote, transid))))
    {
      DraftSnoc(StunMsgTypeBinding, SuccessResponse, transid, ws,
                AttributeWire(fLegacyMode, XorMappedType(fLegacyMode),
                              AddressBytes(XorMapped(msgIn.addrRemote, transid))));
      b.AddXorMappedAddress(msgIn.addrRemote);
    }

    /** All attributes of the response but the signature, in the order of the source. */
    method PutAddresses(b: CStunMessageBuilder, origin: Option<Address>, other: Option<Address>, ghost d: Decision)
      requires Building(b, StunMsgTypeBinding, SuccessResponse, []) && msgOut.Roomy()
      requires d.Accept? && d.origin == origin && d.other == other
      modifies b.stream, msgOut.buffer, msgOut.buffer.data
      ensures Building(b, StunMsgTypeBinding, SuccessResponse, AcceptWires(fLegacyMode, d, msgIn.addrRemote, transid))
    {
      ghost var m := AddressWires(fLegacyMode, STUN_ATTRIBUTE_MAPPEDADDRESS, Some(msgIn.addrRemote));
      ghost var r := AddressWires(fLegacyMode, OriginType(fLegacyMode), origin);
      ghost var o := AddressWires(fLegacyMode, OtherType(fLegacyMode), other);
      AddressWireSmall(fLegacyMode, STUN_ATTRIBUTE_MAPPEDADDRESS, Some(msgIn.addrRemote));
      AddressWireSmall(fLegacyMode, OriginType(fLegacyMode), origin);
      AddressWireSmall(fLegacyMode, OtherType(fLegacyMode), other);
      BodyAppend(m, r);
      BodyAppend(m + r, o);
      PutMapped(b);
      PutOrigin(b, origin, m);
      PutOther(b, other, m + r);
      PutXorMapped(b, m + r + o);
    }

    /** The signature, if the request was signed, and the final length. */
    method SignReply(b: CStunMessageBuilder, ghost ws: seq<Wire>)
      requires Building(b, StunMsgTypeBinding, SuccessResponse, ws) && msgOut.Roomy() && Small(ws, 4, 96)
      modifies b.stream, msgOut.buffer, msgOut.buffer.data
      ensures msgOut.Roomy()
      ensures var key := SigningKey(integrity, crypto);
              msgOut.Output()
              == if key.None? || key.value == [] then Message(StunMsgTypeBinding, SuccessResponse, transid, Body(ws))
                 else WithIntegrity(Draft(StunMsgTypeBinding, SuccessResponse, 0, transid, Body(ws)), key.value, crypto)
    {
      var signed := false;
      if integrity.Some? {
        IntegrityIsWire(StunMsgTypeBinding, SuccessResponse, 0, transid, Body(ws), SigningKey(integrity, crypto).value,
                        crypto);
        if integrity.value.fUseLongTerm {
          signed := b.AddMessageIntegrityLongTerm(integrity.value.user, integrity.value.realm,
                                                  integrity.value.password);
        } else {
          signed := b.AddMessageIntegrityShortTerm(integrity.value.password);
        }
      }
      FinishSigned(b, ws, signed);
    }

    method FinishSigned(b: CStunMessageBuilder, ghost ws: seq<Wire>, ghost signed: bool)
      requires b.Valid() && b.stream.buffer == msgOut.buffer && msgOut.Roomy() && |Body(ws)| <= 96
      requires var draft := Draft(StunMsgTypeBinding, SuccessResponse, 0, transid, Body(ws));
               var key := SigningKey(integrity, crypto);
               if signed then key.Some? && b.Contents() == WithIntegrity(draft, key.value, crypto)
               else b.Contents() == draft
      modifies b.stream, msgOut.buffer, msgOut.buffer.data
      ensures msgOut.Roomy()
      ensures var draft := Draft(StunMsgTypeBinding, SuccessResponse, 0, transid, Body(ws));
              msgOut.Output() == if signed then WithIntegrity(draft, SigningKey(integrity, crypto).value, crypto)
                                 else Message(StunMsgTypeBinding, SuccessResponse, transid, Body(ws))
    {
      if signed {
        var key := SigningKey(integrity, crypto).value;
        var w := IntegrityWire(StunMsgTypeBinding, SuccessResponse, transid, Body(ws), key, crypto);
        IntegrityIsWire(StunMsgTypeBinding, SuccessResponse, 0, transid, Body(ws), key, crypto);
        FixedAgain(StunMsgTypeBinding, SuccessResponse, transid, Body(ws) + WireBytes(w));
      } else {
        FixedIsMessage(StunMsgTypeBinding, SuccessResponse, 0, transid, Body(ws));
      }
      var ok := b.FixLengthField();
    }

    /** The checks of ProcessBindingRequest: what to answer with, or why not to. */
    method PlanBinding(ghost key: Option<seq<byte>>)
      returns (ok: bool, out: SocketRole, origin: Option<Address>, other: Option<Address>)
      requires Readable() && fRequestHasResponsePort == HasResponsePort(reader.fed)
      modifies `errorcode
      ensures errorcode == if ok then old(errorcode) else STUN_ERROR_BADREQUEST
      ensures Bind(reader.fed, msgIn, tsa, key)
              == if ok then Accept(out, origin, other, key) else Refuse(STUN_ERROR_BADREQUEST, [], [])
    {
      out := msgIn.socketrole;
      origin, other := None, None;
      var fRequestHasPaddingAttribute := reader.HasAttribute(STUN_ATTRIBUTE_PADDING);
      var change := reader.GetChangeRequest();
      ok := !(fRequestHasResponsePort && fRequestHasPaddingAttribute);
      if ok && change.Some? && (change.value.fChangeIP || change.value.fChangePort) {
        if change.value.fChangeIP {
          out := SwapIP(out);
        }
        if change.value.fChangePort {
          out := SwapPort(out);
        }
        ok := HasAddress(tsa, out) && !msgIn.fConnectionOriented;
      }
      if ok {
        var fSendOtherAddress :=
          HasAddress(tsa, RolePP) && HasAddress(tsa, RolePA) && HasAddress(tsa, RoleAP) && HasAddress(tsa, RoleAA);
        if fSendOtherAddress {
          var addrOther := tsa[RoleIndex(SwapIP(SwapPort(msgIn.socketrole)))].addr;
          other := if IsIPAddressZero(addrOther) then None else Some(addrOther);
        }
        var addrOrigin := tsa[RoleIndex(out)].addr;
        if IsIPAddressZero(addrOrigin) {
          if out == msgIn.socketrole {
            addrOrigin := msgIn.addrLocal;
          }
        }
        origin := if IsIPAddressZero(addrOrigin) then None else Some(addrOrigin);
      } else {
        errorcode := STUN_ERROR_BADREQUEST;
      }
    }

    /** The reply to an accepted request. */
    method BuildBindingResponse(origin: Option<Address>, other: Option<Address>, ghost d: Decision)
      requires msgOut.Roomy() && STUN_HEADER_SIZE <= |reader.fed|
      requires transid == TransactionIdOf(reader.fed) && fLegacyMode == IsLegacy(transid)
      requires d.Accept? && d.origin == origin && d.other == other && d.key == SigningKey(integrity, crypto)
      modifies msgOut.buffer, msgOut.buffer.data
      ensures msgOut.Roomy() && msgOut.Output() == ReplyBytes(reader.fed, msgIn, d, crypto)
    {
      var b := StartReply(StunMsgTypeBinding, SuccessResponse);
      PutAddresses(b, origin, other, d);
      AcceptSmall(fLegacyMode, d, msgIn.addrRemote, transid);
      SignReply(b, AcceptWires(fLegacyMode, d, msgIn.addrRemote, transid));
    }

    method ProcessBindingRequest()
      requires Readable() && msgOut.Roomy() && fRequestHasResponsePort == HasResponsePort(reader.fed)
      requires STUN_HEADER_SIZE <= |reader.fed| && {msgOut, msgOut.buffer, msgOut.buffer.data} !! ReaderFootprint()
      requires transid == TransactionIdOf(reader.fed) && fLegacyMode == IsLegacy(transid)
      modifies `errorcode, msgOut`socketrole, msgOut.buffer, msgOut.buffer.data
      ensures msgOut.Roomy()
      ensures var d := Bind(reader.fed, msgIn, tsa, SigningKey(integrity, crypto));
              if d.Accept? then
                errorcode == old(errorcode) && msgOut.socketrole == d.role
                && msgOut.Output() == ReplyBytes(reader.fed, msgIn, d, crypto)
              else
                errorcode == d.errorcode && msgOut.socketrole == old(msgOut.socketrole)
    {
      ghost var d := Bind(reader.fed, msgIn, tsa, SigningKey(integrity, crypto));
      var ok, out, origin, other := PlanBinding(SigningKey(integrity, crypto));
      if ok {
        msgOut.socketrole := out;
        BuildBindingResponse(origin, other, d);
      }
    }

    // ---- the whole request ----

    /** The fields of the request that every reply needs, and its response port. */
    method ReadRequest()
      requires Readable() && errorcode == 0 && !fRequestHasResponsePort && msgOut.addrDest == msgIn.addrRemote
      requires ClassOf(RawType(reader.fed)) == Request
      modifies `transid, `fLegacyMode, `fRequestHasResponsePort, `errorcode, msgOut`addrDest
      ensures transid == TransactionIdOf(reader.fed) && fLegacyMode == IsLegacy(transid)
      ensures fRequestHasResponsePort == HasResponsePort(reader.fed)
      ensures errorcode == if fRequestHasResponsePort && msgIn.fConnectionOriented then STUN_ERROR_BADREQUEST else 0
      ensures msgOut.addrDest == Destination(reader.fed, msgIn)
    {
      transid := reader.transactionid;
      fLegacyMode := reader.fMessageIsLegacyFormat;
      var port := reader.GetResponsePort();
      var responseport := if port.Some? then port.value else 0;
      if responseport != 0 {
        Redirect(responseport);
      }
    }

    /** A response port is refused on a connection and replaces the port of the destination otherwise. */
    method Redirect(responseport: u16)
      modifies `fRequestHasResponsePort, `errorcode, msgOut`addrDest
      ensures fRequestHasResponsePort
      ensures errorcode == if msgIn.fConnectionOriented then STUN_ERROR_BADREQUEST else old(errorcode)
      ensures msgOut.addrDest
              == if msgIn.fConnectionOriented then old(msgOut.addrDest)
                else WithPort(old(msgOut.addrDest), responseport)
    {
      fRequestHasResponsePort := true;
      if msgIn.fConnectionOriented {
        errorcode := STUN_ERROR_BADREQUEST;
      } else {
        msgOut.addrDest := WithPort(msgOut.addrDest, responseport);
      }
    }

    method Screen()
      requires Readable() && Outcome() == AuthOutcome(errorcode, [], [], None)
      requires errorcode == if HasResponsePort(reader.fed) && msgIn.fConnectionOriented then STUN_ERROR_BADREQUEST
                            else 0
      modifies `errorcode, `errorNonce, `errorRealm, `integrity, reader.stream`pos
      ensures reader.Valid() && Outcome() == Screening(reader.fed, msgIn, auth, crypto)
    {
      if errorcode == 0 && reader.msgTypeNormalized != StunMsgTypeBinding {
        errorcode := STUN_ERROR_BADREQUEST;
      }
      if errorcode == 0 {
        ValidateAuth();
      }
    }

    method Answer()
      requires Ready() && Outcome() == Screening(reader.fed, msgIn, auth, crypto)
      requires msgOut.socketrole == msgIn.socketrole
      requires ClassOf(RawType(reader.fed)) == Request
      requires transid == TransactionIdOf(reader.fed) && fLegacyMode == IsLegacy(transid)
      requires fRequestHasResponsePort == HasResponsePort(reader.fed)
      modifies `errorcode, msgOut`socketrole, msgOut.buffer, msgOut.buffer.data
      ensures STUN_HEADER_SIZE <= |reader.fed| < 0x1_0000 && Attributes(reader.fed).Some? && msgOut.Roomy()
      ensures Sent(Decide(reader.fed, msgIn, tsa, auth, crypto))
    {
      ScreeningRange(reader.fed, msgIn, auth, crypto);
      if errorcode == 0 {
        ProcessBindingRequest();
      }
      if errorcode != 0 {
        BuildErrorResponse();
      }
    }

    /** The output message carries the reply to the decision `d`, on the socket it names. */
    ghost predicate Sent(d: Decision)
      requires STUN_HEADER_SIZE <= |reader.fed| && msgOut.Roomy()
      reads reader, msgOut, msgOut.buffer, msgOut.buffer.data
    {
      && msgOut.socketrole == (if d.Accept? then d.role else msgIn.socketrole)
      && msgOut.Output() == (if d.Ignore? then [] else ReplyBytes(reader.fed, msgIn, d, crypto))
    }

    method ProcessRequestImpl() returns (ok: bool)
      requires Ready() && Outcome() == AuthOutcome(0, [], [], None) && !fRequestHasResponsePort
      requires msgOut.addrDest == msgIn.addrRemote && msgOut.socketrole == msgIn.socketrole && msgOut.Output() == []
      modifies this, reader.stream`pos, msgOut, msgOut.buffer, msgOut.buffer.data
      ensures STUN_HEADER_SIZE <= |reader.fed| < 0x1_0000 && Attributes(reader.fed).Some? && msgOut.Roomy()
      ensures ok <==> !Decide(reader.fed, msgIn, tsa, auth, crypto).Ignore?
      ensures Sent(Decide(reader.fed, msgIn, tsa, auth, crypto)) && msgOut.addrDest == Destination(reader.fed, msgIn)
    {
      ok := reader.msgClass == Request;
      if ok {
        Respond();
      }
    }

    /** What is left once the request is read. */
    method ScreenAndAnswer()
      requires Ready() && Outcome() == AuthOutcome(errorcode, [], [], None) && msgOut.socketrole == msgIn.socketrole
      requires errorcode == if HasResponsePort(reader.fed) && msgIn.fConnectionOriented then STUN_ERROR_BADREQUEST
                            else 0
      requires ClassOf(RawType(reader.fed)) == Request
      requires transid == TransactionIdOf(reader.fed) && fLegacyMode == IsLegacy(transid)
      requires fRequestHasResponsePort == HasResponsePort(reader.fed)
      modifies `errorcode, `errorNonce, `errorRealm, `integrity, reader.stream`pos
      modifies msgOut`socketrole, msgOut.buffer, msgOut.buffer.data
      ensures STUN_HEADER_SIZE <= |reader.fed| < 0x1_0000 && Attributes(reader.fed).Some? && msgOut.Roomy()
      ensures Sent(Decide(reader.fed, msgIn, tsa, auth, crypto))
    {
      Screen();
      Answer();
    }

    method Respond()
      requires Ready() && Outcome() == AuthOutcome(0, [], [], None) && !fRequestHasResponsePort
      requires ClassOf(RawType(reader.fed)) == Request
      requires msgOut.addrDest == msgIn.addrRemote && msgOut.socketrole == msgIn.socketrole
      modifies this, reader.stream`pos, msgOut, msgOut.buffer, msgOut.buffer.data
      ensures STUN_HEADER_SIZE <= |reader.fed| < 0x1_0000 && Attributes(reader.fed).Some? && msgOut.Roomy()
      ensures Sent(Decide(reader.fed, msgIn, tsa, auth, crypto)) && msgOut.addrDest == Destination(reader.fed, msgIn)
    {
      ReadRequest();
      ScreenAndAnswer();
    }
  }

  /** The handler object and the output message are prepared. */
  method Begin(reader: CStunMessageReader, msgIn: MessageIn, msgOut: StunMessageOut, tsa: TransportAddressSet,
               auth: Option<AuthProvider>) returns (handler: CStunRequestHandler)
    requires reader.Valid() && reader.state == BodyValidated && MAX_STUN_MESSAGE_SIZE <= msgOut.buffer.data.Length
    requires {msgOut, msgOut.buffer, msgOut.buffer.data}
             !! {reader, reader.mapAttributes} + reader.stream.Repr() + reader.mapAttributes.Repr
    modifies msgOut, msgOut.buffer
    ensures fresh(handler) && handler.Ready() && handler.msgOut == msgOut && handler.reader == reader
    ensures handler.msgIn == msgIn && handler.tsa == tsa && handler.auth == auth && handler.crypto == reader.crypto
    ensures handler.Outcome() == AuthOutcome(0, [], [], None) && !handler.fRequestHasResponsePort
    ensures msgOut.addrDest == msgIn.addrRemote && msgOut.socketrole == msgIn.socketrole && msgOut.Output() == []
  {
    msgOut.buffer.size := 0;
    handler := new CStunRequestHandler(reader, msgIn, msgOut, tsa, auth);
    msgOut.socketrole := msgIn.socketrole;
    msgOut.addrDest := msgIn.addrRemote;
  }

  /** ProcessRequest: an unusable output buffer or a message that is not validated is an error of the caller. */
  method ProcessRequest(reader: CStunMessageReader, msgIn: MessageIn, msgOut: StunMessageOut, tsa: TransportAddressSet,
                        auth: Option<AuthProvider>) returns (ok: bool)
    requires reader.Valid() && msgOut.buffer.size <= msgOut.buffer.data.Length
    requires {msgOut, msgOut.buffer, msgOut.buffer.data}
             !! {reader, reader.mapAttributes} + reader.stream.Repr() + reader.mapAttributes.Repr
    modifies reader.stream`pos, msgOut, msgOut.buffer, msgOut.buffer.data
    ensures msgOut.buffer.data.Length < MAX_STUN_MESSAGE_SIZE || reader.state != BodyValidated ==> !ok
    ensures msgOut.buffer.data.Length >= MAX_STUN_MESSAGE_SIZE && reader.state == BodyValidated ==>
              && STUN_HEADER_SIZE <= |reader.fed| < 0x1_0000 && Attributes(reader.fed).Some? && msgOut.Roomy()
              && var d := Decide(reader.fed, msgIn, tsa, auth, reader.crypto);
                 && (ok <==> !d.Ignore?)
                 && msgOut.addrDest == Destination(reader.fed, msgIn)
                 && msgOut.socketrole == (if d.Accept? then d.role else msgIn.socketrole)
                 && msgOut.Output() == (if d.Ignore? then [] else ReplyBytes(reader.fed, msgIn, d, reader.crypto))
  {
    if msgOut.buffer.data.Length < MAX_STUN_MESSAGE_SIZE || reader.state != BodyValidated {
      return false;
    }
    var handler := Begin(reader, msgIn, msgOut, tsa, auth);
    ok := handler.ProcessRequestImpl();
  }
}
