/** When stuncore/messagehandler.cpp accepts a request, with what it refuses one, and what it takes from it: both
    directions, on the attributes as they were written. */
module StunDecisions {
  import opened Options
  import opened StunTypes
  import opened StunWire
  import opened StunIntegrity
  import opened StunValidation
  import opened SocketAddresses
  import opened StunBuilders
  import opened StunReaders
  import opened StunReplies
  import opened StunReplyProofs

  // ---- what a request must be ----

  /** What the provider says of a request; nothing when it fails. */
  ghost function Said(bytes: seq<byte>, auth: AuthProvider): Option<AuthResponse> {
    auth(AuthAttributesOf(bytes))
  }

  ghost predicate SaysOf(bytes: seq<byte>, auth: Option<AuthProvider>, t: AuthResponseType) {
    auth.Some? && Said(bytes, auth.value).Some? && Said(bytes, auth.value).value.responseType == t
  }

  /** The request carries the hash made with the key the provider has for it. */
  ghost predicate Signed(bytes: seq<byte>, auth: AuthProvider, crypto: Crypto)
    requires STUN_HEADER_SIZE <= |bytes| < 0x1_0000 && Attributes(bytes).Some? && Said(bytes, auth).Some?
  {
    IntegrityHolds(bytes, Attributes(bytes).value, KeyFor(AuthAttributesOf(bytes), Said(bytes, auth).value, crypto),
                   crypto)
  }

  /** A binding request, and none that asks for another port over a connection. */
  ghost predicate Presentable(bytes: seq<byte>, msgIn: MessageIn)
    requires STUN_HEADER_SIZE <= |bytes|
  {
    && ClassOf(RawType(bytes)) == Request && Normalized(RawType(bytes)) == 0x0001
    && (HasResponsePort(bytes) ==> !msgIn.fConnectionOriented)
  }

  /** What it asks for can be done: no padding to another port, and no other source address over a connection, or one
      the server does not have. */
  ghost predicate Doable(bytes: seq<byte>, msgIn: MessageIn, tsa: TransportAddressSet) {
    var change := WantedChange(bytes);
    && (HasResponsePort(bytes) ==> ValueOf(bytes, 0x0026) == None)
    && (change.fChangeIP || change.fChangePort ==>
          !msgIn.fConnectionOriented && HasAddress(tsa, Flip(msgIn.socketrole, change)))
  }

  /** A request is accepted if and only if it is a binding request, the provider, if there is one, allows it, or allows
      it on condition that it is signed and it is, and what it asks for can be done. */
  lemma AcceptedIff(bytes: seq<byte>, msgIn: MessageIn, tsa: TransportAddressSet, auth: Option<AuthProvider>,
                    crypto: Crypto)
    requires STUN_HEADER_SIZE <= |bytes| < 0x1_0000 && Attributes(bytes).Some?
    ensures var d := Decide(bytes, msgIn, tsa, auth, crypto);
            && (d.Accept? <==>
                && Presentable(bytes, msgIn) && Doable(bytes, msgIn, tsa)
                && (auth.None? || SaysOf(bytes, auth, Allow)
                    || (SaysOf(bytes, auth, AllowConditional) && Signed(bytes, auth.value, crypto))))
            && (d.Accept? ==> (d.key.Some? <==> SaysOf(bytes, auth, AllowConditional)))
            && (d.Accept? && d.key.Some? ==>
                  d.key.value == KeyFor(AuthAttributesOf(bytes), Said(bytes, auth.value).value, crypto))
  {
  }

  /** The codes of a refusal. 438 means that the provider calls the nonce stale, and 401 that it wants credentials or
      that the signature is wrong; either comes with the provider's nonce and realm. Everything else is a bad
      request. */
  lemma RefusedWith(bytes: seq<byte>, msgIn: MessageIn, tsa: TransportAddressSet, auth: Option<AuthProvider>,
                    crypto: Crypto)
    requires STUN_HEADER_SIZE <= |bytes| < 0x1_0000 && Attributes(bytes).Some?
    ensures var d := Decide(bytes, msgIn, tsa, auth, crypto);
            && (d.Ignore? <==> ClassOf(RawType(bytes)) != Request)
            && (d.Refuse? ==>
                  && d.errorcode in {400, 401, 438}
                  && (d.errorcode == 438 <==> Presentable(bytes, msgIn) && SaysOf(bytes, auth, StaleNonce))
                  && (d.errorcode == 401 <==>
                      && Presentable(bytes, msgIn)
                      && (SaysOf(bytes, auth, Unauthorized)
                          || (SaysOf(bytes, auth, AllowConditional) && !Signed(bytes, auth.value, crypto))))
                  && (d.errorcode != 400 ==>
                        d.nonce == Said(bytes, auth.value).value.nonce
                          && d.realm == Said(bytes, auth.value).value.realm))
  {
  }

  // ---- addresses ----

  /** The other address is that of the opposite role, with IP and port both different, and is given if and only if all
      four roles have an address and it is no zero address. */
  lemma OtherIsOpposite(tsa: TransportAddressSet, role: SocketRole)
    ensures OtherFor(tsa, role).Some? <==>
            (forall i | 0 <= i < 4 :: tsa[i].fValid) && !IsIPAddressZero(tsa[3 - RoleIndex(role)].addr)
    ensures OtherFor(tsa, role).Some? ==> OtherFor(tsa, role).value == tsa[3 - RoleIndex(role)].addr
  {
    AllFour(tsa);
  }

  lemma AllFour(tsa: TransportAddressSet)
    ensures (forall i | 0 <= i < 4 :: tsa[i].fValid)
            <==> tsa[0].fValid && tsa[1].fValid && tsa[2].fValid && tsa[3].fValid
  {
    if tsa[0].fValid && tsa[1].fValid && tsa[2].fValid && tsa[3].fValid {
      forall i | 0 <= i < 4 ensures tsa[i].fValid {
        assert i == 0 || i == 1 || i == 2 || i == 3;
      }
    }
  }

  /** The origin is the address of the role the reply leaves from; a socket that listens on all addresses tells the one
      the request came in on, and none is told when both are zero. */
  lemma OriginIsSource(tsa: TransportAddressSet, msgIn: MessageIn, out: SocketRole)
    ensures var addr, origin := tsa[RoleIndex(out)].addr, OriginFor(tsa, msgIn, out);
            && (!IsIPAddressZero(addr) ==> origin == Some(addr))
            && (IsIPAddressZero(addr) && out == msgIn.socketrole && !IsIPAddressZero(msgIn.addrLocal) ==>
                  origin == Some(msgIn.addrLocal))
            && (origin.Some? ==> !IsIPAddressZero(origin.value) && origin.value in {addr, msgIn.addrLocal})
  {
  }

  /** A reply to a request with a RESPONSE-PORT goes to that port, at the address the request came from. */
  lemma ResponsePortIsUsed(transid: TransactionId, ws: seq<Wire>, port: u16, msgIn: MessageIn)
    requires Fits(ws) && LastWire(ws, 0x0027) == Some(AttributeWire(false, 0x0027, BE16(port)))
    ensures var m := Message(StunMsgTypeBinding, Request, transid, Body(ws));
            && Destination(m, msgIn).v4 == msgIn.addrRemote.v4 && Destination(m, msgIn).ip == msgIn.addrRemote.ip
            && GetPort(Destination(m, msgIn))
               == if port != 0 && !msgIn.fConnectionOriented then port else GetPort(msgIn.addrRemote)
  {
    var m := Message(StunMsgTypeBinding, Request, transid, Body(ws));
    WrittenValue(StunMsgTypeBinding, Request, transid, ws, 0x0027);
    MessageHeader(StunMsgTypeBinding, Request, transid, Body(ws));
    TypeFieldRoundTrip(StunMsgTypeBinding, Request);
    var v := WireValue(AttributeWire(false, 0x0027, BE16(port)));
    assert v == BE16(port) && v[0..2] == v;
    BE16RoundTrip(v, 0, port);
  }

  // ---- credentials ----

  /** A C string ends at the first zero byte. */
  lemma {:induction false} CStringEndsAtZero(s: seq<byte>)
    ensures CString(s) <= s && 0 !in CString(s)
    ensures |CString(s)| < |s| ==> s[|CString(s)|] == 0
  {
    if s != [] && s[0] != 0 {
      CStringEndsAtZero(s[1..]);
    }
  }

  /** An authentication string is written under a type, or is empty and not written. */
  ghost predicate Written(ws: seq<Wire>, fLegacy: bool, t: u16, s: AuthString) {
    LastWire(ws, t) == if s == [] then None else Some(AttributeWire(fLegacy, t, s))
  }

  /** The provider is asked about the user name, realm and nonce that the client wrote, and the password of RFC 3489. */
  lemma CredentialsAreRead(transid: TransactionId, ws: seq<Wire>, fLegacy: bool, a: AuthAttributes)
    requires Fits(ws) && Written(ws, fLegacy, 0x0006, a.user) && Written(ws, fLegacy, 0x0014, a.realm)
    requires Written(ws, fLegacy, 0x0015, a.nonce) && Written(ws, fLegacy, 0x0007, a.legacyPassword)
    requires a.fMessageIntegrityPresent <==> LastWire(ws, 0x0008).Some?
    ensures AuthAttributesOf(Message(StunMsgTypeBinding, Request, transid, Body(ws))) == a
  {
    CredentialIsRead(transid, ws, fLegacy, 0x0006, a.user);
    CredentialIsRead(transid, ws, fLegacy, 0x0014, a.realm);
    CredentialIsRead(transid, ws, fLegacy, 0x0015, a.nonce);
    CredentialIsRead(transid, ws, fLegacy, 0x0007, a.legacyPassword);
    WrittenValue(StunMsgTypeBinding, Request, transid, ws, 0x0008);
  }

  lemma CredentialIsRead(transid: TransactionId, ws: seq<Wire>, fLegacy: bool, t: u16, s: AuthString)
    requires Fits(ws) && Written(ws, fLegacy, t, s)
    ensures AuthStringOf(Message(StunMsgTypeBinding, Request, transid, Body(ws)), t) == s
  {
    WrittenValue(StunMsgTypeBinding, Request, transid, ws, t);
    StringUnder(Message(StunMsgTypeBinding, Request, transid, Body(ws)), fLegacy, t, s);
  }

  /** A request that asks for nothing but its address. */
  ghost predicate Plain(ws: seq<Wire>) {
    LastWire(ws, STUN_ATTRIBUTE_RESPONSE_PORT) == None && LastWire(ws, STUN_ATTRIBUTE_CHANGEREQUEST) == None
  }

  lemma PlainIsPresentable(transid: TransactionId, ws: seq<Wire>, msgIn: MessageIn, tsa: TransportAddressSet)
    requires Fits(ws) && Plain(ws)
    ensures var m := Message(StunMsgTypeBinding, Request, transid, Body(ws));
            && STUN_HEADER_SIZE <= |m| < 0x1_0000 && Attributes(m) == Some(Placed(ws, STUN_HEADER_SIZE))
            && Presentable(m, msgIn) && Doable(m, msgIn, tsa) && WantedChange(m) == ChangeRequest(false, false)
  {
    BuiltIsAccepted(StunMsgTypeBinding, Request, transid, ws, true);
    MessageHeader(StunMsgTypeBinding, Request, transid, Body(ws));
    TypeFieldRoundTrip(StunMsgTypeBinding, Request);
    WrittenValue(StunMsgTypeBinding, Request, transid, ws, STUN_ATTRIBUTE_RESPONSE_PORT);
    WrittenValue(StunMsgTypeBinding, Request, transid, ws, STUN_ATTRIBUTE_CHANGEREQUEST);
  }

  /** End to end, with credentials: a plain binding request that ends in an integrity attribute, to a server whose
      provider has a key for it, is accepted if and only if the attribute holds the hash made with that key; then the
      reply is signed with the key too. Otherwise it is refused with the provider's challenge. */
  lemma SignedRequestIsAcceptedIff(transid: TransactionId, ws: seq<Wire>, hash: Hash20, msgIn: MessageIn,
                                   tsa: TransportAddressSet, auth: AuthProvider, response: AuthResponse, crypto: Crypto)
    requires AllFormed(ws) && |ws| + 1 <= MAX_NUM_ATTRIBUTES && |Body(ws)| + 24 <= MAX_STUN_MESSAGE_SIZE
    requires Plain(ws)
    requires var m := Message(StunMsgTypeBinding, Request, transid, Body(ws + [Wire(0x0008, 20, hash)]));
             && Said(m, auth) == Some(response) && response.responseType == AllowConditional
             && KeyFor(AuthAttributesOf(m), response, crypto) != []
    ensures var m := Message(StunMsgTypeBinding, Request, transid, Body(ws + [Wire(0x0008, 20, hash)]));
            var key := KeyFor(AuthAttributesOf(m), response, crypto);
            && STUN_HEADER_SIZE <= |m| < 0x1_0000 && Attributes(m).Some?
            && var d := Decide(m, msgIn, tsa, Some(auth), crypto);
               if hash == crypto.hmac(key, Draft(StunMsgTypeBinding, Request, |Body(ws)| + 24, transid, Body(ws))) then
                 d.Accept? && d.key == Some(key) && d.role == msgIn.socketrole
               else
                 d == Refuse(401, response.nonce, response.realm)
  {
    var m := Message(StunMsgTypeBinding, Request, transid, Body(ws + [Wire(0x0008, 20, hash)]));
    SignedIff(transid, ws, hash, msgIn, tsa, KeyFor(AuthAttributesOf(m), response, crypto), crypto);
    DecidedBySignature(m, msgIn, tsa, auth, response, crypto);
  }

  lemma SignedIff(transid: TransactionId, ws: seq<Wire>, hash: Hash20, msgIn: MessageIn, tsa: TransportAddressSet,
                  key: seq<byte>, crypto: Crypto)
    requires AllFormed(ws) && |ws| + 1 <= MAX_NUM_ATTRIBUTES && |Body(ws)| + 24 <= MAX_STUN_MESSAGE_SIZE
    requires Plain(ws) && key != []
    ensures var m := Message(StunMsgTypeBinding, Request, transid, Body(ws + [Wire(0x0008, 20, hash)]));
            && STUN_HEADER_SIZE <= |m| < 0x1_0000 && Attributes(m).Some?
            && Presentable(m, msgIn) && Doable(m, msgIn, tsa) && WantedChange(m) == ChangeRequest(false, false)
            && (IntegrityHolds(m, Attributes(m).value, key, crypto) <==>
                hash == crypto.hmac(key, Draft(StunMsgTypeBinding, Request, |Body(ws)| + 24, transid, Body(ws))))
  {
    var w := Wire(0x0008, 20, hash);
    IntegrityBehind(transid, ws, w, key, crypto);
    PlainWith(ws, w);
    PlainIsPresentable(transid, ws + [w], msgIn, tsa);
  }

  lemma DecidedBySignature(m: seq<byte>, msgIn: MessageIn, tsa: TransportAddressSet, auth: AuthProvider,
                           response: AuthResponse, crypto: Crypto)
    requires STUN_HEADER_SIZE <= |m| < 0x1_0000 && Attributes(m).Some?
    requires Presentable(m, msgIn) && Doable(m, msgIn, tsa) && WantedChange(m) == ChangeRequest(false, false)
    requires Said(m, auth) == Some(response) && response.responseType == AllowConditional
    ensures var d := Decide(m, msgIn, tsa, Some(auth), crypto);
            var key := KeyFor(AuthAttributesOf(m), response, crypto);
            if IntegrityHolds(m, Attributes(m).value, key, crypto) then
              d.Accept? && d.key == Some(key) && d.role == msgIn.socketrole
            else
              d == Refuse(401, response.nonce, response.realm)
  {
    AcceptedIff(m, msgIn, tsa, Some(auth), crypto);
    RefusedWith(m, msgIn, tsa, Some(auth), crypto);
  }

  lemma IntegrityBehind(transid: TransactionId, ws: seq<Wire>, w: Wire, key: seq<byte>, crypto: Crypto)
    requires AllFormed(ws) && w.atype == 0x0008 && w.len == |w.data| == 20 && key != []
    requires |ws| + 1 <= MAX_NUM_ATTRIBUTES && |Body(ws)| + 24 <= MAX_STUN_MESSAGE_SIZE
    ensures Fits(ws + [w])
    ensures IntegrityHolds(Message(StunMsgTypeBinding, Request, transid, Body(ws + [w])),
                           Placed(ws + [w], STUN_HEADER_SIZE), key, crypto) <==>
            w.data == crypto.hmac(key, Draft(StunMsgTypeBinding, Request, |Body(ws)| + 24, transid, Body(ws)))
  {
    LastPlacedWire(ws, w);
    assert (ws + [w])[..|ws|] == ws;
    IntegrityHoldsIff(StunMsgTypeBinding, Request, transid, ws + [w], key, crypto);
  }

  lemma LastPlacedWire(ws: seq<Wire>, w: Wire)
    requires AllFormed(ws) && w.len == |w.data| == 20
    requires |ws| + 1 <= MAX_NUM_ATTRIBUTES && |Body(ws)| + 24 <= MAX_STUN_MESSAGE_SIZE
    ensures Fits(ws + [w]) && |Body(ws + [w])| == |Body(ws)| + 24
  {
    var a := StunIntegrity.LastPlaced(ws, w);
  }

  lemma PlainWith(ws: seq<Wire>, w: Wire)
    requires Plain(ws) && w.atype == 0x0008
    ensures Plain(ws + [w])
  {
    assert (ws + [w])[..|ws|] == ws;
  }
}
