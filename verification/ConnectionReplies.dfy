/** What the clients of the connection thread receive: the thread of server/tcpserver.cpp with the handler of
    stuncore/messagehandler.cpp. */
module ConnectionReplies {
  import opened Options
  import opened StunTypes
  import opened StunWire
  import opened StunReaders
  import opened StunReplies
  import opened StunReplyProofs
  import opened MessageHandlers
  import DS = DataStreams
  import opened TcpConnections

  /** How the handler sees a message that came in on a connection. */
  function MessageFrom(peer: Peer): MessageIn {
    MessageIn(peer.role, peer.addrLocal, peer.addrRemote, true)
  }

  lemma ValidatedIsWhole(request: seq<byte>)
    requires Verdict(request, true) == BodyValidated
    ensures STUN_HEADER_SIZE <= |request| < 0x1_0000 && Attributes(request).Some?
  {
  }

  /** The outcome of ProcessRequest on a complete message. */
  ghost function Answer(tsa: TransportAddressSet, auth: Option<AuthProvider>, crypto: Crypto, peer: Peer,
                        request: seq<byte>): Option<seq<byte>> {
    if Verdict(request, true) != BodyValidated then None else
      ValidatedIsWhole(request);
      var d := Decide(request, MessageFrom(peer), tsa, auth, crypto);
      if d.Ignore? then None else Some(ReplyBytes(request, MessageFrom(peer), d, crypto))
  }

  ghost function ServerHandler(tsa: TransportAddressSet, auth: Option<AuthProvider>, crypto: Crypto): Handler {
    (peer, request) => Answer(tsa, auth, crypto, peer, request)
  }

  /** A reply that the client at the other end of a connection can use: a message its reader accepts, with the
      transaction id of the request, that is an error response or tells it its own address. */
  ghost predicate ProperReply(tsa: TransportAddressSet, auth: Option<AuthProvider>, crypto: Crypto, peer: Peer,
                              request: seq<byte>, reply: seq<byte>) {
    && Verdict(request, true) == BodyValidated && Verdict(reply, true) == BodyValidated
    && STUN_HEADER_SIZE <= |request| < 0x1_0000 && Attributes(request).Some?
    && STUN_HEADER_SIZE <= |reply| <= MAX_STUN_MESSAGE_SIZE
    && ClassOf(RawType(request)) == Request && TransactionIdOf(reply) == TransactionIdOf(request)
    && match Decide(request, MessageFrom(peer), tsa, auth, crypto)
       case Ignore => false
       case Refuse(code, _, _) =>
         && ClassOf(RawType(reply)) == FailureResponse && ErrorCodeOf(reply) == Some(code as nat)
         && TellsError(reply, Decide(request, MessageFrom(peer), tsa, auth, crypto))
       case Accept(role, _, other, _) =>
         && role == peer.role && ClassOf(RawType(reply)) == SuccessResponse
         && MappedAddressOf(reply) == Some(peer.addrRemote) && XorMappedAddressOf(reply) == Some(peer.addrRemote)
         && OtherAddressOf(reply) == other
  }

  lemma AnswerIsProper(tsa: TransportAddressSet, auth: Option<AuthProvider>, crypto: Crypto, peer: Peer,
                       request: seq<byte>)
    requires Answer(tsa, auth, crypto, peer, request).Some?
    ensures ProperReply(tsa, auth, crypto, peer, request, Answer(tsa, auth, crypto, peer, request).value)
  {
    EveryRequestIsAnswered(request, true, MessageFrom(peer), tsa, auth, crypto);
    DecisionIsSound(request, MessageFrom(peer), tsa, auth, crypto);
  }

  /** The handler answers exactly the complete requests. */
  lemma AnsweredIff(tsa: TransportAddressSet, auth: Option<AuthProvider>, crypto: Crypto, peer: Peer,
                    request: seq<byte>)
    ensures Verdict(request, true) == BodyValidated ==> |request| >= STUN_HEADER_SIZE
    ensures ServerHandler(tsa, auth, crypto)(peer, request).Some? <==>
            Verdict(request, true) == BodyValidated && ClassOf(RawType(request)) == Request
  {
    if Verdict(request, true) == BodyValidated {
      EveryRequestIsAnswered(request, true, MessageFrom(peer), tsa, auth, crypto);
    }
  }

  /** The handler never answers with nothing. */
  lemma HandlerAnswers(tsa: TransportAddressSet, auth: Option<AuthProvider>, crypto: Crypto)
    ensures AnswersAreNonempty(ServerHandler(tsa, auth, crypto))
  {
    forall peer, request ensures ServerHandler(tsa, auth, crypto)(peer, request) != Some([]) {
      if Answer(tsa, auth, crypto, peer, request).Some? {
        AnswerIsProper(tsa, auth, crypto, peer, request);
      }
    }
  }

  /** ProcessRequest on a message a connection has read. The reader here is fed the whole message at once, which leaves
      it where the connection's own reader is, however the bytes came in. */
  method Reply(tsa: TransportAddressSet, auth: Option<AuthProvider>, crypto: Crypto, hash: u16 -> nat, peer: Peer,
               fed: seq<byte>) returns (reply: Option<seq<byte>>)
    requires Verdict(fed, true) == BodyValidated
    ensures reply == ServerHandler(tsa, auth, crypto)(peer, fed) && reply != Some([])
  {
    var reader := ReaderOf(crypto, hash, fed);
    reply := ReplyOf(reader, tsa, auth, peer);
    if reply.Some? {
      AnswerIsProper(tsa, auth, crypto, peer, fed);
    }
  }

  method ReplyOf(reader: CStunMessageReader, tsa: TransportAddressSet, auth: Option<AuthProvider>, peer: Peer)
    returns (reply: Option<seq<byte>>)
    requires reader.Valid() && reader.state == BodyValidated && Verdict(reader.fed, true) == BodyValidated
    modifies reader.stream`pos
    ensures reply == Answer(tsa, auth, reader.crypto, peer, old(reader.fed))
  {
    var buffer := new DS.Buffer(MAX_STUN_MESSAGE_SIZE);
    var msgOut := new StunMessageOut(buffer);
    var ok := ProcessRequest(reader, MessageFrom(peer), msgOut, tsa, auth);
    reply := if ok then Some(buffer.data[..buffer.size]) else None;
  }

  method ReaderOf(crypto: Crypto, hash: u16 -> nat, fed: seq<byte>) returns (reader: CStunMessageReader)
    ensures reader.Valid() && reader.fed == fed && reader.crypto == crypto && reader.state == Verdict(fed, true)
    ensures fresh({reader, reader.mapAttributes} + reader.stream.Repr() + reader.mapAttributes.Repr)
  {
    reader := new CStunMessageReader(crypto, hash);
    var state := reader.AddBytes(fed);
    assert [] + fed == fed;
  }

  function ReplyList(handler: Handler, peer: Peer, ms: seq<seq<byte>>): seq<seq<byte>> {
    seq(|ms|, i requires 0 <= i < |ms| => ReplyTo(handler, peer, ms[i]))
  }

  lemma {:induction false} RepliesInOrder(handler: Handler, peer: Peer, ms: seq<seq<byte>>)
    ensures Replies(handler, peer, ms) == Flatten(ReplyList(handler, peer, ms))
  {
    if ms != [] {
      var front := ms[..|ms| - 1];
      RepliesInOrder(handler, peer, front);
      assert ReplyList(handler, peer, ms)[..|ms| - 1] == ReplyList(handler, peer, front);
    }
  }

  /** `replies` are proper replies to the complete messages `ms` of one client. */
  ghost predicate ProperReplies(tsa: TransportAddressSet, auth: Option<AuthProvider>, crypto: Crypto, peer: Peer,
                                ms: seq<seq<byte>>, replies: seq<seq<byte>>) {
    |replies| == |ms|
    && forall i | 0 <= i < |replies| :: ProperReply(tsa, auth, crypto, peer, ms[i], replies[i])
  }

  lemma ServedProperly(tsa: TransportAddressSet, auth: Option<AuthProvider>, crypto: Crypto, peer: Peer,
                       ms: seq<seq<byte>>)
    requires Served(ServerHandler(tsa, auth, crypto), peer, ms)
    ensures var handler := ServerHandler(tsa, auth, crypto); var replies := ReplyList(handler, peer, ms);
            ProperReplies(tsa, auth, crypto, peer, ms, replies) && Replies(handler, peer, ms) == Flatten(replies)
  {
    var handler := ServerHandler(tsa, auth, crypto);
    RepliesInOrder(handler, peer, ms);
    forall i | 0 <= i < |ms| ensures ProperReply(tsa, auth, crypto, peer, ms[i], ReplyList(handler, peer, ms)[i]) {
      assert ms[i] in ms;
      AnswerIsProper(tsa, auth, crypto, peer, ms[i]);
    }
  }

  /** Every client, whether its connection is open, at work, failing or closed, has been sent in order and from the
      beginning proper replies to its own requests and nothing else, each made for the addresses of its connection. */
  lemma ClientsGetTheirReplies<R>(s: Server<R>, tsa: TransportAddressSet, auth: Option<AuthProvider>, crypto: Crypto,
                                  hand: Option<R>, busy: Option<R>, sock: int)
    returns (ms: seq<seq<byte>>, replies: seq<seq<byte>>)
    requires Sane(s, ServerHandler(tsa, auth, crypto), hand, busy) && sock in s.peers
    ensures sock in s.sent && sock in s.received
    ensures Flatten(ms) <= s.received[sock] && s.sent[sock] <= Flatten(replies)
    ensures ProperReplies(tsa, auth, crypto, s.peers[sock], ms, replies)
  {
    var handler, peer := ServerHandler(tsa, auth, crypto), s.peers[sock];
    ms :| Served(handler, peer, ms) && Flatten(ms) <= s.received[sock] && s.sent[sock] <= Replies(handler, peer, ms);
    ServedProperly(tsa, auth, crypto, peer, ms);
    replies := ReplyList(handler, peer, ms);
  }

  /** A client of an open connection has been answered every complete message but the last, whose reply is on its way;
      while the thread waits for its next request it has received all replies. */
  lemma OpenClientsAreAnswered<R>(s: Server<R>, tsa: TransportAddressSet, auth: Option<AuthProvider>, crypto: Crypto,
                                  r: R)
    returns (replies: seq<seq<byte>>)
    requires Sane(s, ServerHandler(tsa, auth, crypto), None, None) && s.InTable(r)
    ensures var c := s.conns[r];
            && c.sock in s.peers && s.peers[c.sock] == c.peer && c.sock in s.sent && c.sock in s.received
            && Flatten(Messages(c)) <= s.received[c.sock] && s.sent[c.sock] <= Flatten(replies)
            && (c.state == Receiving ==> s.sent[c.sock] == Flatten(replies))
            && ProperReplies(tsa, auth, crypto, c.peer, Messages(c), replies)
  {
    var c, handler := s.conns[r], ServerHandler(tsa, auth, crypto);
    SentAreReplies(s, handler, r);
    assert AtRest(s, handler, c);
    ServedProperly(tsa, auth, crypto, c.peer, Messages(c));
    replies := ReplyList(handler, c.peer, Messages(c));
  }
}
