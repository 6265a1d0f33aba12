/** The connections of server/tcpserver.cpp as a value: pool, tables, poller and byte streams, with the invariant that
    holds whenever the thread waits. `R` stands for connection objects. */
module TcpConnections {
  import opened Options
  import opened Collections
  import opened StunTypes
  import opened StunWire
  import opened StunReaders
  import opened SocketAddresses
  import opened StunReplies
  import opened PollSet

  const EPOLL_CLIENT_READ_EVENT_SET: bv32 := IPOLLING_READ | IPOLLING_RDHUP
  const EPOLL_CLIENT_WRITE_EVENT_SET: bv32 := IPOLLING_WRITE
  const EPOLL_LISTEN_SOCKET_EVENT_SET: bv32 := IPOLLING_READ
  const EPOLL_PIPE_EVENT_SET: bv32 := IPOLLING_READ
  const SWEEP_TIMEOUT_SECONDS := 60

  datatype ConnectionState = Idle | Receiving | Transmitting

  /** What a connected socket knows: the role of the socket it was accepted on, and both ends' addresses. */
  datatype Peer = Peer(role: SocketRole, addrLocal: Address, addrRemote: Address)

  const NO_PEER: Peer := Peer(RolePP, ZERO_ADDRESS, ZERO_ADDRESS)

  /** A connection: its reader is given by the bytes it was fed. `served` are the complete messages answered so far,
      `born` the number of sweeps that had happened when it was accepted. */
  datatype Conn = Conn(sock: int, peer: Peer, state: ConnectionState, fed: seq<byte>, output: seq<byte>, txCount: nat,
                       idHashTable: int, timeStart: nat, served: seq<seq<byte>>, born: nat)

  /** The request handler: for a connection and a message, a reply, or a failure that closes the connection. */
  type Handler = (Peer, seq<byte>) -> Option<seq<byte>>

  ghost predicate AnswersAreNonempty(handler: Handler) {
    forall peer, request :: handler(peer, request) != Some([])
  }

  function ReplyTo(handler: Handler, peer: Peer, m: seq<byte>): seq<byte> {
    match handler(peer, m) case None => [] case Some(reply) => reply
  }

  function Replies(handler: Handler, peer: Peer, served: seq<seq<byte>>): seq<byte> {
    if served == [] then [] else
      Replies(handler, peer, served[..|served| - 1]) + ReplyTo(handler, peer, served[|served| - 1])
  }

  lemma ServedSnoc(handler: Handler, peer: Peer, served: seq<seq<byte>>, m: seq<byte>)
    requires handler(peer, m).Some?
    ensures Replies(handler, peer, served + [m]) == Replies(handler, peer, served) + handler(peer, m).value
    ensures Flatten(served + [m]) == Flatten(served) + m
  {
    assert (served + [m])[..|served|] == served;
  }

  /** `peers` tells, for every descriptor a connection was ever made for, the peer of the last one. */
  datatype Server<R> = Server(
    conns: map<R, Conn>, free: seq<R>, t1: map<int, R>, t2: map<int, R>, newIs1: bool,
    watched: map<int, bv32>, open: set<int>, received: map<int, seq<byte>>, sent: map<int, seq<byte>>,
    peers: map<int, Peer>, listen: set<int>, lastSweep: nat, sweeps: nat, clock: nat)
  {
    function Table(id: int): map<int, R> {
      if id == 1 then t1 else t2
    }

    /** The tables new connections go to and old ones wait in. */
    function New(): map<int, R> {
      if newIs1 then t1 else t2
    }

    function Old(): map<int, R> {
      if newIs1 then t2 else t1
    }

    ghost predicate InTable(r: R) {
      r in conns && var c := conns[r]; (c.idHashTable == 1 || c.idHashTable == 2)
                                       && c.sock in Table(c.idHashTable) && Table(c.idHashTable)[c.sock] == r
    }
  }

  // ---- placement ----

  ghost predicate Tabled<R>(s: Server<R>, k: int, r: R, id: int) {
    r in s.conns && s.conns[r].sock == k && k >= 0 && s.conns[r].idHashTable == id && k !in s.listen
  }

  ghost predicate Held<R>(s: Server<R>, r: R) {
    r in s.conns && var c := s.conns[r];
    && c.sock >= 0 && c.idHashTable in {-1, 1, 2} && c.sock !in s.t1 && c.sock !in s.t2 && c.sock !in s.listen
  }

  function Socks<R>(s: Server<R>, hand: Option<R>): set<int> {
    if hand.Some? && hand.value in s.conns then {s.conns[hand.value].sock} else {}
  }

  ghost predicate Pooled<R>(s: Server<R>) {
    NoRepeats(s.free) && forall r | r in s.free :: r in s.conns && s.conns[r].sock == -1
  }

  ghost predicate Filed<R>(s: Server<R>) {
    && (forall k | k in s.t1 :: Tabled(s, k, s.t1[k], 1))
    && (forall k | k in s.t2 :: Tabled(s, k, s.t2[k], 2))
    && (forall k | k in s.t1 :: k !in s.t2)
  }

  /** Every connection is in exactly one place: free and closed, in the table its `idHashTable` names under its own
      socket, or in `hand`, where a connection is between the pool and the tables. A connection in hand may already name
      a table: that is how a full table leaves it. The descriptors in use are exactly
      those of the listeners, the tables and the hand, and no others are watched. */
  ghost predicate AccountedFor<R>(s: Server<R>, hand: Option<R>) {
    && Pooled(s) && Filed(s)
    && (hand.Some? ==> Held(s, hand.value))
    && (forall r | r in s.conns :: r in s.free || hand == Some(r) || s.InTable(r))
    && s.open == s.listen + s.t1.Keys + s.t2.Keys + Socks(s, hand)
    && s.watched.Keys <= s.open
  }

  // ---- the byte streams ----

  predicate Unfinished(fed: seq<byte>) {
    Verdict(fed, true) == HeaderNotRead || Verdict(fed, true) == HeaderValidated
  }

  ghost predicate Served(handler: Handler, peer: Peer, served: seq<seq<byte>>) {
    forall m | m in served :: Verdict(m, true) == BodyValidated && handler(peer, m).Some?
  }

  /** What came in on the socket is the messages served and the one being read. */
  ghost predicate Reads<R>(s: Server<R>, handler: Handler, c: Conn) {
    && c.sock in s.received && Served(handler, c.peer, c.served)
    && s.received[c.sock] == Flatten(c.served) + c.fed
  }

  /** And what went out is the replies. */
  ghost predicate Streams<R>(s: Server<R>, handler: Handler, c: Conn) {
    && Reads(s, handler, c)
    && c.sock in s.sent && c.sock in s.peers && s.peers[c.sock] == c.peer
    && c.txCount <= |c.output|
    && s.sent[c.sock] == Replies(handler, c.peer, c.served) + c.output[..c.txCount]
  }

  /** What a client has been sent is a beginning of the replies to complete messages it sent first. */
  ghost predicate Fair(handler: Handler, peer: Peer, received: seq<byte>, sent: seq<byte>) {
    exists ms: seq<seq<byte>> ::
      Served(handler, peer, ms) && Flatten(ms) <= received && sent <= Replies(handler, peer, ms)
  }

  /** So it is for the last client on every descriptor, whether its connection is open, failing or closed. */
  ghost predicate AllFair(handler: Handler, peers: map<int, Peer>, received: map<int, seq<byte>>,
                          sent: map<int, seq<byte>>) {
    forall k | k in peers :: k in received && k in sent && Fair(handler, peers[k], received[k], sent[k])
  }

  /** New bytes of one client. */
  lemma FairWith(handler: Handler, peers: map<int, Peer>, received: map<int, seq<byte>>, sent: map<int, seq<byte>>,
                 received1: map<int, seq<byte>>, sent1: map<int, seq<byte>>, k: int, peer: Peer)
    requires AllFair(handler, peers, received, sent)
    requires forall q | q in received && q != k :: q in received1 && received1[q] == received[q]
    requires forall q | q in sent && q != k :: q in sent1 && sent1[q] == sent[q]
    requires k in received1 && k in sent1 && Fair(handler, peer, received1[k], sent1[k])
    ensures AllFair(handler, peers[k := peer], received1, sent1)
  {
  }

  lemma SilenceIsFair(handler: Handler, peer: Peer)
    ensures Fair(handler, peer, [], [])
  {
    assert Served(handler, peer, []) && Flatten([]) == [];
  }

  /** A descriptor with empty streams, for the client before or a new one. */
  lemma FreshIsFair(handler: Handler, peers: map<int, Peer>, received: map<int, seq<byte>>, sent: map<int, seq<byte>>,
                    sock: int, peer: Peer)
    requires AllFair(handler, peers, received, sent)
    ensures AllFair(handler, peers, received[sock := []], sent[sock := []])
    ensures AllFair(handler, peers[sock := peer], received[sock := []], sent[sock := []])
  {
    SilenceIsFair(handler, peer);
    if sock in peers {
      SilenceIsFair(handler, peers[sock]);
    }
  }

  /** A connection whose reply to the message at hand has not begun, and one whose reply has. */
  lemma StreamsAreFair<R>(s: Server<R>, handler: Handler, c: Conn)
    requires Streams(s, handler, c)
    requires c.txCount == 0 || (Verdict(c.fed, true) == BodyValidated && handler(c.peer, c.fed) == Some(c.output))
    ensures Fair(handler, c.peer, s.received[c.sock], s.sent[c.sock])
  {
    if c.txCount == 0 {
      assert s.sent[c.sock] <= Replies(handler, c.peer, c.served);
    } else {
      var ms := c.served + [c.fed];
      ServedSnoc(handler, c.peer, c.served, c.fed);
      assert Served(handler, c.peer, ms) && Flatten(ms) <= s.received[c.sock];
      assert s.sent[c.sock] <= Replies(handler, c.peer, ms);
    }
  }

  /** A connection at rest: reading an unfinished message and watched for input, or with part of a reply to a complete
      message still to be sent and watched for output. */
  ghost predicate AtRest<R>(s: Server<R>, handler: Handler, c: Conn) {
    && Streams(s, handler, c) && c.sock in s.watched
    && match c.state
       case Idle => false
       case Receiving =>
         Unfinished(c.fed) && c.txCount == 0 && s.watched[c.sock] == EPOLL_CLIENT_READ_EVENT_SET
       case Transmitting =>
         && Verdict(c.fed, true) == BodyValidated && handler(c.peer, c.fed) == Some(c.output) && c.txCount < |c.output|
         && s.watched[c.sock] == EPOLL_CLIENT_WRITE_EVENT_SET
  }

  /** All connections in the tables are at rest, except those in `busy`. */
  ghost predicate Healthy<R>(s: Server<R>, handler: Handler, busy: Option<R>) {
    forall r {:trigger AtRest(s, handler, s.conns[r])} | r in s.conns && busy != Some(r) && s.InTable(r) ::
      AtRest(s, handler, s.conns[r])
  }

  // ---- ages ----

  /** Connections in the new table were accepted since the last sweep, those in the old table before it and after the
      sweep before that. */
  predicate AgeOk<R>(s: Server<R>, c: Conn) {
    if c.idHashTable == -1 || (c.idHashTable == 1) == s.newIs1 then
      c.born == s.sweeps && s.lastSweep <= c.timeStart <= s.clock
    else
      c.born + 1 == s.sweeps && c.timeStart <= s.lastSweep
  }

  ghost predicate Aged<R>(s: Server<R>, hand: Option<R>) {
    && s.lastSweep <= s.clock
    && (forall r {:trigger AgeOk(s, s.conns[r])} | r in s.conns && (s.InTable(r) || hand == Some(r)) ::
          AgeOk(s, s.conns[r]))
  }

  ghost predicate Sane<R>(s: Server<R>, handler: Handler, hand: Option<R>, busy: Option<R>) {
    AccountedFor(s, hand) && Healthy(s, handler, busy) && Aged(s, hand)
    && AllFair(handler, s.peers, s.received, s.sent)
  }

  // ---- closing a connection ----

  function Without<V>(m: map<int, V>, k: int): map<int, V> {
    m - {k}
  }

  /** CloseConnection. */
  function Closed<R(==)>(s: Server<R>, r: R): Server<R>
    requires r in s.conns
  {
    var c := s.conns[r];
    s.(conns := s.conns[r := c.(sock := -1, peer := NO_PEER)], free := [r] + s.free,
    t1 := if c.idHashTable == 1 then Without(s.t1, c.sock) else s.t1,
    t2 := if c.idHashTable == 2 then Without(s.t2, c.sock) else s.t2,
    watched := Without(s.watched, c.sock), open := s.open - {c.sock})
  }

  /** The same listening sockets are watched. */
  ghost predicate SameListeners<R>(s: Server<R>, s1: Server<R>) {
    s1.listen == s.listen && forall k | k in s.listen :: k in s1.watched <==> k in s.watched
  }

  lemma ClosedListeners<R>(s: Server<R>, r: R)
    requires AccountedFor(s, None) && s.InTable(r)
    ensures SameListeners(s, Closed(s, r))
  {
    assert s.conns[r].sock !in s.listen;
  }

  /** The hand after `r` has left it. */
  function Except<R(==)>(hand: Option<R>, r: R): Option<R> {
    if hand == Some(r) then None else hand
  }

  lemma PlaceOf<R>(s: Server<R>, hand: Option<R>, r: R)
    requires AccountedFor(s, hand) && r in s.conns && (hand == Some(r) || s.InTable(r))
    ensures r !in s.free && s.conns[r].sock >= 0 && s.conns[r].sock in s.open
    ensures s.conns[r].idHashTable in {-1, 1, 2}
    ensures s.InTable(r) ==> s.conns[r].idHashTable != -1 && s.conns[r].sock in s.Table(s.conns[r].idHashTable)
    ensures hand == Some(r) ==> s.conns[r].sock !in s.t1 && s.conns[r].sock !in s.t2
  {
  }

  lemma ClosedFiled<R>(s: Server<R>, hand: Option<R>, r: R)
    requires AccountedFor(s, hand) && r in s.conns && (hand == Some(r) || s.InTable(r))
    ensures Filed(Closed(s, r)) && r !in s.free
    ensures forall q | q in s.conns && q != r :: s.InTable(q) <==> Closed(s, r).InTable(q)
    ensures !Closed(s, r).InTable(r)
  {
    var s1 := Closed(s, r);
    forall q | q in s.conns && q != r ensures s.InTable(q) <==> s1.InTable(q) {
      assert s1.conns[q] == s.conns[q];
    }
  }

  lemma ClosedPooled<R>(s: Server<R>, r: R)
    requires Pooled(s) && r in s.conns && r !in s.free
    ensures Pooled(Closed(s, r))
    ensures forall q :: q in Closed(s, r).free <==> q in s.free || q == r
  {
    var s1 := Closed(s, r);
    forall q ensures q in s1.free <==> q in s.free || q == r {
      assert s1.free[0] == r && s1.free[1..] == s.free;
    }
  }

  lemma ClosedPlaced<R>(s: Server<R>, hand: Option<R>, r: R)
    requires AccountedFor(s, hand) && r in s.conns && (hand == Some(r) || s.InTable(r))
    ensures AccountedFor(Closed(s, r), Except(hand, r))
  {
    ClosedFiled(s, hand, r);
    ClosedPooled(s, r);
    assert hand.Some? && hand.value != r ==> s.conns[hand.value].sock != s.conns[r].sock;
  }

  lemma ClosedHealthy<R>(s: Server<R>, handler: Handler, hand: Option<R>, busy: Option<R>, r: R)
    requires AccountedFor(s, hand) && Healthy(s, handler, busy) && r in s.conns && (hand == Some(r) || s.InTable(r))
    ensures Healthy(Closed(s, r), handler, Except(busy, r))
  {
    var s1 := Closed(s, r);
    ClosedFiled(s, hand, r);
    forall q | q in s1.conns && Except(busy, r) != Some(q) && s1.InTable(q) ensures AtRest(s1, handler, s1.conns[q]) {
      assert s.InTable(q);
      assert AtRest(s, handler, s.conns[q]);
      assert s.conns[q].sock != s.conns[r].sock;
    }
  }

  lemma ClosedAged<R>(s: Server<R>, hand: Option<R>, r: R)
    requires AccountedFor(s, hand) && Aged(s, hand) && r in s.conns && (hand == Some(r) || s.InTable(r))
    ensures Aged(Closed(s, r), Except(hand, r))
  {
    var s1 := Closed(s, r);
    ClosedFiled(s, hand, r);
    forall q | q in s1.conns && (s1.InTable(q) || Except(hand, r) == Some(q)) ensures AgeOk(s1, s1.conns[q]) {
      assert AgeOk(s, s.conns[q]);
    }
  }

  lemma ClosedKeeps<R>(s: Server<R>, handler: Handler, hand: Option<R>, busy: Option<R>, r: R)
    requires Sane(s, handler, hand, busy) && r in s.conns && (hand == Some(r) || s.InTable(r))
    ensures Sane(Closed(s, r), handler, Except(hand, r), Except(busy, r))
  {
    ClosedPlaced(s, hand, r);
    ClosedHealthy(s, handler, hand, busy, r);
    ClosedAged(s, hand, r);
  }

  // ---- one connection at work ----

  /** Nothing changed but the reading and writing of connection `r`. */
  ghost predicate Touched<R>(s: Server<R>, s1: Server<R>, r: R) {
    && r in s.conns && s1.conns.Keys == s.conns.Keys
    && (forall q | q in s.conns && q != r :: s1.conns[q] == s.conns[q])
    && s1.conns[r] == s.conns[r].(state := s1.conns[r].state, fed := s1.conns[r].fed, output := s1.conns[r].output,
                                  txCount := s1.conns[r].txCount, served := s1.conns[r].served)
    && s1 == s.(conns := s1.conns, watched := s1.watched, received := s1.received, sent := s1.sent)
    && s1.watched.Keys == s.watched.Keys
    && forall k | k != s.conns[r].sock ::
         (k in s.watched ==> s1.watched[k] == s.watched[k])
         && (k in s.received ==> k in s1.received && s1.received[k] == s.received[k])
         && (k in s.sent ==> k in s1.sent && s1.sent[k] == s.sent[k])
  }

  lemma TouchedTables<R>(s: Server<R>, s1: Server<R>, r: R)
    requires Touched(s, s1, r)
    ensures forall q | q in s.conns :: s1.InTable(q) <==> s.InTable(q)
  {
    forall q | q in s.conns ensures s1.InTable(q) <==> s.InTable(q) {
      assert s1.conns[q].sock == s.conns[q].sock && s1.conns[q].idHashTable == s.conns[q].idHashTable;
    }
  }

  lemma TouchedPlaced<R>(s: Server<R>, s1: Server<R>, r: R)
    requires Touched(s, s1, r) && AccountedFor(s, None)
    ensures AccountedFor(s1, None)
  {
    TouchedTables(s, s1, r);
    forall q | q in s.conns
      ensures s1.conns[q].sock == s.conns[q].sock && s1.conns[q].idHashTable == s.conns[q].idHashTable {
      if q != r {
        assert s1.conns[q] == s.conns[q];
      }
    }
  }

  lemma TouchedSpares<R>(s: Server<R>, s1: Server<R>, handler: Handler, r: R, q: R)
    requires Touched(s, s1, r) && q in s.conns && q != r
    requires s.conns[q].sock != s.conns[r].sock && AtRest(s, handler, s.conns[q])
    ensures AtRest(s1, handler, s1.conns[q])
  {
  }

  lemma TouchedHealthy<R>(s: Server<R>, s1: Server<R>, handler: Handler, busy: Option<R>, r: R)
    requires Touched(s, s1, r) && Healthy(s, handler, busy) && (busy == None || busy == Some(r)) && s.InTable(r)
    requires Filed(s)
    ensures Healthy(s1, handler, Some(r))
  {
    TouchedTables(s, s1, r);
    forall q | q in s1.conns && q != r && s1.InTable(q) ensures AtRest(s1, handler, s1.conns[q]) {
      TouchedSpares(s, s1, handler, r, q);
    }
  }

  lemma TouchedAged<R>(s: Server<R>, s1: Server<R>, r: R)
    requires Touched(s, s1, r) && Aged(s, None)
    ensures Aged(s1, None)
  {
    TouchedTables(s, s1, r);
    forall q | q in s1.conns && s1.InTable(q) ensures AgeOk(s1, s1.conns[q]) {
      assert AgeOk(s, s.conns[q]);
    }
  }

  /** The streams of the connection at work are still fair. */
  lemma TouchedFair<R>(s: Server<R>, s1: Server<R>, handler: Handler, r: R)
    requires Touched(s, s1, r) && AllFair(handler, s.peers, s.received, s.sent)
    requires var c := s1.conns[r];
             Streams(s1, handler, c)
             && (c.txCount == 0 || (Verdict(c.fed, true) == BodyValidated && handler(c.peer, c.fed) == Some(c.output)))
    ensures AllFair(handler, s1.peers, s1.received, s1.sent)
  {
    var c := s1.conns[r];
    StreamsAreFair(s1, handler, c);
    assert s.peers[c.sock := c.peer] == s.peers;
    FairWith(handler, s.peers, s.received, s.sent, s1.received, s1.sent, c.sock, c.peer);
  }

  lemma TouchedKeeps<R>(s: Server<R>, s1: Server<R>, handler: Handler, busy: Option<R>, r: R)
    requires Touched(s, s1, r) && Sane(s, handler, None, busy) && (busy == None || busy == Some(r)) && s.InTable(r)
    requires AllFair(handler, s1.peers, s1.received, s1.sent)
    ensures Sane(s1, handler, None, Some(r)) && s1.InTable(r)
  {
    TouchedTables(s, s1, r);
    TouchedPlaced(s, s1, r);
    TouchedHealthy(s, s1, handler, busy, r);
    TouchedAged(s, s1, r);
  }

  lemma SettledKeeps<R>(s: Server<R>, handler: Handler, r: R)
    requires Sane(s, handler, None, Some(r)) && r in s.conns && AtRest(s, handler, s.conns[r])
    ensures Sane(s, handler, None, None)
  {
  }

  lemma TouchedTwice<R>(s: Server<R>, s1: Server<R>, s2: Server<R>, r: R)
    requires Touched(s, s1, r) && Touched(s1, s2, r)
    ensures Touched(s, s2, r)
  {
  }

  // ---- writing ----

  /** send() accepted `n` more bytes of the reply. */
  function SentMore<R(==)>(s: Server<R>, r: R, n: nat): Server<R>
    requires r in s.conns && s.conns[r].sock in s.sent && s.conns[r].txCount + n <= |s.conns[r].output|
  {
    var c := s.conns[r];
    s.(conns := s.conns[r := c.(txCount := c.txCount + n)],
    sent := s.sent[c.sock := s.sent[c.sock] + c.output[c.txCount..][..n]])
  }

  lemma SliceMore(done: seq<byte>, output: seq<byte>, i: nat, n: nat)
    requires i + n <= |output|
    ensures done + output[..i] + output[i..][..n] == done + output[..i + n]
  {
    assert output[..i] + output[i..][..n] == output[..i + n];
  }

  lemma SentMoreStreams<R>(s: Server<R>, handler: Handler, r: R, n: nat)
    requires r in s.conns && Streams(s, handler, s.conns[r]) && s.conns[r].txCount + n <= |s.conns[r].output|
    ensures var s1 := SentMore(s, r, n); Touched(s, s1, r) && Streams(s1, handler, s1.conns[r])
  {
    var c := s.conns[r];
    SliceMore(Replies(handler, c.peer, c.served), c.output, c.txCount, n);
  }

  lemma SentMoreKeeps<R>(s: Server<R>, handler: Handler, r: R, n: nat)
    requires Sane(s, handler, None, None) && s.InTable(r) && s.conns[r].state == Transmitting
    requires 0 < n <= |s.conns[r].output| - s.conns[r].txCount && s.conns[r].sock in s.sent
    ensures var s1 := SentMore(s, r, n);
            && Touched(s, s1, r) && s1.InTable(r) && Replied(s1, handler, r) && Sane(s1, handler, None, Some(r))
            && (s1.conns[r].txCount < |s1.conns[r].output| ==> Sane(s1, handler, None, None))
  {
    var s1 := SentMore(s, r, n);
    assert AtRest(s, handler, s.conns[r]);
    SentMoreStreams(s, handler, r, n);
    TouchedFair(s, s1, handler, r);
    TouchedKeeps(s, s1, handler, None, r);
    if s1.conns[r].txCount < |s1.conns[r].output| {
      SettledKeeps(s1, handler, r);
    }
  }

  /** A connection at rest is one that work on it may leave. */
  lemma RestingReads<R>(s: Server<R>, handler: Handler, r: R)
    requires Sane(s, handler, None, None) && s.InTable(r)
    ensures Sane(s, handler, None, Some(r)) && Reads(s, handler, s.conns[r]) && Touched(s, s, r)
  {
    assert AtRest(s, handler, s.conns[r]);
  }

  /** What the writer relies on. */
  lemma ReadyToSend<R>(s: Server<R>, handler: Handler, r: R)
    requires Sane(s, handler, None, None) && s.InTable(r) && s.conns[r].state == Transmitting
    ensures r !in s.free && s.conns[r].sock in s.sent && s.conns[r].txCount < |s.conns[r].output|
  {
    PlaceOf(s, None, r);
    assert AtRest(s, handler, s.conns[r]);
  }

  /** The message that is answered joins those served. */
  lemma RestartedReads<R>(s: Server<R>, handler: Handler, c: Conn)
    requires Reads(s, handler, c) && Verdict(c.fed, true) == BodyValidated && handler(c.peer, c.fed).Some?
    ensures Reads(s, handler, c.(fed := [], state := Receiving, txCount := 0, served := c.served + [c.fed]))
  {
    ServedSnoc(handler, c.peer, c.served, c.fed);
    assert Flatten(c.served + [c.fed]) + [] == Flatten(c.served + [c.fed]);
  }

  lemma RestartedUnwatchedKeeps<R>(s: Server<R>, handler: Handler, r: R)
    requires Sane(s, handler, None, Some(r)) && s.InTable(r) && Replied(s, handler, r)
    ensures var s1 := s.(conns := Restarted(s, r).conns);
            && Touched(s, s1, r) && s1.InTable(r) && Sane(s1, handler, None, Some(r))
            && Reads(s1, handler, s1.conns[r])
  {
    RestartedReads(s, handler, s.conns[r]);
    TouchedKeeps(s, s.(conns := Restarted(s, r).conns), handler, Some(r), r);
  }

  /** A complete message with its reply, some of it sent. */
  ghost predicate Replied<R>(s: Server<R>, handler: Handler, r: R) {
    r in s.conns && var c := s.conns[r];
    && Streams(s, handler, c) && c.sock in s.watched
    && Verdict(c.fed, true) == BodyValidated && handler(c.peer, c.fed) == Some(c.output)
  }

  /** ResetConnection and the return to reading, after a whole reply. */
  function Restarted<R(==)>(s: Server<R>, r: R): Server<R>
    requires r in s.conns
  {
    var c := s.conns[r];
    s.(conns := s.conns[r := c.(fed := [], state := Receiving, txCount := 0, served := c.served + [c.fed])],
    watched := s.watched[c.sock := EPOLL_CLIENT_READ_EVENT_SET])
  }

  lemma RestartedKeeps<R>(s: Server<R>, handler: Handler, r: R)
    requires Sane(s, handler, None, Some(r)) && s.InTable(r) && Replied(s, handler, r)
    requires s.conns[r].txCount == |s.conns[r].output|
    ensures Touched(s, Restarted(s, r), r) && Sane(Restarted(s, r), handler, None, None) && Restarted(s, r).InTable(r)
  {
    var c, s1 := s.conns[r], Restarted(s, r);
    ServedSnoc(handler, c.peer, c.served, c.fed);
    assert c.output[..|c.output|] == c.output;
    TouchedKeeps(s, s1, handler, Some(r), r);
    SettledKeeps(s1, handler, r);
  }

  // ---- reading ----

  /** recv() delivered more bytes, and the reader took them. */
  function ReceivedMore<R(==)>(s: Server<R>, r: R, data: seq<byte>): Server<R>
    requires r in s.conns && s.conns[r].sock in s.received
  {
    var c := s.conns[r];
    s.(conns := s.conns[r := c.(fed := c.fed + data)], received := s.received[c.sock := s.received[c.sock] + data])
  }

  /** What the reading loop relies on. */
  lemma ReadyToReceive<R>(s: Server<R>, handler: Handler, r: R)
    requires Sane(s, handler, None, None) && s.InTable(r) && s.conns[r].state == Receiving
    ensures r !in s.free && s.conns[r].sock in s.received && s.conns[r].sock in s.watched
    ensures Unfinished(s.conns[r].fed) && Needed(s.conns[r].fed, true) > 0
  {
    PlaceOf(s, None, r);
    assert AtRest(s, handler, s.conns[r]);
  }

  /** A connection that has read up to `fed`, with nothing being sent. */
  ghost predicate Listening<R>(s: Server<R>, handler: Handler, r: R) {
    r in s.conns && var c := s.conns[r];
    && Streams(s, handler, c) && c.sock in s.watched && c.txCount == 0 && c.state == Receiving
  }

  lemma ReceivedMoreStreams<R>(s: Server<R>, handler: Handler, r: R, data: seq<byte>)
    requires r in s.conns && Streams(s, handler, s.conns[r])
    ensures var s1 := ReceivedMore(s, r, data); Touched(s, s1, r) && Streams(s1, handler, s1.conns[r])
  {
    var c := s.conns[r];
    assert Flatten(c.served) + c.fed + data == Flatten(c.served) + (c.fed + data);
  }

  lemma ReceivedMoreKeeps<R>(s: Server<R>, handler: Handler, r: R, data: seq<byte>)
    requires Sane(s, handler, None, None) && s.InTable(r) && s.conns[r].state == Receiving
    requires s.conns[r].sock in s.received
    ensures var s1 := ReceivedMore(s, r, data);
            && Touched(s, s1, r) && s1.InTable(r) && Listening(s1, handler, r) && Sane(s1, handler, None, Some(r))
            && (Unfinished(s1.conns[r].fed) ==> Sane(s1, handler, None, None))
  {
    var s1 := ReceivedMore(s, r, data);
    assert AtRest(s, handler, s.conns[r]);
    ReceivedMoreStreams(s, handler, r, data);
    TouchedFair(s, s1, handler, r);
    TouchedKeeps(s, s1, handler, None, r);
    if Unfinished(s1.conns[r].fed) {
      SettledKeeps(s1, handler, r);
    }
  }

  /** How much reading can still happen before a message is complete: header bytes first, then body bytes. */
  function Stage(fed: seq<byte>): nat {
    if Verdict(fed, true) == HeaderNotRead then 1 else 0
  }

  /** Never asking for more than is needed, the reader comes to the end of its message. */
  lemma ReadingAdvances(fed: seq<byte>, data: seq<byte>)
    requires Unfinished(fed) && Unfinished(fed + data) && 0 < |data| <= Needed(fed, true)
    ensures Stage(fed + data) < Stage(fed)
            || (Stage(fed + data) == Stage(fed) && Needed(fed + data, true) < Needed(fed, true))
  {
    if |fed| >= STUN_HEADER_SIZE {
      HeaderStable(fed, data, true);
    }
  }

  /** The reply is ready to be sent. */
  function Answering<R(==)>(s: Server<R>, r: R, reply: seq<byte>): Server<R>
    requires r in s.conns
  {
    var c := s.conns[r];
    s.(conns := s.conns[r := c.(state := Transmitting, output := reply)],
    watched := s.watched[c.sock := EPOLL_CLIENT_WRITE_EVENT_SET])
  }

  lemma AnsweringKeeps<R>(s: Server<R>, handler: Handler, r: R, reply: seq<byte>)
    requires Sane(s, handler, None, Some(r)) && s.InTable(r) && Listening(s, handler, r)
    requires Verdict(s.conns[r].fed, true) == BodyValidated
    requires handler(s.conns[r].peer, s.conns[r].fed) == Some(reply) && reply != []
    ensures var s1 := Answering(s, r, reply);
            Touched(s, s1, r) && s1.InTable(r) && Sane(s1, handler, None, None)
  {
    var s1 := Answering(s, r, reply);
    assert reply[..0] == s.conns[r].output[..0];
    TouchedKeeps(s, s1, handler, Some(r), r);
    SettledKeeps(s1, handler, r);
  }

  lemma AnsweringUnwatchedKeeps<R>(s: Server<R>, handler: Handler, r: R, reply: seq<byte>)
    requires Sane(s, handler, None, Some(r)) && s.InTable(r)
    ensures var s1 := s.(conns := Answering(s, r, reply).conns);
            Touched(s, s1, r) && s1.InTable(r) && Sane(s1, handler, None, Some(r))
  {
    TouchedKeeps(s, s.(conns := Answering(s, r, reply).conns), handler, Some(r), r);
  }

  // ---- accepting ----

  const NEW_CONNECTION: Conn := Conn(-1, NO_PEER, Idle, [], [], 0, -1, 0, [], 0)

  /** Grow: new closed connections on top of the free list. */
  function Grown<R(==)>(s: Server<R>, r: R): Server<R> {
    s.(conns := s.conns[r := NEW_CONNECTION], free := [r] + s.free)
  }

  lemma GrownPooled<R>(s: Server<R>, r: R)
    requires Pooled(s) && r !in s.conns
    ensures Pooled(Grown(s, r))
    ensures forall q :: q in Grown(s, r).free <==> q in s.free || q == r
  {
    var s1 := Grown(s, r);
    forall q ensures q in s1.free <==> q in s.free || q == r {
      assert s1.free[0] == r && s1.free[1..] == s.free;
    }
  }

  lemma GrownPlaced<R>(s: Server<R>, r: R)
    requires AccountedFor(s, None) && r !in s.conns
    ensures AccountedFor(Grown(s, r), None)
    ensures forall q | q in s.conns :: Grown(s, r).InTable(q) <==> s.InTable(q)
    ensures !Grown(s, r).InTable(r)
  {
    var s1 := Grown(s, r);
    GrownPooled(s, r);
    forall q | q in s.conns ensures s1.InTable(q) <==> s.InTable(q) {
      assert s1.conns[q] == s.conns[q];
    }
  }

  lemma GrownKeeps<R>(s: Server<R>, handler: Handler, r: R)
    requires Sane(s, handler, None, None) && r !in s.conns
    ensures Sane(Grown(s, r), handler, None, None)
  {
    var s1 := Grown(s, r);
    GrownPlaced(s, r);
    forall q | q in s1.conns && s1.InTable(q) ensures AtRest(s1, handler, s1.conns[q]) && AgeOk(s1, s1.conns[q]) {
      assert AtRest(s, handler, s.conns[q]) && AgeOk(s, s.conns[q]);
    }
  }

  function GrownAll<R(==)>(s: Server<R>, rs: seq<R>): Server<R> {
    if rs == [] then s else Grown(GrownAll(s, rs[1..]), rs[0])
  }

  lemma OneMore<R>(conns: map<R, Conn>, r: R, rs: seq<R>)
    ensures (conns + (map q | q in rs :: NEW_CONNECTION))[r := NEW_CONNECTION]
            == conns + (map q | q in [r] + rs :: NEW_CONNECTION)
  {
  }

  lemma {:induction false} GrownAllIs<R>(s: Server<R>, rs: seq<R>)
    ensures GrownAll(s, rs) == s.(conns := s.conns + (map r | r in rs :: NEW_CONNECTION), free := rs + s.free)
  {
    if rs == [] {
      assert s.conns + (map r | r in rs :: NEW_CONNECTION) == s.conns;
      assert rs + s.free == s.free;
    } else {
      GrownAllIs(s, rs[1..]);
      assert rs == [rs[0]] + rs[1..];
      assert [rs[0]] + (rs[1..] + s.free) == rs + s.free;
      OneMore(s.conns, rs[0], rs[1..]);
    }
  }

  lemma {:induction false} GrownAllKeeps<R>(s: Server<R>, handler: Handler, rs: seq<R>)
    requires Sane(s, handler, None, None) && NoRepeats(rs) && forall r | r in rs :: r !in s.conns
    ensures Sane(GrownAll(s, rs), handler, None, None)
  {
    if rs != [] {
      GrownAllKeeps(s, handler, rs[1..]);
      GrownAllIs(s, rs[1..]);
      assert rs[0] !in rs[1..];
      GrownKeeps(GrownAll(s, rs[1..]), handler, rs[0]);
    }
  }

  /** A descriptor that accept() returned, before it has a connection: its streams are empty. */
  function Accepted<R>(s: Server<R>, sock: int): Server<R> {
    s.(received := s.received[sock := []], sent := s.sent[sock := []])
  }

  lemma AcceptedKeeps<R>(s: Server<R>, handler: Handler, sock: int)
    requires Sane(s, handler, None, None) && sock !in s.open
    ensures Sane(Accepted(s, sock), handler, None, None)
  {
    var s1 := Accepted(s, sock);
    assert AccountedFor(s1, None);
    FreshIsFair(handler, s.peers, s.received, s.sent, sock, NO_PEER);
    forall q | q in s1.conns && s1.InTable(q) ensures AtRest(s1, handler, s1.conns[q]) && AgeOk(s1, s1.conns[q]) {
      assert s.InTable(q) && AtRest(s, handler, s.conns[q]) && AgeOk(s, s.conns[q]);
      PlaceOf(s, None, q);
    }
  }

  /** GetConnection, on a descriptor fresh from accept(). */
  function Taken<R(==)>(s: Server<R>, sock: int, peer: Peer, time: nat): Server<R>
    requires s.free != [] && s.free[0] in s.conns
  {
    var r := s.free[0];
    s.(conns := s.conns[r := Conn(sock, peer, Receiving, [], s.conns[r].output, 0, -1, time, [], s.sweeps)],
    free := s.free[1..], open := s.open + {sock}, received := s.received[sock := []], sent := s.sent[sock := []],
    peers := s.peers[sock := peer], clock := time)
  }

  /** The streams of the descriptor are already empty. */
  lemma TakenAgain<R>(s: Server<R>, sock: int, peer: Peer, time: nat)
    requires s.free != [] && s.free[0] in s.conns
    requires sock in s.received && s.received[sock] == [] && sock in s.sent && s.sent[sock] == []
    ensures var r := s.free[0];
            Taken(s, sock, peer, time)
            == s.(conns := s.conns[r := Conn(sock, peer, Receiving, [], s.conns[r].output, 0, -1, time, [], s.sweeps)],
                  free := s.free[1..], open := s.open + {sock}, peers := s.peers[sock := peer], clock := time)
  {
    assert s.received[sock := []] == s.received && s.sent[sock := []] == s.sent;
  }

  lemma TakenPooled<R>(s: Server<R>, sock: int, peer: Peer, time: nat)
    requires Pooled(s) && s.free != []
    ensures Pooled(Taken(s, sock, peer, time))
    ensures forall q :: q in Taken(s, sock, peer, time).free <==> q in s.free && q != s.free[0]
  {
    var r, rest := s.free[0], s.free[1..];
    assert r in s.free && s.free == [r] + rest;
    forall q ensures q in rest <==> q in s.free && q != r {
      if q in rest {
        var i :| 0 <= i < |rest| && rest[i] == q;
        assert s.free[i + 1] == q;
      }
    }
  }

  lemma TakenTables<R>(s: Server<R>, sock: int, peer: Peer, time: nat)
    requires AccountedFor(s, None) && s.free != []
    ensures s.free[0] in s.conns
    ensures forall q | q in s.conns :: s.InTable(q) <==> Taken(s, sock, peer, time).InTable(q)
    ensures forall q | q in s.conns && s.InTable(q) :: q != s.free[0]
  {
    var r := s.free[0];
    assert r in s.free;
    var s1 := Taken(s, sock, peer, time);
    assert s.conns[r].sock == -1 && !s.InTable(r) && !s1.InTable(r);
    forall q | q in s.conns ensures s.InTable(q) <==> s1.InTable(q) {
      if q != r {
        assert s1.conns[q] == s.conns[q];
      }
    }
  }

  lemma TakenPlaced<R>(s: Server<R>, sock: int, peer: Peer, time: nat)
    requires AccountedFor(s, None) && s.free != [] && sock >= 0 && sock !in s.open
    ensures s.free[0] in s.conns && AccountedFor(Taken(s, sock, peer, time), Some(s.free[0]))
  {
    TakenTables(s, sock, peer, time);
    TakenPooled(s, sock, peer, time);
  }

  lemma TakenKeeps<R>(s: Server<R>, handler: Handler, sock: int, peer: Peer, time: nat)
    requires Sane(s, handler, None, None) && s.free != [] && sock >= 0 && sock !in s.open && s.clock <= time
    ensures s.free[0] in s.conns && Sane(Taken(s, sock, peer, time), handler, Some(s.free[0]), None)
  {
    TakenTables(s, sock, peer, time);
    var s1 := Taken(s, sock, peer, time);
    TakenPlaced(s, sock, peer, time);
    FreshIsFair(handler, s.peers, s.received, s.sent, sock, peer);
    forall q | q in s1.conns && s1.InTable(q) ensures AtRest(s1, handler, s1.conns[q]) && AgeOk(s1, s1.conns[q]) {
      assert AtRest(s, handler, s.conns[q]) && AgeOk(s, s.conns[q]);
      assert s.conns[q].sock != sock;
    }
  }

  /** Watching the descriptor in hand. */
  function WatchedToo<R>(s: Server<R>, sock: int): Server<R> {
    s.(watched := s.watched[sock := EPOLL_CLIENT_READ_EVENT_SET])
  }

  lemma WatchedKeeps<R>(s: Server<R>, handler: Handler, r: R)
    requires Sane(s, handler, Some(r), None)
    ensures Sane(WatchedToo(s, s.conns[r].sock), handler, Some(r), None)
  {
    var s1 := WatchedToo(s, s.conns[r].sock);
    forall q | q in s.conns ensures s1.InTable(q) <==> s.InTable(q) {
    }
    forall q | q in s1.conns && s1.InTable(q) ensures AtRest(s1, handler, s1.conns[q]) {
      assert AtRest(s, handler, s.conns[q]);
    }
    forall q | q in s1.conns && (s1.InTable(q) || q == r) ensures AgeOk(s1, s1.conns[q]) {
      assert AgeOk(s, s.conns[q]);
    }
  }

  /** A connection fresh from the pool and watched is at rest. */
  lemma TakenRests<R>(s: Server<R>, handler: Handler, sock: int, peer: Peer, time: nat)
    requires s.free != [] && s.free[0] in s.conns
    ensures var s1 := WatchedToo(Taken(s, sock, peer, time), sock); AtRest(s1, handler, s1.conns[s.free[0]])
  {
    assert s.conns[s.free[0]].output[..0] == [];
  }

  /** The connection in hand is told which table it goes to. */
  function Marked<R(==)>(s: Server<R>, r: R): Server<R>
    requires r in s.conns
  {
    s.(conns := s.conns[r := s.conns[r].(idHashTable := if s.newIs1 then 1 else 2)])
  }

  lemma MarkedPlaced<R>(s: Server<R>, r: R)
    requires AccountedFor(s, Some(r))
    ensures AccountedFor(Marked(s, r), Some(r)) && !s.InTable(r) && !Marked(s, r).InTable(r)
    ensures forall q | q in s.conns :: s.InTable(q) <==> Marked(s, r).InTable(q)
  {
    var s1 := Marked(s, r);
    forall q | q in s.conns ensures s1.InTable(q) <==> s.InTable(q) {
      if q != r {
        assert s1.conns[q] == s.conns[q];
      }
    }
  }

  lemma MarkedKeeps<R>(s: Server<R>, handler: Handler, r: R)
    requires Sane(s, handler, Some(r), None) && s.conns[r].idHashTable == -1
    ensures Sane(Marked(s, r), handler, Some(r), None)
  {
    var s1 := Marked(s, r);
    MarkedPlaced(s, r);
    forall q | q in s1.conns && s1.InTable(q) ensures AtRest(s1, handler, s1.conns[q]) {
      assert AtRest(s, handler, s.conns[q]);
    }
    forall q | q in s1.conns && (s1.InTable(q) || q == r) ensures AgeOk(s1, s1.conns[q]) {
      assert AgeOk(s, s.conns[q]);
    }
  }

  /** It goes into the new table. */
  function PutAway<R(==)>(s: Server<R>, r: R): Server<R>
    requires r in s.conns
  {
    var c := s.conns[r];
    s.(conns := Marked(s, r).conns,
    t1 := if s.newIs1 then s.t1[c.sock := r] else s.t1,
    t2 := if s.newIs1 then s.t2 else s.t2[c.sock := r])
  }

  lemma HandIsUnfiled<R>(s: Server<R>, r: R)
    requires AccountedFor(s, Some(r))
    ensures s.conns[r].sock !in s.t1 && s.conns[r].sock !in s.t2 && r !in s.free
  {
  }

  lemma PutAwayPlaced<R>(s: Server<R>, r: R)
    requires AccountedFor(s, Some(r)) && r !in s.free
    ensures AccountedFor(PutAway(s, r), None) && PutAway(s, r).InTable(r)
    ensures forall q | q in s.conns && q != r :: s.InTable(q) <==> PutAway(s, r).InTable(q)
  {
    var s1 := PutAway(s, r);
    forall q | q in s.conns && q != r ensures s.InTable(q) <==> s1.InTable(q) {
      assert s1.conns[q] == s.conns[q];
    }
  }

  lemma PutAwayKeeps<R>(s: Server<R>, handler: Handler, r: R)
    requires Sane(s, handler, Some(r), None) && r !in s.free && AtRest(s, handler, s.conns[r])
    requires s.conns[r].idHashTable == -1
    ensures Sane(PutAway(s, r), handler, None, None)
  {
    var s1 := PutAway(s, r);
    PutAwayPlaced(s, r);
    forall q | q in s1.conns && s1.InTable(q) ensures AtRest(s1, handler, s1.conns[q]) && AgeOk(s1, s1.conns[q]) {
      assert AtRest(s, handler, s.conns[q]) && AgeOk(s, s.conns[q]);
    }
  }

  /** All ends of accepting a connection are sane: filed, closed because it could not be watched, or closed because the
      table was full. */
  lemma AcceptanceKeeps<R>(s: Server<R>, handler: Handler, sock: int, peer: Peer, time: nat)
    requires Sane(s, handler, None, None) && s.free != [] && sock >= 0 && sock !in s.open && s.clock <= time
    ensures var r := s.free[0];
            && r in s.conns
            && var s1 := Taken(s, sock, peer, time); var s2 := WatchedToo(s1, sock);
               && sock !in s1.t1 && sock !in s1.t2 && r !in s1.free
               && Sane(PutAway(s2, r), handler, None, None) && PutAway(s2, r).InTable(r)
               && Sane(Closed(s1, r), handler, None, None) && Sane(Closed(Marked(s2, r), r), handler, None, None)
  {
    TakenKeeps(s, handler, sock, peer, time);
    var r, s1 := s.free[0], Taken(s, sock, peer, time);
    HandIsUnfiled(s1, r);
    WatchedKeeps(s1, handler, r);
    TakenRests(s, handler, sock, peer, time);
    PutAwayKeeps(WatchedToo(s1, sock), handler, r);
    PutAwayPlaced(WatchedToo(s1, sock), r);
    MarkedKeeps(WatchedToo(s1, sock), handler, r);
    ClosedKeeps(Marked(WatchedToo(s1, sock), r), handler, Some(r), None, r);
    ClosedKeeps(s1, handler, Some(r), None, r);
  }

  /** `s0` is `base` with a larger pool and empty streams for `sock`. */
  ghost predicate FromBase<R>(base: Server<R>, s0: Server<R>, handler: Handler, sock: int) {
    && Sane(s0, handler, None, None) && sock !in s0.open
    && s0 == base.(conns := s0.conns, free := s0.free, received := base.received[sock := []],
                   sent := base.sent[sock := []])
    && forall r | r in base.conns :: r in s0.conns && s0.conns[r] == base.conns[r]
  }

  /** What accepting may do: the connections in the tables stay as they are, and at most one is added, to the new table
      and reading. */
  ghost predicate Admission<R>(base: Server<R>, s: Server<R>, added: Option<R>, sock: int) {
    && (forall r | r in base.conns && base.InTable(r) :: r in s.conns && s.conns[r] == base.conns[r])
    && s.Old() == base.Old() && s.newIs1 == base.newIs1 && SameListeners(base, s)
    && match added
       case None => s.New() == base.New()
       case Some(r) =>
         s.New() == base.New()[sock := r] && sock !in base.New() && s.InTable(r) && s.conns[r].state == Receiving
  }

  lemma NothingAdmitted<R>(s: Server<R>, sock: int)
    ensures Admission(s, s, None, sock)
  {
  }

  lemma RefusalKeeps<R>(base: Server<R>, handler: Handler, sock: int)
    requires Sane(base, handler, None, None) && sock !in base.open
    ensures Sane(Accepted(base, sock), handler, None, None) && Admission(base, Accepted(base, sock), None, sock)
  {
    AcceptedKeeps(base, handler, sock);
  }

  lemma SparedByPool<R>(base: Server<R>, s0: Server<R>, handler: Handler, sock: int)
    requires FromBase(base, s0, handler, sock) && s0.free != []
    ensures s0.free[0] in s0.conns && s0.conns[s0.free[0]].sock == -1
    ensures forall q | q in base.conns && base.InTable(q) :: q != s0.free[0] && s0.conns[q] == base.conns[q]
  {
    assert s0.free[0] in s0.free;
    forall q | q in base.conns && base.InTable(q) ensures q != s0.free[0] {
      PlaceOf(s0, None, q);
    }
  }

  lemma PutAwayAdmits<R>(base: Server<R>, s0: Server<R>, handler: Handler, sock: int, peer: Peer, time: nat)
    requires FromBase(base, s0, handler, sock) && s0.free != [] && s0.free[0] in s0.conns
    ensures var r := s0.free[0];
            Admission(base, PutAway(WatchedToo(Taken(s0, sock, peer, time), sock), r), Some(r), sock)
  {
    SparedByPool(base, s0, handler, sock);
    assert sock !in s0.listen && sock !in s0.t1 && sock !in s0.t2;
  }

  lemma OverflowAdmits<R>(base: Server<R>, s0: Server<R>, handler: Handler, sock: int, peer: Peer, time: nat)
    requires FromBase(base, s0, handler, sock) && s0.free != [] && s0.free[0] in s0.conns
    ensures var r := s0.free[0];
            Admission(base, Closed(Marked(WatchedToo(Taken(s0, sock, peer, time), sock), r), r), None, sock)
  {
    SparedByPool(base, s0, handler, sock);
    assert sock !in s0.listen && sock !in s0.t1 && sock !in s0.t2;
    ClosedAgain(base, Marked(WatchedToo(Taken(s0, sock, peer, time), sock), s0.free[0]), s0.free[0], sock);
  }

  /** Closing a connection that is in neither table leaves the tables and the connections in them as they are. */
  lemma ClosedAgain<R>(base: Server<R>, s: Server<R>, r: R, sock: int)
    requires r in s.conns && s.conns[r].sock == sock && sock !in base.t1 && sock !in base.t2 && sock !in base.listen
    requires s.t1 == base.t1 && s.t2 == base.t2 && s.newIs1 == base.newIs1 && s.listen == base.listen
    requires forall q | q in base.conns && base.InTable(q) :: q != r && q in s.conns && s.conns[q] == base.conns[q]
    requires forall k | k in base.listen :: k in s.watched <==> k in base.watched
    ensures Admission(base, Closed(s, r), None, sock)
  {
    assert Without(s.t1, sock) == s.t1 && Without(s.t2, sock) == s.t2;
  }

  lemma ClosedAdmits<R>(base: Server<R>, s0: Server<R>, handler: Handler, sock: int, peer: Peer, time: nat)
    requires FromBase(base, s0, handler, sock) && s0.free != [] && s0.free[0] in s0.conns
    ensures Admission(base, Closed(Taken(s0, sock, peer, time), s0.free[0]), None, sock)
  {
    SparedByPool(base, s0, handler, sock);
    assert sock !in s0.listen;
  }

  lemma TakenIsUnfiled<R>(base: Server<R>, s0: Server<R>, handler: Handler, sock: int, peer: Peer, time: nat)
    requires FromBase(base, s0, handler, sock) && s0.free != [] && sock >= 0 && s0.clock <= time
    ensures var r := s0.free[0];
            && r in s0.conns
            && var s1 := Taken(s0, sock, peer, time);
               && s1.conns[r].sock == sock && s1.conns[r].peer == peer && s1.conns[r].idHashTable == -1
               && r !in s1.free && sock !in s1.t1 && sock !in s1.t2
  {
    AcceptanceKeeps(s0, handler, sock, peer, time);
  }

  /** How registering an accepted connection ends: filed, closed at once, or closed after it was told a full table. */
  function Registration<R>(s1: Server<R>, r: R, sock: int, ok: bool, verified: bool): Server<R>
    requires r in s1.conns
  {
    if ok then PutAway(WatchedToo(s1, sock), r)
    else if verified then Closed(s1, r)
    else Closed(Marked(WatchedToo(s1, sock), r), r)
  }

  /** However accepting ends, the result is sane and nothing else has changed. */
  lemma AdmissionKeeps<R>(base: Server<R>, s0: Server<R>, handler: Handler, sock: int, peer: Peer, time: nat,
                          ok: bool, verified: bool)
    requires FromBase(base, s0, handler, sock) && s0.free != [] && sock >= 0 && s0.clock <= time
    ensures var r := s0.free[0];
            && r in s0.conns
            && var s := Registration(Taken(s0, sock, peer, time), r, sock, ok, verified);
               Sane(s, handler, None, None) && Admission(base, s, if ok then Some(r) else None, sock)
  {
    AcceptanceKeeps(s0, handler, sock, peer, time);
    if ok {
      PutAwayAdmits(base, s0, handler, sock, peer, time);
    } else if verified {
      ClosedAdmits(base, s0, handler, sock, peer, time);
    } else {
      OverflowAdmits(base, s0, handler, sock, peer, time);
    }
  }

  // ---- time and sweeps ----

  lemma ClockKeeps<R>(s: Server<R>, handler: Handler, hand: Option<R>, busy: Option<R>, time: nat)
    requires Sane(s, handler, hand, busy) && s.clock <= time
    ensures Sane(s.(clock := time), handler, hand, busy)
  {
    var s1 := s.(clock := time);
    forall q | q in s.conns ensures s1.InTable(q) <==> s.InTable(q) {
    }
    forall q | q in s1.conns && (s1.InTable(q) || hand == Some(q)) ensures AgeOk(s1, s1.conns[q]) {
      assert AgeOk(s, s.conns[q]);
    }
    forall q | q in s1.conns && busy != Some(q) && s1.InTable(q) ensures AtRest(s1, handler, s1.conns[q]) {
      assert AtRest(s, handler, s.conns[q]);
    }
  }

  /** The end of a sweep: the empty old table becomes the new one. */
  function Swapped<R>(s: Server<R>, time: nat): Server<R> {
    s.(newIs1 := !s.newIs1, lastSweep := time, clock := time, sweeps := s.sweeps + 1)
  }

  lemma AllAreNew<R>(s: Server<R>, r: R)
    requires s.Old() == map[] && s.InTable(r)
    ensures (s.conns[r].idHashTable == 1) == s.newIs1
  {
    assert s.conns[r].sock !in s.Old();
  }

  lemma SwappedKeeps<R>(s: Server<R>, handler: Handler, time: nat)
    requires Sane(s, handler, None, None) && s.Old() == map[] && s.clock <= time
    ensures Sane(Swapped(s, time), handler, None, None)
  {
    var s1 := Swapped(s, time);
    assert s1.conns == s.conns && s1.t1 == s.t1 && s1.t2 == s.t2;
    assert AccountedFor(s1, None);
    forall q | q in s1.conns && s1.InTable(q) ensures AtRest(s1, handler, s1.conns[q]) && AgeOk(s1, s1.conns[q]) {
      assert s.InTable(q);
      AllAreNew(s, q);
      assert AtRest(s, handler, s.conns[q]) && AgeOk(s, s.conns[q]);
    }
  }

  // ---- what the invariant means ----

  /** Every connection in the old table was accepted at least 60 seconds before `now`. */
  ghost predicate OldFor60Seconds<R>(s: Server<R>, now: nat) {
    forall k | k in s.Old() ::
      s.Old()[k] in s.conns && s.conns[s.Old()[k]].timeStart + SWEEP_TIMEOUT_SECONDS <= now
  }

  /** A sweep, which is due only 60 seconds after the last one, closes no connection younger than 60 seconds. */
  lemma OldAreDue<R>(s: Server<R>, handler: Handler)
    requires Sane(s, handler, None, None)
    ensures forall now: nat | now >= s.lastSweep + SWEEP_TIMEOUT_SECONDS :: OldFor60Seconds(s, now)
  {
    forall k | k in s.Old() ensures s.Old()[k] in s.conns && s.conns[s.Old()[k]].timeStart <= s.lastSweep {
      var r := s.Old()[k];
      assert Tabled(s, k, r, if s.newIs1 then 2 else 1);
      assert AgeOk(s, s.conns[r]);
    }
  }

  /** A connection that is still open has seen at most one sweep: the second one after its acceptance closes it. */
  lemma SecondSweepCloses<R>(s: Server<R>, handler: Handler, r: R)
    requires Sane(s, handler, None, None) && r in s.conns && s.conns[r].sock != -1
    ensures s.sweeps <= s.conns[r].born + 1
    ensures s.conns[r].sock in s.Old() <==> s.sweeps == s.conns[r].born + 1
  {
    assert AgeOk(s, s.conns[r]);
  }

  /** A sweep closes every connection of the old table, whatever it is doing: reading, in the middle of a reply, or
      active a moment ago. `s` is the state before it, `s1` after it. */
  lemma SweepIgnoresActivity<R>(s: Server<R>, s1: Server<R>, r: R)
    requires AccountedFor(s, None) && AccountedFor(s1, None) && s1.New() == map[] && s1.Old() == s.New()
    requires s.InTable(r) && s.conns[r].sock in s.Old() && r in s1.conns
    ensures r in s1.free && s1.conns[r].sock == -1
  {
    assert forall k | k in s.New() :: Tabled(s, k, s.New()[k], if s.newIs1 then 1 else 2);
  }

  /** The complete messages among the bytes a connection has received. */
  function Messages(c: Conn): seq<seq<byte>> {
    if c.state == Transmitting then c.served + [c.fed] else c.served
  }

  /** Every byte sent on a connection is, in order, a byte of the handler's replies to the complete messages received on
      it, and while the connection waits for input all replies have gone out whole. */
  lemma SentAreReplies<R>(s: Server<R>, handler: Handler, r: R)
    requires Sane(s, handler, None, None) && s.InTable(r)
    ensures var c := s.conns[r];
            && c.sock in s.sent && c.sock in s.received
            && s.sent[c.sock] <= Replies(handler, c.peer, Messages(c))
            && Flatten(Messages(c)) <= s.received[c.sock]
            && (forall m | m in Messages(c) :: Verdict(m, true) == BodyValidated)
            && (c.state == Receiving ==> s.sent[c.sock] == Replies(handler, c.peer, Messages(c)))
  {
    var c := s.conns[r];
    assert AtRest(s, handler, c);
    if c.state == Transmitting {
      ServedSnoc(handler, c.peer, c.served, c.fed);
      assert c.output[..c.txCount] <= c.output;
    }
  }

  // ---- the start ----

  lemma EmptyIsSane<R>(s: Server<R>, handler: Handler)
    requires s.conns == map[] && s.free == [] && s.t1 == map[] && s.t2 == map[] && s.peers == map[]
    requires s.watched.Keys <= s.open == s.listen && s.lastSweep <= s.clock
    ensures Sane(s, handler, None, None)
  {
  }

  /** Closing one of a table's connections leaves the others in it, and the other table alone. */
  lemma ClosedInTable<R>(s: Server<R>, id: int, r: R)
    requires AccountedFor(s, None) && s.InTable(r) && (id == 1 || id == 2) && s.conns[r].idHashTable == id
    ensures Closed(s, r).Table(id) == Without(s.Table(id), s.conns[r].sock)
    ensures Closed(s, r).Table(3 - id) == s.Table(3 - id)
  {
  }

  // ---- the loop of the thread ----

  lemma WorkListeners<R>(s: Server<R>, work: Server<R>, r: R)
    requires AccountedFor(s, None) && s.InTable(r) && Touched(s, work, r)
    ensures SameListeners(s, work) && SameListeners(s, Closed(work, r))
  {
    assert s.conns[r].sock !in s.listen;
  }

  lemma ListenAccounted<R>(s: Server<R>, w: map<int, bv32>)
    requires AccountedFor(s, None) && w.Keys <= s.watched.Keys + s.listen
    ensures AccountedFor(s.(watched := w), None)
    ensures forall q | q in s.conns :: s.(watched := w).InTable(q) <==> s.InTable(q)
    ensures forall q | q in s.conns && s.InTable(q) :: s.conns[q].sock !in s.listen
  {
    var s1 := s.(watched := w);
    forall q | q in s.conns ensures s1.InTable(q) <==> s.InTable(q) {
    }
  }

  /** Watching or not watching listening sockets disturbs no connection. */
  lemma ListenKeeps<R>(s: Server<R>, handler: Handler, w: map<int, bv32>)
    requires Sane(s, handler, None, None) && w.Keys <= s.watched.Keys + s.listen
    requires forall k | k !in s.listen :: k in s.watched <==> k in w
    requires forall k | k !in s.listen && k in w :: w[k] == s.watched[k]
    ensures Sane(s.(watched := w), handler, None, None)
  {
    var s1 := s.(watched := w);
    ListenAccounted(s, w);
    forall q | q in s1.conns && s1.InTable(q) ensures AtRest(s1, handler, s1.conns[q]) && AgeOk(s1, s1.conns[q]) {
      assert AtRest(s, handler, s.conns[q]) && AgeOk(s, s.conns[q]);
    }
  }

  /** When both tables are empty every connection is back in the pool and only the listeners' descriptors are open. */
  lemma NothingLeft<R>(s: Server<R>, handler: Handler)
    requires Sane(s, handler, None, None) && s.t1 == map[] && s.t2 == map[]
    ensures s.open == s.listen && forall r | r in s.conns :: r in s.free && s.conns[r].sock == -1
  {
  }

  /** What is filed under a socket. */
  function Located<R>(s: Server<R>, sock: int): Option<R> {
    if sock in s.New() then Some(s.New()[sock]) else if sock in s.Old() then Some(s.Old()[sock]) else None
  }

  /** A socket is in at most one table, under a connection of its own that reads or writes. */
  lemma LocatedAtRest<R>(s: Server<R>, handler: Handler, sock: int)
    requires Sane(s, handler, None, None)
    ensures Located(s, sock).None? <==> sock !in s.t1 && sock !in s.t2
    ensures Located(s, sock).Some? ==>
              var r := Located(s, sock).value;
              && s.InTable(r) && s.conns[r].sock == sock && Touched(s, s, r) && Reads(s, handler, s.conns[r])
              && (s.conns[r].state == Receiving || s.conns[r].state == Transmitting)
  {
    if Located(s, sock).Some? {
      var r := Located(s, sock).value;
      assert sock in s.t1 ==> Tabled(s, sock, s.t1[sock], 1);
      assert sock in s.t2 ==> Tabled(s, sock, s.t2[sock], 2);
      assert AtRest(s, handler, s.conns[r]);
    }
  }
}
