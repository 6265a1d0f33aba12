/** What the thread of server/tcpserver.cpp is answered when it works on connections, and what must come of it. */
module ConnectionAnswers {
  import opened Options
  import opened StunTypes
  import opened StunWire
  import opened StunReaders
  import opened SocketAddresses
  import opened StunReplies
  import opened TcpConnections
  import opened ConnectionLimits
  import opened ConnectionReplies

  datatype RecvResult = RecvBlocked | RecvEnded | Bytes(data: seq<byte>)
  datatype SendResult = SendBlocked | SendFailed | SentBytes(count: nat)

  /** What the system and the rate limiter were asked, and answered: accept(), the limiter, the switch to non-blocking
      mode, the poller's Add and ChangeEventSet, recv(), send(), and the poller's WaitForNextEvent. */
  datatype Answer =
    | ToAccept(sock: int)
    | ToCheck(addr: Address, allowed: bool)
    | ToUnblock(sock: int, ok: bool)
    | ToWatch(sock: int, ok: bool)
    | ToRecv(sock: int, received: RecvResult)
    | ToSend(sock: int, sent: SendResult)
    | ToWait(fd: Option<int>)

  /** How many answers there were, and the last one. */
  datatype Heard = Heard(count: nat, last: Answer) {
    function Then(a: Answer): Heard {
      Heard(count + 1, a)
    }
  }

  // ---- work on a connection ----

  /** The answer after which work on a connection may end, and whether the connection is then closed: it is at the end
      of input, on bytes that are no message, when the limiter refuses the client, when the handler has no answer, when
      the poller refuses, and when sending fails. It is not while recv() or send() would block, nor once a reply is out
      and the poller accepts. `c` is the connection at that point. */
  ghost predicate Ended(a: Answer, handler: Handler, c: Conn, closed: bool) {
    match a
    case ToRecv(sock, received) =>
      sock == c.sock && (match received
                         case RecvBlocked => !closed
                         case RecvEnded => closed
                         case Bytes(_) => closed && Verdict(c.fed, true) == ParseError)
    case ToCheck(addr, allowed) =>
      && addr == c.peer.addrRemote && closed
      && Verdict(c.fed, true) == BodyValidated && (allowed ==> handler(c.peer, c.fed) == None)
    case ToWatch(sock, ok) => sock == c.sock && closed == !ok && (ok ==> c.state == Receiving)
    case ToSend(sock, sent) =>
      sock == c.sock && (match sent
                         case SendBlocked => !closed
                         case SendFailed => closed
                         case SentBytes(_) => false)
    case _ => false
  }

  /** There were answers since `before`, and the last one ended the work. */
  ghost predicate EndedBy(before: Heard, heard: Heard, handler: Handler, c: Conn, closed: bool) {
    before.count < heard.count && Ended(heard.last, handler, c, closed)
  }

  lemma SendEnds(before: Heard, heard: Heard, handler: Handler, c: Conn, sent: SendResult)
    requires heard == before.Then(ToSend(c.sock, sent)) && !sent.SentBytes?
    ensures EndedBy(before, heard, handler, c, sent.SendFailed?)
  {
  }

  lemma WatchEnds(before: Heard, middle: Heard, heard: Heard, handler: Handler, c: Conn, ok: bool)
    requires before.count <= middle.count && heard == middle.Then(ToWatch(c.sock, ok)) && (ok ==> c.state == Receiving)
    ensures EndedBy(before, heard, handler, c, !ok)
  {
  }

  lemma RecvEnds(before: Heard, heard: Heard, handler: Handler, c: Conn, received: RecvResult)
    requires heard == before.Then(ToRecv(c.sock, received)) && (received.Bytes? ==> Verdict(c.fed, true) == ParseError)
    ensures EndedBy(before, heard, handler, c, !received.RecvBlocked?)
  {
  }

  /** The handler's answer to a message. */
  function Response(handler: Handler, peer: Peer, m: seq<byte>): Option<seq<byte>> {
    handler(peer, m)
  }

  /** An allowed message is answered exactly if the handler has a reply and the poller lets the socket wait for
      output. */
  predicate AllowedBy(before: Heard, heard: Heard, sock: int, reply: Option<seq<byte>>, failed: bool) {
    if reply.None? then heard == before && failed else heard == before.Then(ToWatch(sock, !failed))
  }

  /** Before that the limiter is asked about the client. */
  predicate AnsweredBy(before: Heard, heard: Heard, addr: Address, sock: int, reply: Option<seq<byte>>, failed: bool) {
    || (heard == before.Then(ToCheck(addr, false)) && failed)
    || AllowedBy(before.Then(ToCheck(addr, true)), heard, sock, reply, failed)
  }

  lemma RefusalEnds(before: Heard, heard: Heard, handler: Handler, c: Conn)
    requires Verdict(c.fed, true) == BodyValidated
    requires AnsweredBy(before, heard, c.peer.addrRemote, c.sock, Response(handler, c.peer, c.fed), true)
    ensures EndedBy(before, heard, handler, c, true)
  {
  }

  lemma EndsLater(before: Heard, middle: Heard, heard: Heard, handler: Handler, c: Conn, closed: bool)
    requires before.count <= middle.count && EndedBy(middle, heard, handler, c, closed)
    ensures EndedBy(before, heard, handler, c, closed)
  {
  }

  /** The connection of a client that the limiter allows is not closed for what the handler makes of a complete message,
      unless that is no request. */
  lemma RequestsAreNotRefused(a: Answer, tsa: TransportAddressSet, auth: Option<AuthProvider>, crypto: Crypto, c: Conn,
                              closed: bool)
    requires Ended(a, ServerHandler(tsa, auth, crypto), c, closed) && a.ToCheck? && a.allowed
    ensures |c.fed| >= STUN_HEADER_SIZE && ClassOf(RawType(c.fed)) != Request
  {
    AnsweredIff(tsa, auth, crypto, c.peer, c.fed);
  }

  // ---- accepting ----

  predicate WatchedBy(before: Heard, heard: Heard, sock: int, ok: bool) {
    || (heard == before.Then(ToUnblock(sock, false)) && !ok)
    || heard == before.Then(ToUnblock(sock, true)).Then(ToWatch(sock, ok))
  }

  /** How a connection on `sock` is registered: it is kept if the socket can be switched to non-blocking mode, the
      poller takes it and the new table has room. `verified` is what CloseConnection asserts. */
  predicate RegisteredBy(before: Heard, heard: Heard, sock: int, room: bool, ok: bool, verified: bool) {
    || (heard == before.Then(ToUnblock(sock, false)) && !ok && verified)
    || (heard == before.Then(ToUnblock(sock, true)).Then(ToWatch(sock, false)) && !ok && verified)
    || (heard == before.Then(ToUnblock(sock, true)).Then(ToWatch(sock, true)) && ok == room && verified == room)
  }

  /** Before that the limiter is asked about the client. */
  predicate GreetedBy(before: Heard, heard: Heard, sock: int, addr: Address, room: bool, ok: bool, verified: bool) {
    || (heard == before.Then(ToCheck(addr, false)) && !ok && verified)
    || RegisteredBy(before.Then(ToCheck(addr, true)), heard, sock, room, ok, verified)
  }

  /** And before that accept() is called. Its failure, a refusal of the limiter, each failure of registration and a full
      table leave nothing behind, and nothing else does. */
  predicate AcceptedBy(before: Heard, heard: Heard, sock: int, addr: Address, room: bool, ok: bool, verified: bool) {
    || (sock == -1 && heard == before.Then(ToAccept(-1)) && !ok && verified)
    || (sock != -1 && GreetedBy(before.Then(ToAccept(sock)), heard, sock, addr, room, ok, verified))
  }

  // ---- one event ----

  /** What comes of an event: nothing, a client at a listening socket with the answers to accepting it and, if it was
      accepted, the connection when the work on it ended, or work on a connection. */
  datatype Happening =
    | Nothing
    | Incoming(sock: int, peer: Peer, verified: bool, accepted: Heard, conn: Option<Conn>, closed: bool)
    | Ongoing(end: Conn, closed: bool)
  {
    /** A connection that was there before is closed. */
    predicate Closes() {
      Ongoing? && closed
    }

    /** The socket of a connection that there is only now. */
    function Joins(): Option<int> {
      if Incoming? && conn.Some? && !closed then Some(sock) else None
    }
  }

  /** What the reader of the connection has been fed is what came in on its socket behind the messages served. */
  ghost predicate ReadFrom(received: map<int, seq<byte>>, handler: Handler, c: Conn) {
    && c.sock in received && Served(handler, c.peer, c.served)
    && received[c.sock] == Flatten(c.served) + c.fed
  }

  /** The right thing has happened to the event on `fd`. Nothing happens without an event, on the pipe, and on a
      descriptor that no connection has; a listening socket accepts a client of its own role, and reads from it at once;
      and work on a connection goes on until an answer ends it. `s` is the state before, with `room` in the new table or
      not. */
  ghost predicate Happened<R>(before: Heard, heard: Heard, handler: Handler, s: Server<R>,
                              received: map<int, seq<byte>>, room: bool, table: SocketTable, pipe: int,
                              fd: Option<int>, h: Happening) {
    match h
    case Nothing =>
      && heard == before
      && (fd.Some? && fd.value != pipe ==> fd.value !in Listeners(table) && fd.value !in s.t1 && fd.value !in s.t2)
    case Incoming(sock, peer, verified, accepted, conn, closed) =>
      && fd.Some? && fd.value != pipe && fd.value != -1 && table[RoleIndex(peer.role)] == fd.value
      && AcceptedBy(before, accepted, sock, peer.addrRemote, room, conn.Some?, verified)
      && (conn.None? ==> heard == accepted)
      && (conn.Some? ==>
            && conn.value.sock == sock && conn.value.peer == peer && ReadFrom(received, handler, conn.value)
            && EndedBy(accepted, heard, handler, conn.value, closed))
    case Ongoing(end, closed) =>
      && fd == Some(end.sock) && end.sock != pipe && end.sock !in Listeners(table)
      && (end.sock in s.t1 || end.sock in s.t2)
      && (forall r | r in s.conns && s.InTable(r) && s.conns[r].sock == end.sock :: s.conns[r].peer == end.peer)
      && ReadFrom(received, handler, end) && EndedBy(before, heard, handler, end, closed)
  }

  lemma WorkHappened<R>(before: Heard, heard: Heard, handler: Handler, s: Server<R>, room: bool, table: SocketTable,
                        pipe: int, r: R, work: Server<R>, closed: bool)
    requires AccountedFor(s, None) && s.InTable(r) && Touched(s, work, r)
    requires Listeners(table) <= s.listen && pipe in s.listen
    requires Reads(work, handler, work.conns[r]) && EndedBy(before, heard, handler, work.conns[r], closed)
    ensures Happened(before, heard, handler, s, work.received, room, table, pipe, Some(s.conns[r].sock),
                     Ongoing(work.conns[r], closed))
  {
    assert s.conns[r].sock !in s.listen;
  }

  lemma AcceptHappened<R>(before: Heard, accepted: Heard, heard: Heard, handler: Handler, s: Server<R>, room: bool,
                          table: SocketTable, pipe: int, fd: int, sock: int, peer: Peer, verified: bool, c: Conn,
                          received: map<int, seq<byte>>, closed: bool)
    requires fd != pipe && fd != -1 && table[RoleIndex(peer.role)] == fd
    requires AcceptedBy(before, accepted, sock, peer.addrRemote, room, true, verified)
    requires c.sock == sock && c.peer == peer && ReadFrom(received, handler, c)
    requires EndedBy(accepted, heard, handler, c, closed)
    ensures Happened(before, heard, handler, s, received, room, table, pipe, Some(fd),
                     Incoming(sock, peer, verified, accepted, Some(c), closed))
  {
  }

  // ---- what is left of the connections ----

  /** All connections in the tables are as they were after an event on `sock`, but that of the socket itself, which is
      closed and back in the pool, or still there. */
  ghost predicate Spared<R>(s: Server<R>, s1: Server<R>, sock: Option<int>, closed: bool) {
    forall r {:trigger s.InTable(r)} | r in s.conns && s.InTable(r) ::
      && r in s1.conns
      && (if sock != Some(s.conns[r].sock) then s1.InTable(r) && s1.conns[r] == s.conns[r]
          else if closed then r in s1.free && s1.conns[r].sock == -1
          else s1.InTable(r) && s1.conns[r].sock == s.conns[r].sock && s1.conns[r].peer == s.conns[r].peer
               && s1.conns[r].idHashTable == s.conns[r].idHashTable)
  }

  lemma OneOwner<R>(s: Server<R>, r: R, q: R)
    requires AccountedFor(s, None) && s.InTable(r) && s.InTable(q) && s.conns[q].sock == s.conns[r].sock
    ensures q == r
  {
  }

  lemma WorkSpares<R>(s: Server<R>, work: Server<R>, r: R, closed: bool)
    requires AccountedFor(s, None) && s.InTable(r) && Touched(s, work, r)
    ensures Spared(s, if closed then Closed(work, r) else work, Some(s.conns[r].sock), closed)
  {
    TouchedTables(s, work, r);
    TouchedPlaced(s, work, r);
    ClosedFiled(work, None, r);
    forall q | q in s.conns && s.InTable(q)
      ensures var s1 := if closed then Closed(work, r) else work;
              q in s1.conns
              && (if s.conns[q].sock != s.conns[r].sock then s1.InTable(q) && s1.conns[q] == s.conns[q] else q == r)
    {
      if s.conns[q].sock == s.conns[r].sock {
        OneOwner(s, r, q);
      }
    }
  }

  lemma AdmissionSpares<R>(base: Server<R>, s: Server<R>, added: Option<R>, sock: int, fd: int)
    requires Admission(base, s, added, sock) && AccountedFor(base, None) && fd in base.listen
    ensures Spared(base, s, Some(fd), false)
  {
    forall r | r in base.conns && base.InTable(r) ensures r in s.conns && s.InTable(r) && base.conns[r].sock != fd {
      assert s.conns[r] == base.conns[r];
      assert base.conns[r].sock !in base.listen;
    }
  }

  lemma NewIsApart<R>(base: Server<R>, s: Server<R>, r: R, sock: int)
    requires Admission(base, s, Some(r), sock) && AccountedFor(base, None) && AccountedFor(s, None)
    ensures s.conns[r].sock == sock && sock !in base.t1 && sock !in base.t2
    ensures forall q | q in base.conns && base.InTable(q) :: base.conns[q].sock != sock
  {
    assert sock in s.New() && s.New()[sock] == r;
    assert Tabled(s, sock, r, if s.newIs1 then 1 else 2);
    assert sock !in s.Old();
  }

  /** A new connection that is worked on at once. */
  lemma NewSpares<R>(base: Server<R>, s: Server<R>, r: R, sock: int, work: Server<R>, closed: bool, fd: int)
    requires Admission(base, s, Some(r), sock) && AccountedFor(base, None) && AccountedFor(s, None) && fd in base.listen
    requires Touched(s, work, r)
    ensures Spared(base, if closed then Closed(work, r) else work, Some(fd), false)
  {
    AdmissionSpares(base, s, Some(r), sock, fd);
    WorkSpares(s, work, r, closed);
    NewIsApart(base, s, r, sock);
  }

  // ---- sweeps ----

  /** The connections of the other table are as they were. */
  ghost predicate OthersSpared<R>(s: Server<R>, s1: Server<R>, id: int) {
    && (forall r {:trigger s.InTable(r)} | r in s.conns && s.InTable(r) && s.conns[r].idHashTable != id ::
          r in s1.conns && s1.InTable(r) && s1.conns[r] == s.conns[r])
    && forall r | r in s.free :: r in s1.free
  }

  lemma ClosedSpares<R>(s0: Server<R>, s: Server<R>, r: R, id: int)
    requires OthersSpared(s0, s, id) && AccountedFor(s, None) && s.InTable(r) && s.conns[r].idHashTable == id
    ensures OthersSpared(s0, Closed(s, r), id)
  {
    ClosedFiled(s, None, r);
    ClosedPooled(s, r);
  }

  /** A sweep closes the connections of the old table and leaves the others as they are. */
  ghost predicate SweepSpares<R>(s: Server<R>, s1: Server<R>, swept: bool) {
    && (forall r {:trigger s.InTable(r)} | r in s.conns && s.InTable(r) ::
          && r in s1.conns
          && (if swept && s.conns[r].sock in s.Old() then r in s1.free && s1.conns[r].sock == -1
              else s1.InTable(r) && s1.conns[r] == s.conns[r]))
    && (forall r | r in s.free :: r in s1.free)
    && OnlyJoins(s, s1, None)
  }

  lemma SweptSpares<R>(s: Server<R>, middle: Server<R>, s1: Server<R>, time: nat)
    requires AccountedFor(s, None) && AccountedFor(s1, None) && OthersSpared(s, middle, if s.newIs1 then 2 else 1)
    requires s1 == Swapped(middle, time) && s1.New() == map[] && s1.Old() == s.New() && s.conns.Keys <= s1.conns.Keys
    ensures SweepSpares(s, s1, true)
  {
    forall r | r in s.conns && s.InTable(r)
      ensures if s.conns[r].sock in s.Old() then r in s1.free && s1.conns[r].sock == -1
              else s1.InTable(r) && s1.conns[r] == s.conns[r]
    {
      if s.conns[r].sock in s.Old() {
        SweepIgnoresActivity(s, s1, r);
      } else {
        assert middle.InTable(r) && middle.conns[r] == s.conns[r];
      }
    }
  }

  /** The time at which the clock is looked at does not matter. */
  lemma SweepSparesLater<R>(s: Server<R>, s1: Server<R>, now: nat, swept: bool)
    requires SweepSpares(s.(clock := now), s1, swept)
    ensures SweepSpares(s, s1, swept)
  {
    var later := s.(clock := now);
    forall r | r in s.conns && s.InTable(r) ensures later.InTable(r) {
    }
  }

  lemma NothingSwept<R>(s: Server<R>)
    ensures SweepSpares(s, s, false)
  {
  }

  // ---- one turn ----

  /** `c` is among the connections in the tables. */
  ghost predicate Holds<R>(s: Server<R>, c: Conn) {
    exists r :: r in s.conns && s.InTable(r) && s.conns[r] == c
  }

  /** Every connection that is in a table now was in one before, but for that on `sock`. */
  ghost predicate OnlyJoins<R>(s: Server<R>, s1: Server<R>, sock: Option<int>) {
    forall k | k in s1.t1 || k in s1.t2 :: k in s.t1 || k in s.t2 || sock == Some(k)
  }

  /** Unless it was closed, a connection is left as it was when the work on it ended. */
  ghost predicate Kept<R>(s: Server<R>, s1: Server<R>, h: Happening, swept: bool) {
    match h
    case Nothing => true
    case Incoming(_, _, _, _, conn, closed) => conn.Some? && !closed ==> Holds(s1, conn.value)
    case Ongoing(end, closed) => closed || (swept && end.sock in s.Old()) || Holds(s1, end)
  }

  /** What an event does to the connections: to its own what came of it, and nothing to the others. A new one is in the
      new table. */
  ghost predicate Turned<R>(s: Server<R>, s1: Server<R>, fd: Option<int>, h: Happening) {
    && Spared(s, s1, fd, h.Closes()) && OnlyJoins(s, s1, h.Joins()) && Kept(s, s1, h, false)
    && s1.newIs1 == s.newIs1 && (h.Joins().Some? ==> h.conn.value.sock in s1.New())
    && (h.Ongoing? ==> Some(h.end.sock) == fd && (h.end.sock in s.t1 || h.end.sock in s.t2))
  }

  lemma NothingTurned<R>(s: Server<R>, fd: Option<int>)
    ensures Turned(s, s, fd, Nothing)
  {
  }

  lemma WorkTurned<R>(s: Server<R>, work: Server<R>, r: R, closed: bool)
    requires AccountedFor(s, None) && s.InTable(r) && Touched(s, work, r)
    ensures Turned(s, if closed then Closed(work, r) else work, Some(s.conns[r].sock), Ongoing(work.conns[r], closed))
  {
    WorkSpares(s, work, r, closed);
    TouchedTables(s, work, r);
    assert !closed ==> Holds(work, work.conns[r]);
  }

  lemma RefusalTurned<R>(base: Server<R>, s: Server<R>, sock: int, fd: int, h: Happening)
    requires Admission(base, s, None, sock) && AccountedFor(base, None) && fd in base.listen
    requires h.Incoming? && h.conn.None?
    ensures Turned(base, s, Some(fd), h)
  {
    AdmissionSpares(base, s, None, sock, fd);
  }

  lemma NewTurned<R>(base: Server<R>, s: Server<R>, r: R, sock: int, work: Server<R>, closed: bool, fd: int,
                     h: Happening)
    requires Admission(base, s, Some(r), sock) && AccountedFor(base, None) && AccountedFor(s, None) && fd in base.listen
    requires Touched(s, work, r) && h.Incoming? && h.sock == sock && h.conn == Some(work.conns[r]) && h.closed == closed
    ensures Turned(base, if closed then Closed(work, r) else work, Some(fd), h)
  {
    NewSpares(base, s, r, sock, work, closed, fd);
    NewIsApart(base, s, r, sock);
    NewJoins(base, s, r, sock, work);
    NewIsHeld(s, r, work);
  }

  lemma NewJoins<R>(base: Server<R>, s: Server<R>, r: R, sock: int, work: Server<R>)
    requires Admission(base, s, Some(r), sock) && Touched(s, work, r) && s.conns[r].sock == sock
    requires AccountedFor(s, None)
    ensures OnlyJoins(base, work, Some(sock)) && OnlyJoins(base, Closed(work, r), None)
    ensures work.newIs1 == base.newIs1 && sock in work.New()
  {
    assert sock in s.New() && sock !in s.Old();
  }

  lemma NewIsHeld<R>(s: Server<R>, r: R, work: Server<R>)
    requires s.InTable(r) && Touched(s, work, r)
    ensures Holds(work, work.conns[r]) && work.conns[r].sock == s.conns[r].sock
  {
    TouchedTables(s, work, r);
  }

  /** The connection is still open, on the same socket and for the same client. */
  ghost predicate StillOpen<R>(s: Server<R>, s1: Server<R>, r: R)
    requires r in s.conns
  {
    r in s1.conns && s1.InTable(r) && s1.conns[r].sock == s.conns[r].sock && s1.conns[r].peer == s.conns[r].peer
  }

  /** What one turn does to a connection that was open before it: it is closed exactly if the event was its own and the
      work on it ended so, or if it was in the old table when that was swept. Otherwise it stays as it was, unless the
      event was its own. */
  ghost predicate ClosedIff<R>(s: Server<R>, s1: Server<R>, sock: Option<int>, closed: bool, swept: bool, r: R)
    requires r in s.conns
  {
    && (StillOpen(s, s1, r) <==> !(sock == Some(s.conns[r].sock) && closed) && !(swept && s.conns[r].sock in s.Old()))
    && (!StillOpen(s, s1, r) ==> r in s1.conns && r in s1.free && s1.conns[r].sock == -1)
    && (StillOpen(s, s1, r) && sock != Some(s.conns[r].sock) ==> s1.conns[r] == s.conns[r])
  }

  /** One turn of the thread: how many answers there were when the event on `fd` was handed out, what came of it, and
      whether the old table was swept afterwards. */
  datatype Turn = Turn(start: Heard, fd: Option<int>, h: Happening, swept: bool)

  /** What one turn does to all of them. */
  ghost predicate TurnOf<R>(s: Server<R>, s1: Server<R>, fd: Option<int>, h: Happening, swept: bool) {
    && (forall r {:trigger s.InTable(r)} | r in s.conns && s.InTable(r) :: ClosedIff(s, s1, fd, h.Closes(), swept, r))
    && OnlyJoins(s, s1, h.Joins()) && Kept(s, s1, h, swept)
  }

  lemma TurnCloses<R>(s: Server<R>, middle: Server<R>, s1: Server<R>, fd: Option<int>, h: Happening, swept: bool)
    requires Turned(s, middle, fd, h) && SweepSpares(middle, s1, swept)
    requires AccountedFor(s, None) && AccountedFor(middle, None) && AccountedFor(s1, None)
    ensures TurnOf(s, s1, fd, h, swept)
  {
    forall r | r in s.conns && s.InTable(r) ensures ClosedIff(s, s1, fd, h.Closes(), swept, r) {
      OneConnection(s, middle, s1, fd, h.Closes(), swept, r);
    }
    TurnKeeps(s, middle, s1, fd, h, swept);
  }

  lemma OneConnection<R>(s: Server<R>, middle: Server<R>, s1: Server<R>, sock: Option<int>, closed: bool, swept: bool,
                         r: R)
    requires Spared(s, middle, sock, closed) && SweepSpares(middle, s1, swept)
    requires AccountedFor(s, None) && AccountedFor(middle, None) && AccountedFor(s1, None)
    requires middle.newIs1 == s.newIs1 && s.InTable(r)
    ensures ClosedIff(s, s1, sock, closed, swept, r)
  {
    SameTable(s, r);
    if !(sock == Some(s.conns[r].sock) && closed) {
      SameTable(middle, r);
    }
  }

  lemma TurnKeeps<R>(s: Server<R>, middle: Server<R>, s1: Server<R>, fd: Option<int>, h: Happening, swept: bool)
    requires Turned(s, middle, fd, h) && SweepSpares(middle, s1, swept)
    requires AccountedFor(s, None) && AccountedFor(middle, None)
    ensures Kept(s, s1, h, swept)
  {
    if h.Joins().Some? {
      assert h.conn.value.sock !in middle.Old();
      HoldsOn(middle, s1, h.conn.value, swept);
    } else if h.Ongoing? && !h.closed && !(swept && h.end.sock in s.Old()) {
      OngoingHolds(s, middle, s1, fd, h, swept);
    }
  }

  lemma OngoingHolds<R>(s: Server<R>, middle: Server<R>, s1: Server<R>, fd: Option<int>, h: Happening, swept: bool)
    requires Turned(s, middle, fd, h) && SweepSpares(middle, s1, swept)
    requires AccountedFor(s, None) && AccountedFor(middle, None)
    requires h.Ongoing? && !h.closed && !(swept && h.end.sock in s.Old())
    ensures Holds(s1, h.end)
  {
    if h.end.sock in middle.Old() {
      SameSide(s, middle, fd, h);
    }
    HoldsOn(middle, s1, h.end, swept);
  }

  lemma SameSide<R>(s: Server<R>, middle: Server<R>, fd: Option<int>, h: Happening)
    requires Turned(s, middle, fd, h) && AccountedFor(s, None) && AccountedFor(middle, None)
    requires h.Ongoing? && !h.closed && h.end.sock in middle.Old()
    ensures h.end.sock in s.Old()
  {
    var r := if h.end.sock in s.t1 then s.t1[h.end.sock] else s.t2[h.end.sock];
    assert Tabled(s, h.end.sock, r, if h.end.sock in s.t1 then 1 else 2);
    SameTable(s, r);
    SameTable(middle, r);
  }

  lemma HoldsOn<R>(middle: Server<R>, s1: Server<R>, c: Conn, swept: bool)
    requires Holds(middle, c) && SweepSpares(middle, s1, swept) && AccountedFor(middle, None)
    requires !swept || c.sock !in middle.Old()
    ensures Holds(s1, c)
  {
    var r :| r in middle.conns && middle.InTable(r) && middle.conns[r] == c;
    assert s1.InTable(r);
  }

  /** Whether a connection is in the old table is told by its number. */
  lemma SameTable<R>(s: Server<R>, r: R)
    requires AccountedFor(s, None) && s.InTable(r)
    ensures s.conns[r].sock in s.Old() <==> s.conns[r].idHashTable == if s.newIs1 then 2 else 1
    ensures s.conns[r].sock >= 0
  {
  }

  /** Which descriptors are watched does not matter. */
  lemma ListeningAside<R>(s: Server<R>, w: map<int, bv32>, s1: Server<R>, fd: Option<int>, h: Happening, swept: bool)
    requires TurnOf(s.(watched := w), s1, fd, h, swept)
    ensures TurnOf(s, s1, fd, h, swept)
  {
    var s0 := s.(watched := w);
    forall r | r in s.conns && s.InTable(r) ensures ClosedIff(s, s1, fd, h.Closes(), swept, r) {
      assert s0.InTable(r) && ClosedIff(s0, s1, fd, h.Closes(), swept, r);
    }
  }

  lemma HappenedAside<R>(before: Heard, heard: Heard, handler: Handler, s: Server<R>, w: map<int, bv32>,
                         received: map<int, seq<byte>>, room: bool, table: SocketTable, pipe: int, fd: Option<int>,
                         h: Happening)
    requires Happened(before, heard, handler, s.(watched := w), received, room, table, pipe, fd, h)
    ensures Happened(before, heard, handler, s, received, room, table, pipe, fd, h)
  {
    var s0 := s.(watched := w);
    assert forall r | r in s.conns && s.InTable(r) :: s0.InTable(r);
  }
}
