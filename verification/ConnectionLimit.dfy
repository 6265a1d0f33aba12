/** How many connections a thread of server/tcpserver.cpp can have, when the poller hands out events it fetched before
    their descriptors were taken off it (networkutils/polling.cpp). */
module ConnectionLimits {
  import opened Options
  import opened Collections
  import opened TcpConnections

  // ---- events ----

  /** An event fetched earlier is handed out. Events before it may have been dropped: CEpoll drops none, CPoll those of
      removed descriptors. */
  ghost predicate Drawn(before: seq<int>, fd: Option<int>, after: seq<int>) {
    fd.Some? && exists i | 0 <= i < |before| :: before[i] == fd.value && after == before[i + 1..]
  }

  /** Events are fetched from the kernel, at most one for every watched descriptor, and the first is handed out. */
  ghost predicate Fetched(watched: map<int, bv32>, fd: Option<int>, after: seq<int>) {
    match fd
    case None => after == []
    case Some(first) => NoRepeats([first] + after) && forall k | k in [first] + after :: k in watched
  }

  /** The listening sockets among the events still to be handed out. */
  function Pending(batch: seq<int>, socks: set<int>): set<int> {
    set k | k in batch && k in socks
  }

  // ---- counting ----

  function Size<R>(s: Server<R>): nat {
    |s.t1| + |s.t2|
  }

  lemma WithoutSize<V>(m: map<int, V>, k: int)
    ensures |Without(m, k)| == |m| - if k in m then 1 else 0
  {
    if k in m {
      assert m == Without(m, k)[k := m[k]];
    } else {
      assert Without(m, k) == m;
    }
  }

  lemma ClosedSize<R>(s: Server<R>, r: R)
    requires r in s.conns
    ensures Size(Closed(s, r)) <= Size(s)
  {
    WithoutSize(s.t1, s.conns[r].sock);
    WithoutSize(s.t2, s.conns[r].sock);
  }

  lemma AdmissionSize<R>(base: Server<R>, s: Server<R>, added: Option<R>, sock: int)
    requires Admission(base, s, added, sock)
    ensures Size(s) == Size(base) + if added.Some? then 1 else 0
  {
  }

  lemma SweptSize<R>(s: Server<R>, s1: Server<R>, swept: bool)
    requires if swept then s1.New() == map[] && s1.Old() == s.New() else s1.t1 == s.t1 && s1.t2 == s.t2
    ensures Size(s1) <= Size(s)
  {
  }

  /** Every listening socket with an event to come can still add one connection beyond the limit. */
  predicate Bounded(count: nat, batch: seq<int>, socks: set<int>, max: nat) {
    count + |Pending(batch, socks)| < max + |socks|
  }

  lemma DrawnRest(batch: seq<int>, fd: int, rest: seq<int>)
    requires NoRepeats(batch) && Drawn(batch, Some(fd), rest)
    ensures NoRepeats(rest) && fd in batch && fd !in rest && forall k | k in rest :: k in batch
  {
    var i :| 0 <= i < |batch| && batch[i] == fd && rest == batch[i + 1..];
    assert forall j | 0 <= j < |rest| :: rest[j] == batch[i + 1 + j];
  }

  lemma DrawnPending(batch: seq<int>, fd: int, rest: seq<int>, socks: set<int>)
    requires NoRepeats(batch) && Drawn(batch, Some(fd), rest)
    ensures NoRepeats(rest)
    ensures |Pending(rest, socks)| + (if fd in socks then 1 else 0) <= |Pending(batch, socks)|
  {
    DrawnRest(batch, fd, rest);
    var p, q := Pending(batch, socks), Pending(rest, socks);
    assert fd !in q && q <= p;
    if fd in socks {
      SubsetSize(q + {fd}, p);
    } else {
      SubsetSize(q, p);
    }
  }

  lemma FetchedPending(watched: map<int, bv32>, fd: int, rest: seq<int>, socks: set<int>)
    requires Fetched(watched, Some(fd), rest)
    ensures NoRepeats(rest) && fd in watched
    ensures |Pending(rest, socks)| + (if fd in socks then 1 else 0) <= |socks|
    ensures (forall k | k in socks :: k !in watched) ==> Pending(rest, socks) == {}
  {
    var all := [fd] + rest;
    assert all[0] == fd && forall j | 0 <= j < |rest| :: rest[j] == all[j + 1];
    assert forall k | k in rest :: k in all;
    var q := Pending(rest, socks);
    assert fd !in q && q <= socks;
    if fd in socks {
      SubsetSize(q + {fd}, socks);
    } else {
      SubsetSize(q, socks);
    }
  }

  /** One turn of the thread, in which at most one connection is accepted, and only for an event on a listening socket,
      keeps the bound: the count exceeds the limit by less than the number of listening sockets. */
  lemma TurnKeepsBound(count: nat, count1: nat, batch: seq<int>, fd: Option<int>, rest: seq<int>,
                       watched: map<int, bv32>, socks: set<int>, max: nat)
    requires NoRepeats(batch) && Bounded(count, batch, socks, max)
    requires Drawn(batch, fd, rest) || Fetched(watched, fd, rest)
    requires forall k | k in socks && k in watched :: count < max
    requires count1 <= count + if fd.Some? && fd.value in socks then 1 else 0
    ensures NoRepeats(rest) && Bounded(count1, rest, socks, max)
  {
    if Drawn(batch, fd, rest) {
      DrawnPending(batch, fd.value, rest, socks);
    } else if fd.Some? {
      FetchedPending(watched, fd.value, rest, socks);
    }
  }

  /** An event on a descriptor that is still watched does not take the count beyond the limit. */
  lemma FreshEventsKeepLimit(count: nat, count1: nat, fd: Option<int>, watched: map<int, bv32>, socks: set<int>,
                             max: nat)
    requires forall k | k in socks && k in watched :: count < max
    requires count1 <= count + if fd.Some? && fd.value in socks then 1 else 0
    requires fd.Some? ==> fd.value in watched
    ensures count <= max ==> count1 <= max
  {
    if fd.Some? {
      var k: int := fd.value;
      assert k in socks && k in watched ==> count < max;
    }
  }

  // ---- listening ----

  /** The listening sockets by role, -1 where there is none. */
  type SocketTable = s: seq<int> | |s| == 4 && forall i, j | 0 <= i < j < 4 && s[i] != -1 :: s[i] != s[j]
    witness [-1, -1, -1, -1]

  function Listeners(table: SocketTable): set<int> {
    set k | k in table && k != -1
  }

  ghost predicate ListenersWatched(w: map<int, bv32>, socks: set<int>, fEnable: bool) {
    forall k | k in socks :: k in w <==> fEnable
  }

  /** Some listening sockets are watched although the thread has it that none is. */
  ghost predicate LeftWatched(w: map<int, bv32>, socks: set<int>, fListening: bool) {
    !fListening && exists k :: k in socks && k in w
  }

  /** Whoever is watched, so are the listening sockets before it. */
  ghost predicate InOrder(w: map<int, bv32>, table: SocketTable) {
    forall i, j | 0 <= i < j < 4 && table[i] != -1 && table[j] != -1 && table[j] in w :: table[i] in w
  }

  ghost predicate ListenOk(w: map<int, bv32>, table: SocketTable, fListening: bool) {
    InOrder(w, table) && (fListening ==> ListenersWatched(w, Listeners(table), true))
  }

  /** Some role before `at` has a listening socket. */
  predicate Preceded(table: SocketTable, at: nat) {
    exists i | 0 <= i < at && i < 4 :: table[i] != -1
  }

  /** What enabling the listening sockets does to the poller when it gets as far as role `at`, where a socket is
      refused, or through all four. A poller refuses what it already watches. */
  ghost predicate Enabling(w: map<int, bv32>, w1: map<int, bv32>, table: SocketTable, at: nat) {
    && at <= 4 && (at < 4 ==> table[at] != -1)
    && (forall i | 0 <= i < at && table[i] != -1 :: table[i] in w1 && table[i] !in w)
    && (forall i | at <= i < 4 && table[i] != -1 :: table[i] in w1 <==> table[i] in w)
    && (!Preceded(table, at) ==> w1 == w)
  }

  lemma ListenerRole(table: SocketTable, k: int) returns (i: nat)
    requires k in Listeners(table)
    ensures i < 4 && table[i] == k
  {
    i :| i < 4 && table[i] == k;
  }

  lemma EnabledAll(w: map<int, bv32>, w1: map<int, bv32>, table: SocketTable)
    requires Enabling(w, w1, table, 4)
    ensures ListenersWatched(w1, Listeners(table), true) && !LeftWatched(w, Listeners(table), false)
  {
    forall k | k in Listeners(table) ensures k in w1 && k !in w {
      var i := ListenerRole(table, k);
    }
  }

  /** When the socket of role `at` is refused, listening sockets are left watched if and only if they were already, or
      one precedes the refused one. Once some are left watched, enabling never changes anything again. */
  lemma RefusalLeaves(w: map<int, bv32>, w1: map<int, bv32>, table: SocketTable, at: nat)
    requires Enabling(w, w1, table, at) && at < 4 && InOrder(w, table)
    ensures InOrder(w1, table)
    ensures LeftWatched(w1, Listeners(table), false) <==> LeftWatched(w, Listeners(table), false) || Preceded(table, at)
    ensures LeftWatched(w, Listeners(table), false) ==> w1 == w
  {
    if LeftWatched(w, Listeners(table), false) {
      var k :| k in Listeners(table) && k in w;
      var j := ListenerRole(table, k);
      assert !Preceded(table, at);
    } else if Preceded(table, at) {
      var i :| 0 <= i < at && table[i] != -1;
      assert table[i] in Listeners(table) && table[i] in w1;
    }
  }

  /** What SetListenSocketsOnEpoll does to the poller. */
  ghost predicate Relistening(w: map<int, bv32>, w1: map<int, bv32>, table: SocketTable, fListening: bool,
                              fEnable: bool, at: nat) {
    if fEnable == fListening then w1 == w && at == 4
    else if fEnable then Enabling(w, w1, table, at)
    else ListenersWatched(w1, Listeners(table), false) && at == 4
  }

  lemma RelistenOutcome(w: map<int, bv32>, w1: map<int, bv32>, table: SocketTable, fListening: bool, fEnable: bool,
                        at: nat)
    requires ListenOk(w, table, fListening) && Relistening(w, w1, table, fListening, fEnable, at)
    ensures var socks, fListening1 := Listeners(table), fEnable && at == 4;
            && ListenOk(w1, table, fListening1)
            && (LeftWatched(w1, socks, fListening1)
                <==> LeftWatched(w, socks, fListening) || (at < 4 && Preceded(table, at)))
            && (LeftWatched(w, socks, fListening) ==> w1 == w)
            && (!LeftWatched(w1, socks, fListening1) ==> forall k | k in socks && k in w1 :: fEnable)
  {
    forall i | 0 <= i < 4 && table[i] != -1 ensures table[i] in Listeners(table) {
    }
    if fEnable && !fListening {
      if at == 4 {
        EnabledAll(w, w1, table);
      } else {
        RefusalLeaves(w, w1, table, at);
      }
    }
  }

  // ---- the loop ----

  /** What holds at the top of the loop. The pipe is watched, and the listening sockets all together or not at all, and
      the count exceeds the limit by less than their number, even if all events still to be handed out are for listening
      sockets: unless some are left watched. */
  ghost predicate LoopOk<R>(s: Server<R>, count: nat, batch: seq<int>, fListening: bool, table: SocketTable, max: nat) {
    && NoRepeats(batch) && Listeners(table) <= s.listen && ListenOk(s.watched, table, fListening)
    && (forall k | k in s.listen && k !in Listeners(table) :: k in s.watched)
    && (!LeftWatched(s.watched, Listeners(table), fListening) ==> Bounded(count, batch, Listeners(table), max))
  }

  /** What happens to connections does not touch the listening. */
  lemma SameListening<R>(s: Server<R>, s1: Server<R>, table: SocketTable, fListening: bool)
    requires SameListeners(s, s1) && Listeners(table) <= s.listen && ListenOk(s.watched, table, fListening)
    ensures forall k | k in Listeners(table) :: k in s1.watched <==> k in s.watched
    ensures ListenOk(s1.watched, table, fListening)
    ensures LeftWatched(s1.watched, Listeners(table), fListening)
            <==> LeftWatched(s.watched, Listeners(table), fListening)
  {
    forall k | k in Listeners(table) ensures k in s1.watched <==> k in s.watched {
      assert k in s.listen;
    }
    forall i | 0 <= i < 4 && table[i] != -1 ensures table[i] in s1.watched <==> table[i] in s.watched {
      assert table[i] in Listeners(table);
    }
  }

  lemma FewerKeepLoop<R>(s: Server<R>, s1: Server<R>, count: nat, count1: nat, batch: seq<int>, fListening: bool,
                         table: SocketTable, max: nat)
    requires LoopOk(s, count, batch, fListening, table, max) && SameListeners(s, s1) && count1 <= count
    ensures LoopOk(s1, count1, batch, fListening, table, max)
    ensures LeftWatched(s1.watched, Listeners(table), fListening)
            <==> LeftWatched(s.watched, Listeners(table), fListening)
    ensures forall k | k in Listeners(table) :: k in s1.watched <==> k in s.watched
  {
    SameListening(s, s1, table, fListening);
  }

  /** One event, on a descriptor still watched or not. */
  lemma EventKeepsLoop<R>(s: Server<R>, s1: Server<R>, count: nat, count1: nat, batch: seq<int>, fd: Option<int>,
                          rest: seq<int>, fListening: bool, table: SocketTable, max: nat)
    requires LoopOk(s, count, batch, fListening, table, max)
    requires !LeftWatched(s.watched, Listeners(table), fListening) ==>
               forall k | k in Listeners(table) && k in s.watched :: count < max
    requires Drawn(batch, fd, rest) || Fetched(s.watched, fd, rest)
    requires SameListeners(s, s1) && count1 <= count + if fd.Some? && fd.value in Listeners(table) then 1 else 0
    ensures LoopOk(s1, count1, rest, fListening, table, max)
    ensures LeftWatched(s1.watched, Listeners(table), fListening)
            <==> LeftWatched(s.watched, Listeners(table), fListening)
    ensures forall k | k in Listeners(table) :: k in s1.watched <==> k in s.watched
    ensures !LeftWatched(s.watched, Listeners(table), fListening) && count <= max
            && (fd.Some? ==> fd.value in s.watched)
            ==> count1 <= max
  {
    var socks := Listeners(table);
    if Drawn(batch, fd, rest) {
      DrawnPending(batch, fd.value, rest, socks);
    } else if fd.Some? {
      FetchedPending(s.watched, fd.value, rest, socks);
    }
    SameListening(s, s1, table, fListening);
    if !LeftWatched(s.watched, socks, fListening) {
      TurnKeepsBound(count, count1, batch, fd, rest, s.watched, socks, max);
      if fd.Some? ==> fd.value in s.watched {
        FreshEventsKeepLimit(count, count1, fd, s.watched, socks, max);
      }
    }
  }

  // ---- how the limit is exceeded ----

  /** What becomes of a connection that is watched: it is filed, unless the new table has `max` entries; then it is
      closed again, although the table it names does not have it. */
  function Registered<R(==)>(s: Server<R>, r: R, max: nat): Server<R>
    requires r in s.conns
  {
    var fits := |s.New()| < max;
    Registration(s, r, s.conns[r].sock, fits, fits)
  }

  /** The sockets 3 and 4 listen, for the roles PP and PA, beside the pipe on 5. */
  const TWO_LISTENERS: SocketTable := [3, 4, -1, -1]

  /** Two connections in the pool, and everything watched. */
  const QUIET: Server<int> :=
    Server(map[0 := NEW_CONNECTION, 1 := NEW_CONNECTION], [0, 1], map[], map[], true,
           map[3 := EPOLL_LISTEN_SOCKET_EVENT_SET, 4 := EPOLL_LISTEN_SOCKET_EVENT_SET, 5 := EPOLL_PIPE_EVENT_SET],
           {3, 4, 5}, map[], map[], map[], {3, 4, 5}, 0, 0, 0)

  function Reading(sock: int, peer: Peer): Conn {
    Conn(sock, peer, Receiving, [], [], 0, 1, 0, [], 0)
  }

  /** One connection, and the listening sockets taken off the poller. */
  function AtLimit(peer: Peer): Server<int> {
    Server(map[0 := Reading(10, peer), 1 := NEW_CONNECTION], [1], map[10 := 0], map[], true,
           map[5 := EPOLL_PIPE_EVENT_SET, 10 := EPOLL_CLIENT_READ_EVENT_SET], {3, 4, 5, 10},
           map[10 := []], map[10 := []], map[10 := peer], {3, 4, 5}, 0, 0, 0)
  }

  lemma TwoListeners()
    ensures Listeners(TWO_LISTENERS) == {3, 4}
  {
    assert TWO_LISTENERS[0] == 3 && TWO_LISTENERS[1] == 4;
  }

  lemma QuietIsSane(handler: Handler)
    ensures Sane(QUIET, handler, None, None) && LoopOk(QUIET, 0, [], true, TWO_LISTENERS, 1)
  {
    QuietListens();
    assert QUIET.free[0] == 0 && QUIET.free[1] == 1;
  }

  lemma QuietListens()
    ensures LoopOk(QUIET, 0, [], true, TWO_LISTENERS, 1)
  {
    TwoListeners();
  }

  /** With a limit of one: both sockets are ready and an event for each is fetched. The first is accepted, which brings
      the count to the limit, and the sockets are taken off the poller. */
  lemma FirstIsAccepted(peer: Peer)
    ensures Fetched(QUIET.watched, Some(3), [4]) && QUIET.free[0] == 0
    ensures var s := Registered(Taken(QUIET, 10, peer, 0), 0, 1); s.(watched := s.watched - {3, 4}) == AtLimit(peer)
  {
    EventsForBoth();
    assert QUIET.free[0] == 0 && QUIET.free[1..] == [1];
    var s := Taken(QUIET, 10, peer, 0);
    assert WatchedToo(s, 10).watched - {3, 4} == AtLimit(peer).watched;
  }

  lemma EventsForBoth()
    ensures Fetched(QUIET.watched, Some(3), [4]) && Drawn([4], Some(4), [])
  {
    assert [4][0] == 4 && [4][0 + 1..] == [] && [3] + [4] == [3, 4];
  }

  /** An accepted connection leaves everything sane, filed or not. */
  lemma RegisteredIsSane<R>(s: Server<R>, handler: Handler, r: R, sock: nat, peer: Peer, time: nat, max: nat)
    requires Sane(s, handler, None, None) && s.free != [] && s.free[0] == r && sock !in s.open && s.clock <= time
    ensures r in s.conns && Sane(Registered(Taken(s, sock, peer, time), r, max), handler, None, None)
  {
    AcceptanceKeeps(s, handler, sock, peer, time);
  }

  /** So does taking the listening sockets off the poller. */
  lemma SilencedIsSane<R>(s: Server<R>, handler: Handler, s1: Server<R>, socks: set<int>)
    requires Sane(s, handler, None, None) && socks <= s.listen && s.(watched := s.watched - socks) == s1
    ensures Sane(s1, handler, None, None)
  {
    ListenKeeps(s, handler, s.watched - socks);
  }

  lemma LimitIsReached(handler: Handler, peer: Peer)
    ensures Drawn([4], Some(4), [])
    ensures Sane(AtLimit(peer), handler, None, None) && Size(AtLimit(peer)) == 1 && 4 !in AtLimit(peer).watched
  {
    EventsForBoth();
    FirstIsAccepted(peer);
    QuietIsSane(handler);
    RegisteredIsSane(QUIET, handler, 0, 10, peer, 0, 1);
    SilencedIsSane(Registered(Taken(QUIET, 10, peer, 0), 0, 1), handler, AtLimit(peer), {3, 4});
  }

  /** The event for the second socket is handed out all the same. Its connection finds the new table full: the insertion
      fails, and CloseConnection is called on a connection that names a table it is not in. */
  lemma StaleEventFindsTableFull(handler: Handler, peer: Peer)
    ensures AtLimit(peer).free == [1] && FindsTableFull(AtLimit(peer), handler, 11, peer)
  {
    LimitIsReached(handler, peer);
    NoRoomLeft(AtLimit(peer), handler, 11, peer);
  }

  lemma NoRoomLeft(s0: Server<int>, handler: Handler, sock: nat, peer: Peer)
    requires Sane(s0, handler, None, None) && s0.free == [1] && sock !in s0.open && s0.clock == 0 && |s0.New()| == 1
    ensures 1 in s0.conns && FindsTableFull(s0, handler, sock, peer)
  {
    RegisteredIsSane(s0, handler, 1, sock, peer, 0, 1);
    AcceptanceKeeps(s0, handler, sock, peer, 0);
  }

  /** With a limit of one, the connection accepted on `sock` is told the new table and then closed, without being in
      it. */
  ghost predicate FindsTableFull(s0: Server<int>, handler: Handler, sock: int, peer: Peer)
    requires s0.free == [1] && 1 in s0.conns
  {
    var s := Taken(s0, sock, peer, 0);
    var c := Marked(WatchedToo(s, sock), 1).conns[1];
    && |s.New()| == 1 && c.idHashTable in {1, 2} && c.sock !in s.Table(c.idHashTable)
    && Registered(s, 1, 1) == Closed(Marked(WatchedToo(s, sock), 1), 1)
    && Sane(Registered(s, 1, 1), handler, None, None)
  }

  /** If a sweep comes between the two events there is room in the new table, and the limit is exceeded. */
  lemma StaleEventExceedsLimit(handler: Handler, peer: Peer)
    ensures AtLimit(peer).free == [1] && SweepMakesRoom(AtLimit(peer), handler, 11, peer)
  {
    LimitIsReached(handler, peer);
    SweptHasRoom(AtLimit(peer), handler, 11, peer);
  }

  /** With a limit of one, there are two connections after a sweep and another acceptance. */
  ghost predicate SweepMakesRoom(s0: Server<int>, handler: Handler, sock: int, peer: Peer)
    requires s0.free == [1] && 1 in s0.conns
  {
    var s := Registered(Taken(Swapped(s0, 60), sock, peer, 60), 1, 1);
    s0.Old() == map[] && Size(s) == 2 && Sane(s, handler, None, None)
  }

  lemma SweptHasRoom(s0: Server<int>, handler: Handler, sock: nat, peer: Peer)
    requires Sane(s0, handler, None, None) && s0.free == [1] && sock !in s0.open && s0.clock == 0
    requires s0.Old() == map[] && Size(s0) == 1
    ensures 1 in s0.conns && SweepMakesRoom(s0, handler, sock, peer)
  {
    SwappedKeeps(s0, handler, 60);
    RegisteredIsSane(Swapped(s0, 60), handler, 1, sock, peer, 60, 1);
    assert |map[sock := 1]| == 1;
  }

  // ---- how listening sockets are left watched ----

  /** The connection at the limit is closed, so the thread listens again: the first socket is watched and the second one
      refused. */
  function HalfListening(peer: Peer): Server<int> {
    var s := Closed(AtLimit(peer), 0);
    s.(watched := s.watched[3 := EPOLL_LISTEN_SOCKET_EVENT_SET])
  }

  lemma SecondIsRefused(handler: Handler, peer: Peer)
    ensures var s := Closed(AtLimit(peer), 0);
            && Size(s) == 0 && Enabling(s.watched, HalfListening(peer).watched, TWO_LISTENERS, 1)
            && LeftWatched(HalfListening(peer).watched, {3, 4}, false)
            && Sane(HalfListening(peer), handler, None, None)
  {
    LimitIsReached(handler, peer);
    assert AtLimit(peer).InTable(0);
    ClosedThenListens(AtLimit(peer), handler, 0, 3);
    HalfIsLeft(peer);
  }

  lemma ClosedThenListens<R>(s: Server<R>, handler: Handler, r: R, k: int)
    requires Sane(s, handler, None, None) && s.InTable(r) && k in s.listen
    ensures var s1 := Closed(s, r);
            Sane(s1.(watched := s1.watched[k := EPOLL_LISTEN_SOCKET_EVENT_SET]), handler, None, None)
  {
    ClosedKeeps(s, handler, None, None, r);
    var s1 := Closed(s, r);
    ListenKeeps(s1, handler, s1.watched[k := EPOLL_LISTEN_SOCKET_EVENT_SET]);
  }

  lemma HalfIsLeft(peer: Peer)
    ensures var s := Closed(AtLimit(peer), 0);
            && Size(s) == 0 && Enabling(s.watched, HalfListening(peer).watched, TWO_LISTENERS, 1)
            && LeftWatched(HalfListening(peer).watched, {3, 4}, false)
  {
    assert TWO_LISTENERS[0] == 3;
  }

  /** A connection is accepted on the first socket. At the limit nothing takes that socket off the poller, because the
      thread has it that none is watched. */
  function HalfListeningAtLimit(peer: Peer): Server<int> {
    Registered(Taken(HalfListening(peer), 11, peer, 0), 0, 1)
  }

  /** So the next event for it is no late one, and is accepted at the limit: the new table is full, or after a sweep
      there are twice as many connections as allowed. */
  lemma LeftWatchedOverruns(handler: Handler, peer: Peer)
    ensures var s := HalfListeningAtLimit(peer);
            && Size(s) == 1 && s.free == [1] && 1 in s.conns && LeftWatched(s.watched, {3, 4}, false)
            && Fetched(HalfListening(peer).watched, Some(3), []) && Fetched(s.watched, Some(3), [])
            && FindsTableFull(s, handler, 12, peer) && SweepMakesRoom(s, handler, 12, peer)
  {
    HalfIsAtLimit(peer);
    HalfIsSane(handler, peer);
    NoRoomLeft(HalfListeningAtLimit(peer), handler, 12, peer);
    SweptHasRoom(HalfListeningAtLimit(peer), handler, 12, peer);
  }

  lemma HalfIsFree(peer: Peer)
    ensures var s := HalfListening(peer); s.free == [0, 1] && s.free[0] == 0 && 11 !in s.open && s.clock == 0
  {
  }

  lemma HalfIsSane(handler: Handler, peer: Peer)
    ensures Sane(HalfListeningAtLimit(peer), handler, None, None)
  {
    SecondIsRefused(handler, peer);
    HalfIsFree(peer);
    RegisteredIsSane(HalfListening(peer), handler, 0, 11, peer, 0, 1);
  }

  lemma HalfIsAtLimit(peer: Peer)
    ensures var s := HalfListeningAtLimit(peer);
            && Size(s) == 1 && s.free == [1] && s.Old() == map[] && s.New() == map[11 := 0] && s.newIs1 && s.clock == 0
            && 3 in s.watched && 12 !in s.open && s.conns.Keys == {0, 1}
            && Fetched(HalfListening(peer).watched, Some(3), []) && Fetched(s.watched, Some(3), [])
  {
    assert HalfListening(peer).free == [0, 1] && HalfListening(peer).free[1..] == [1];
  }
}
