/** The connection thread of server/tcpserver.cpp. */
module TcpServers {
  import opened Options
  import opened Collections
  import opened StunTypes
  import opened StunWire
  import opened SocketAddresses
  import opened StunReplies
  import EL = EntryList
  import opened FastHashTable
  import opened TcpConnections
  import opened ConnectionLimits
  import opened ConnectionReplies
  import opened ConnectionAnswers
  import opened ConnectionPools

  type ConnectionMap = FastHash<int, StunConnection?>

  ghost predicate TableOk(table: ConnectionMap, size: nat)
    reads table, table.Repr
  {
    table.Valid() && EL.UniqueKeys(table.Entries) && table.fsize == size
  }

  method TwoTables(size: nat, hash: int -> nat) returns (t1: ConnectionMap, t2: ConnectionMap)
    requires size > 0
    ensures fresh(t1.Repr) && fresh(t2.Repr) && t1.Repr !! t2.Repr && t1 in t1.Repr && t2 in t2.Repr
    ensures TableOk(t1, size) && EL.AsMap(t1.Entries) == map[] && TableOk(t2, size) && EL.AsMap(t2.Entries) == map[]
    ensures t1.size == 0 && t2.size == 0
  {
    var r1 := InitTable<int, StunConnection?>(size, 0, hash);
    var r2 := InitTable<int, StunConnection?>(size, 0, hash);
    t1, t2 := r1.value, r2.value;
  }

  class CTCPStunThread {
    const sys: Kernel
    const pool: CConnectionPool
    const hashConnections1: ConnectionMap
    const hashConnections2: ConnectionMap
    const tsa: TransportAddressSet
    const auth: Option<AuthProvider>
    const crypto: Crypto
    const hash: u16 -> nat
    const maxConnections: nat
    const socketTable: SocketTable
    const pipe: int
    ghost const handler: Handler
    var pNewConnList: ConnectionMap
    var pOldConnList: ConnectionMap
    var fListenSocketsOnEpoll: bool
    var timeLastSweep: nat
    ghost var sweeps: nat

    /** The listening sockets and the pipe are open, nothing is watched yet. */
    constructor (sys: Kernel, socketTable: SocketTable, pipe: int, maxConnections: nat, tsa: TransportAddressSet,
                 auth: Option<AuthProvider>, crypto: Crypto, hash: u16 -> nat, socketHash: int -> nat)
      requires 0 < maxConnections < 100000
      requires sys.open == Listeners(socketTable) + {pipe} && pipe !in socketTable && sys.watched == map[]
      ensures Valid() && !fListenSocketsOnEpoll && this.sys == sys && this.maxConnections == maxConnections
      ensures this.socketTable == socketTable
      ensures this.tsa == tsa && this.auth == auth && this.crypto == crypto && this.pipe == pipe && Serving()
      ensures fresh(pool) && fresh(hashConnections1.Repr) && fresh(hashConnections2.Repr) && pool.All == {}
      ensures T1() == map[] && T2() == map[] && ConnectionCount() == 0
    {
      this.sys := sys;
      this.socketTable := socketTable;
      this.pipe := pipe;
      this.maxConnections := maxConnections;
      this.tsa, this.auth, this.crypto, this.hash := tsa, auth, crypto, hash;
      handler := ServerHandler(tsa, auth, crypto);
      pool := new CConnectionPool();
      var t1, t2 := TwoTables(maxConnections, socketHash);
      hashConnections1, hashConnections2 := t1, t2;
      pNewConnList, pOldConnList := t1, t2;
      fListenSocketsOnEpoll := false;
      timeLastSweep := sys.clock;
      sweeps := 0;
      new;
      StartIsValid();
    }

    lemma StartIsValid()
      requires Tidy() && pool.All == {} && pool.Free == [] && T1() == map[] && T2() == map[]
      requires sys.open == Listen() && sys.watched == map[] && timeLastSweep <= sys.clock && pool.Peers == map[]
      ensures Valid()
    {
      assert Conns() == map[];
      EmptyIsSane(Snap(), handler);
    }

    /** The end of Init: the listening sockets and the pipe are watched, or the poller refuses one and the thread is not
        started. */
    method Init() returns (ok: bool, ghost refused: int)
      requires Valid() && !fListenSocketsOnEpoll && sys.watched == map[] && sys.batch == [] && pipe !in socketTable
      requires ConnectionCount() == 0 && 0 < maxConnections
      modifies sys`heard
      modifies `fListenSocketsOnEpoll, sys`watched
      ensures Valid() && ConnectionCount() == 0
      ensures ok ==> Running() && fListenSocketsOnEpoll && pipe in sys.watched
      ensures !ok ==> Refused(old(sys.heard).count, refused)
    {
      ok, refused := WatchKeeping();
      if ok {
        StartIsRunning();
      }
    }

    method WatchKeeping() returns (ok: bool, ghost refused: int)
      requires Valid() && !fListenSocketsOnEpoll && sys.watched == map[] && pipe !in socketTable
      modifies sys`heard
      modifies `fListenSocketsOnEpoll, sys`watched
      ensures Valid() && ConnectionCount() == old(ConnectionCount())
      ensures ok ==> fListenSocketsOnEpoll && pipe in sys.watched && ListenersWatched(sys.watched, Socks(), true)
      ensures !ok ==> Refused(old(sys.heard).count, refused)
    {
      ghost var before := Snap();
      ok, refused := WatchAll();
      ListenKeeps(before, handler, sys.watched);
    }

    method WatchAll() returns (ok: bool, ghost refused: int)
      requires !fListenSocketsOnEpoll && sys.watched == map[] && pipe !in socketTable
      modifies sys`heard
      modifies `fListenSocketsOnEpoll, sys`watched
      ensures Snap() == old(Snap()).(watched := sys.watched) && sys.watched.Keys <= Listen()
      ensures ok ==> fListenSocketsOnEpoll && pipe in sys.watched && ListenersWatched(sys.watched, Socks(), true)
      ensures !ok ==> Refused(old(sys.heard).count, refused)
    {
      ghost var at;
      ok, at := SetListenSocketsOnEpoll(true);
      refused := if ok then pipe else socketTable[at];
      if ok {
        EnabledAll(map[], sys.watched, socketTable);
        ok := sys.Add(pipe, EPOLL_PIPE_EVENT_SET);
      }
    }

    lemma StartIsRunning()
      requires ListenersWatched(sys.watched, Socks(), true) && fListenSocketsOnEpoll && pipe in sys.watched
      requires sys.batch == [] && ConnectionCount() == 0 < maxConnections
      ensures Running()
    {
      assert forall i | 0 <= i < 4 && socketTable[i] != -1 ::
          socketTable[i] in Socks() && socketTable[i] in sys.watched;
    }

    /** The replies the streams are about are those of the request handler. */
    ghost predicate Serving() {
      handler == ServerHandler(tsa, auth, crypto)
    }

    ghost function Conns(): map<StunConnection?, Conn>
      reads pool, pool.All
    {
      map c | c in pool.All :: c.Value()
    }

    function Listen(): set<int> {
      Socks() + {pipe}
    }

    ghost function Snap(): Server<StunConnection?>
      reads this, sys, pool, pool.All, hashConnections1, hashConnections2
    {
      Server(Conns(), pool.Free, T1(), T2(), pNewConnList == hashConnections1, sys.watched, sys.open, sys.received,
             sys.sent, pool.Peers, Listen(), timeLastSweep, sweeps, sys.clock)
    }

    ghost predicate TablesOk()
      reads this, hashConnections1, hashConnections1.Repr, hashConnections2, hashConnections2.Repr
    {
      && (forall t | t in {hashConnections1, hashConnections2} :: TableOk(t, maxConnections))
      && this !in hashConnections1.Repr && this !in hashConnections2.Repr
      && hashConnections1.Repr !! hashConnections2.Repr && hashConnections1 != hashConnections2
      && hashConnections1 !in hashConnections2.Repr && hashConnections2 !in hashConnections1.Repr
      && ((pNewConnList == hashConnections1 && pOldConnList == hashConnections2)
          || (pNewConnList == hashConnections2 && pOldConnList == hashConnections1))
    }

    ghost predicate Apart()
      reads pool
    {
      && sys !in hashConnections1.Repr && sys !in hashConnections2.Repr
      && pool !in hashConnections1.Repr && pool !in hashConnections2.Repr
      && forall c | c in pool.All :: c !in hashConnections1.Repr && c !in hashConnections2.Repr
    }

    /** The concrete data structures are in order. */
    ghost predicate Tidy()
      reads this, pool, pool.All, hashConnections1, hashConnections1.Repr, hashConnections2, hashConnections2.Repr
    {
      TablesOk() && pool.Linked() && Apart()
    }

    ghost function T1(): map<int, StunConnection?>
      reads hashConnections1
    {
      EL.AsMap(hashConnections1.Entries)
    }

    ghost function T2(): map<int, StunConnection?>
      reads hashConnections2
    {
      EL.AsMap(hashConnections2.Entries)
    }

    /** What holds whenever the thread waits for the next event. */
    ghost predicate Valid()
      reads this, sys, pool, pool.All, hashConnections1, hashConnections1.Repr, hashConnections2, hashConnections2.Repr
    {
      Tidy() && Sane(Snap(), handler, None, None)
    }

    /** Removal from the table a connection names; `found` says whether the table had it. */
    method Unfile(id: int, sock: int) returns (found: bool)
      requires TablesOk() && (id == 1 || id == 2)
      modifies (if id == 1 then hashConnections1 else hashConnections2).Repr
      ensures TablesOk() && (found <==> sock in if id == 1 then old(T1()) else old(T2()))
      ensures T1() == if id == 1 then Without(old(T1()), sock) else old(T1())
      ensures T2() == if id == 2 then Without(old(T2()), sock) else old(T2())
    {
      if id == 1 {
        found := RemoveBeside(hashConnections1, hashConnections2, maxConnections, sock);
      } else {
        found := RemoveBeside(hashConnections2, hashConnections1, maxConnections, sock);
      }
    }

    ghost predicate Placeable(pConn: StunConnection, hand: Option<StunConnection?>)
      reads this, sys, pool, pool.All, hashConnections1, hashConnections2
    {
      pConn in pool.All && (hand == Some(pConn) || Snap().InTable(pConn))
    }

    /** `verified` is what the source asserts of the removal: that the table named by the connection had it. It holds of
        every connection but one whose insertion failed. */
    method CloseConnection(pConn: StunConnection, ghost hand: Option<StunConnection?>) returns (verified: bool)
      requires Tidy() && AccountedFor(Snap(), hand) && Placeable(pConn, hand)
      modifies pConn, pool, sys`watched, sys`open, hashConnections1.Repr, hashConnections2.Repr
      ensures Tidy() && Snap() == Closed(old(Snap()), pConn) && pool.All == old(pool.All)
      ensures verified <==> hand != Some(pConn) || old(pConn.idHashTable) == -1
    {
      PlaceOf(Snap(), hand, pConn);
      verified := Dispose(pConn);
    }

    /** The body of CloseConnection: hang up, leave the table, go back to the pool. */
    method Dispose(pConn: StunConnection) returns (verified: bool)
      requires Tidy() && pConn in pool.All && pConn !in pool.Free && pConn.idHashTable in {-1, 1, 2}
      modifies pConn, pool, sys`watched, sys`open, hashConnections1.Repr, hashConnections2.Repr
      ensures Tidy() && Snap() == Closed(old(Snap()), pConn) && pool.All == old(pool.All)
      ensures verified <==>
              old(pConn.idHashTable) == -1 || old(pConn.sock) in old(Snap()).Table(old(pConn.idHashTable))
    {
      var sock := pConn.sock;
      Hangup(pConn);
      verified := GiveBack(pConn, sock);
    }

    method GiveBack(pConn: StunConnection, sock: int) returns (verified: bool)
      requires Tidy() && pConn in pool.All && pConn !in pool.Free && pConn.sock == -1 && pConn.idHashTable in {-1, 1, 2}
      modifies pConn`pNext, pool, hashConnections1.Repr, hashConnections2.Repr
      ensures Tidy() && pool.All == old(pool.All)
      ensures var s, id := old(Snap()), pConn.idHashTable;
              Snap() == s.(free := [pConn] + s.free, t1 := if id == 1 then Without(s.t1, sock) else s.t1,
                           t2 := if id == 2 then Without(s.t2, sock) else s.t2)
      ensures verified <==> pConn.idHashTable == -1 || sock in old(Snap()).Table(pConn.idHashTable)
    {
      verified := Refile(pConn.idHashTable, sock);
      Release(pConn);
    }

    method Refile(id: int, sock: int) returns (verified: bool)
      requires Tidy() && id in {-1, 1, 2}
      modifies hashConnections1.Repr, hashConnections2.Repr
      ensures Tidy() && pool.Free == old(pool.Free) && pool.All == old(pool.All)
      ensures Conns() == old(Conns())
      ensures T1() == if id == 1 then Without(old(T1()), sock) else old(T1())
      ensures T2() == if id == 2 then Without(old(T2()), sock) else old(T2())
      ensures verified <==> id == -1 || sock in if id == 1 then old(T1()) else old(T2())
    {
      verified := true;
      if id != -1 {
        verified := Unfile(id, sock);
      }
    }

    method Hangup(pConn: StunConnection)
      requires pool.Linked() && pConn in pool.All && pConn !in pool.Free
      modifies pConn`sock, pConn`peer, sys`watched, sys`open
      ensures pool.Linked() && pConn.sock == -1
      ensures var s, c := old(Snap()), old(pConn.Value());
              Snap() == s.(conns := s.conns[pConn := c.(sock := -1, peer := NO_PEER)],
                           watched := Without(s.watched, c.sock),
                           open := s.open - {c.sock})
    {
      ghost var before := Conns();
      var removed := sys.Remove(pConn.sock);
      sys.CloseSocket(pConn.sock);
      pConn.sock, pConn.peer := -1, NO_PEER;
      assert Conns() == before[pConn := pConn.Value()];
    }

    method Release(pConn: StunConnection)
      requires pool.Linked() && pConn in pool.All && pConn !in pool.Free && pConn.sock == -1
      modifies pConn`pNext, pool
      ensures pool.Linked() && pool.All == old(pool.All)
      ensures var s := old(Snap()); Snap() == s.(free := [pConn] + s.free)
    {
      ghost var before := Conns();
      pool.ReleaseConnection(pConn);
      assert Conns() == before;
    }

    /** The descriptor table a hash table stands for. */
    ghost function IdOf(connMap: ConnectionMap): (id: int)
      requires connMap == hashConnections1 || connMap == hashConnections2
      ensures id == 1 || id == 2
    {
      if connMap == hashConnections1 then 1 else 2
    }

    ghost predicate Listed(pConn: StunConnection, connMap: ConnectionMap)
      requires connMap == hashConnections1 || connMap == hashConnections2
      reads this, sys, pool, pool.All, hashConnections1, hashConnections2
    {
      pConn in pool.All && Snap().InTable(pConn) && Snap().conns[pConn].idHashTable == IdOf(connMap)
    }

    /** The first entry a table lists. The search may rebuild the table's index, nothing else. */
    method Peek(connMap: ConnectionMap) returns (item: Option<EL.Item<int, StunConnection?>>)
      requires Tidy() && (connMap == hashConnections1 || connMap == hashConnections2)
      modifies connMap.Repr
      ensures Tidy() && Snap() == old(Snap()) && connMap.size == old(connMap.size)
      ensures var t := Snap().Table(IdOf(connMap));
              if item.None? then t == map[] else item.value.key in t && t[item.value.key] == item.value.value
    {
      ghost var before := Snap();
      item := PeekTable(connMap);
      assert Snap() == before;
    }

    method PeekTable(connMap: ConnectionMap) returns (item: Option<EL.Item<int, StunConnection?>>)
      requires TablesOk() && (connMap == hashConnections1 || connMap == hashConnections2)
      modifies connMap.Repr
      ensures TablesOk() && connMap.size == old(connMap.size)
      ensures hashConnections1.Entries == old(hashConnections1.Entries)
      ensures hashConnections2.Entries == old(hashConnections2.Entries)
      ensures var t := EL.AsMap(connMap.Entries);
              if item.None? then t == map[] else item.value.key in t && t[item.value.key] == item.value.value
    {
      if connMap == hashConnections1 {
        item := HeadBeside(hashConnections1, hashConnections2, maxConnections);
      } else {
        item := HeadBeside(hashConnections2, hashConnections1, maxConnections);
      }
    }

    /** The first connection a table lists, if it has any. */
    method First(connMap: ConnectionMap) returns (pConn: StunConnection?)
      requires Valid() && (connMap == hashConnections1 || connMap == hashConnections2)
      modifies connMap.Repr
      ensures Valid() && Snap() == old(Snap()) && connMap.size == old(connMap.size)
      ensures if pConn == null then Snap().Table(IdOf(connMap)) == map[] else Listed(pConn, connMap)
    {
      var item := Peek(connMap);
      if item.None? {
        pConn := null;
      } else {
        pConn := item.value.value;
        assert Tabled(Snap(), item.value.key, pConn, IdOf(connMap));
      }
    }

    /** One turn of CloseAllConnections. */
    method CloseListed(pConn: StunConnection, connMap: ConnectionMap, ghost start: Server<StunConnection?>)
      requires Valid() && (connMap == hashConnections1 || connMap == hashConnections2)
      requires Listed(pConn, connMap) && OthersSpared(start, Snap(), IdOf(connMap))
      modifies pConn, pool, sys`watched, sys`open, hashConnections1.Repr, hashConnections2.Repr
      ensures Valid() && Snap() == Closed(old(Snap()), pConn) && connMap.size + 1 == old(connMap.size)
      ensures pool.All == old(pool.All) && OthersSpared(start, Snap(), IdOf(connMap))
      ensures Snap().Table(3 - IdOf(connMap)) == old(Snap().Table(3 - IdOf(connMap)))
      ensures SameListeners(old(Snap()), Snap())
    {
      ghost var before := Snap();
      ClosedListeners(before, pConn);
      ClosedSpares(start, before, pConn, IdOf(connMap));
      TableSizes();
      ClosedKeeps(before, handler, None, None, pConn);
      ClosedInTable(before, IdOf(connMap), pConn);
      PlaceOf(before, None, pConn);
      var verified := CloseConnection(pConn, None);
      assert verified;
      TableSizes();
      WithoutSize(before.Table(IdOf(connMap)), before.conns[pConn].sock);
    }

    lemma TableSizes()
      requires TablesOk()
      ensures hashConnections1.size == |T1()| && hashConnections2.size == |T2()|
    {
      assert TableOk(hashConnections1, maxConnections) && TableOk(hashConnections2, maxConnections);
      EL.AsMapSize(hashConnections1.Entries);
      EL.AsMapSize(hashConnections2.Entries);
    }

    /** Closes every connection of a table. It terminates because each one it finds is under its own socket in the table
        it names, so that closing it takes it out. */
    method CloseAllConnections(connMap: ConnectionMap)
      requires Valid() && (connMap == hashConnections1 || connMap == hashConnections2)
      modifies pool, pool.All, sys`watched, sys`open, hashConnections1.Repr, hashConnections2.Repr
      ensures Valid() && pool.All == old(pool.All)
      ensures Snap().Table(IdOf(connMap)) == map[]
      ensures Snap().Table(3 - IdOf(connMap)) == old(Snap().Table(3 - IdOf(connMap)))
      ensures SameListeners(old(Snap()), Snap()) && OthersSpared(old(Snap()), Snap(), IdOf(connMap))
    {
      ghost var start := Snap();
      var pConn := First(connMap);
      while pConn != null
        invariant Valid() && pool.All == old(pool.All)
        invariant if pConn == null then Snap().Table(IdOf(connMap)) == map[] else Listed(pConn, connMap)
        invariant Snap().Table(3 - IdOf(connMap)) == old(Snap().Table(3 - IdOf(connMap)))
        invariant SameListeners(start, Snap()) && OthersSpared(start, Snap(), IdOf(connMap))
        decreases connMap.size
      {
        pConn := CloseNext(pConn, connMap, start);
      }
    }

    method CloseNext(pConn: StunConnection, connMap: ConnectionMap, ghost start: Server<StunConnection?>)
      returns (next: StunConnection?)
      requires Valid() && (connMap == hashConnections1 || connMap == hashConnections2)
      requires Listed(pConn, connMap) && OthersSpared(start, Snap(), IdOf(connMap)) && SameListeners(start, Snap())
      modifies pConn, pool, sys`watched, sys`open, hashConnections1.Repr, hashConnections2.Repr
      ensures Valid() && connMap.size < old(connMap.size) && pool.All == old(pool.All)
      ensures if next == null then Snap().Table(IdOf(connMap)) == map[] else Listed(next, connMap)
      ensures Snap().Table(3 - IdOf(connMap)) == old(Snap().Table(3 - IdOf(connMap)))
      ensures OthersSpared(start, Snap(), IdOf(connMap)) && SameListeners(start, Snap())
    {
      CloseListed(pConn, connMap, start);
      next := First(connMap);
    }

    /** The connections of a table are closed and back in the pool. */
    ghost predicate AllClosed(table: map<int, StunConnection?>)
      reads pool, pool.All
    {
      forall k | k in table :: table[k] in pool.All && table[k] in pool.Free && table[k].sock == -1
    }

    /** Every 60 seconds at most, the old table is emptied and the new one becomes the old one. `now` is the time the
        decision is made at. */
    method SweepDeadConnections() returns (swept: bool, now: nat)
      requires Valid()
      modifies `pNewConnList, `pOldConnList, `timeLastSweep, `sweeps
      modifies pool, pool.All, sys`watched, sys`open, sys`clock, hashConnections1.Repr, hashConnections2.Repr
      ensures Valid() && pool.All == old(pool.All) && sys.clock >= now >= old(sys.clock)
      ensures swept <==> now >= old(timeLastSweep) + SWEEP_TIMEOUT_SECONDS
      ensures !swept ==> Snap() == old(Snap()).(clock := now)
      ensures swept ==> sweeps == old(sweeps) + 1 && Snap().New() == map[] && Snap().Old() == old(Snap().New())
      ensures swept ==> OldFor60Seconds(old(Snap()), now) && AllClosed(old(Snap()).Old())
      ensures SameListeners(old(Snap()), Snap()) && SweepSpares(old(Snap()), Snap(), swept)
    {
      ghost var start := Snap();
      OldAreDue(start, handler);
      now := LookAtClock();
      swept := now >= timeLastSweep + SWEEP_TIMEOUT_SECONDS;
      NothingSwept(Snap());
      if swept {
        Sweep();
      }
      SweepSparesLater(start, Snap(), now, swept);
    }

    method LookAtClock() returns (now: nat)
      requires Valid()
      modifies sys`clock
      ensures Valid() && now >= old(sys.clock) && Snap() == old(Snap()).(clock := now)
    {
      ghost var before := Snap();
      now := sys.Time();
      ClockKeeps(before, handler, None, None, now);
    }

    method Sweep()
      requires Valid()
      modifies `pNewConnList, `pOldConnList, `timeLastSweep, `sweeps
      modifies pool, pool.All, sys`watched, sys`open, sys`clock, hashConnections1.Repr, hashConnections2.Repr
      ensures Valid() && pool.All == old(pool.All) && sweeps == old(sweeps) + 1 && SameListeners(old(Snap()), Snap())
      ensures Snap().New() == map[] && Snap().Old() == old(Snap().New()) && AllClosed(old(Snap()).Old())
      ensures SweepSpares(old(Snap()), Snap(), true) && sys.clock >= old(sys.clock)
    {
      ghost var start := Snap();
      CloseAllConnections(pOldConnList);
      ghost var middle := Snap();
      TurnOver();
      SweptAway(start);
      SweptSpares(start, middle, Snap(), sys.clock);
    }

    /** The old table, empty now, becomes the new one. */
    method TurnOver()
      requires Valid() && Snap().Old() == map[]
      modifies `pNewConnList, `pOldConnList, `timeLastSweep, `sweeps, sys`clock
      ensures Valid() && Snap() == Swapped(old(Snap()), sys.clock) && sys.clock >= old(sys.clock)
    {
      ghost var before := Snap();
      Swap();
      assert Snap() == Swapped(before, sys.clock);
      SwappedKeeps(before, handler, sys.clock);
    }

    lemma SweptAway(start: Server<StunConnection?>)
      requires Valid() && AccountedFor(start, None) && start.conns.Keys == Snap().conns.Keys
      requires Snap().New() == map[] && Snap().Old() == start.New()
      ensures AllClosed(start.Old())
    {
      forall k | k in start.Old() ensures var c := start.Old()[k]; c in pool.All && c in pool.Free && c.sock == -1 {
        assert Tabled(start, k, start.Old()[k], if start.newIs1 then 2 else 1);
        SweepIgnoresActivity(start, Snap(), start.Old()[k]);
      }
    }

    method Swap()
      requires Tidy()
      modifies `pNewConnList, `pOldConnList, `timeLastSweep, `sweeps, sys`clock
      ensures Tidy() && sys.clock >= old(sys.clock)
      ensures Conns() == old(Conns()) && T1() == old(T1()) && T2() == old(T2()) && timeLastSweep == sys.clock
      ensures pNewConnList == old(pOldConnList) && sweeps == old(sweeps) + 1
    {
      ghost var before := Conns();
      timeLastSweep := sys.Time();
      pNewConnList, pOldConnList := pOldConnList, pNewConnList;
      sweeps := sweeps + 1;
      assert Conns() == before;
      assert forall t | t in {hashConnections1, hashConnections2} :: TableOk(t, maxConnections);
    }

    // ---- writing ----

    /** One call of send(). */
    method SendSome(pConn: StunConnection) returns (r: SendResult)
      requires pConn.sock in sys.sent && pConn.txCount < |pConn.output|
      modifies sys`heard
      modifies pConn`txCount, sys`sent
      ensures sys.heard == old(sys.heard).Then(ToSend(pConn.sock, r))
      ensures r.SentBytes? ==> 0 < r.count <= |pConn.output| - old(pConn.txCount)
      ensures pConn.txCount == old(pConn.txCount) + if r.SentBytes? then r.count else 0
      ensures sys.sent == if r.SentBytes? then
                            old(sys.sent)[pConn.sock := old(sys.sent)[pConn.sock]
                                          + pConn.output[old(pConn.txCount)..][..r.count]]
                          else old(sys.sent)
    {
      var data := pConn.output[pConn.txCount..];
      r := sys.Send(pConn.sock, data);
      if r.SentBytes? {
        pConn.txCount := pConn.txCount + r.count;
      }
    }

    method SendTidily(pConn: StunConnection) returns (r: SendResult)
      requires Tidy() && pConn in pool.All && pConn !in pool.Free && pConn.sock in sys.sent
      requires pConn.txCount < |pConn.output|
      modifies sys`heard
      modifies pConn`txCount, sys`sent
      ensures Tidy() && sys.heard == old(sys.heard).Then(ToSend(pConn.sock, r))
      ensures r.SentBytes? ==> 0 < r.count <= |pConn.output| - old(pConn.txCount)
      ensures Snap() == if r.SentBytes? then SentMore(old(Snap()), pConn, r.count) else old(Snap())
    {
      ghost var before := Conns();
      r := SendSome(pConn);
      assert Conns() == before[pConn := pConn.Value()];
    }

    /** The reply is out: back to reading, unless the poller refuses. */
    method Restart(pConn: StunConnection) returns (ok: bool)
      requires Tidy() && pConn in pool.All && pConn !in pool.Free && pConn.sock in sys.watched
      modifies sys`heard
      modifies pConn`fed, pConn`state, pConn`txCount, pConn`served, sys`watched
      ensures Tidy() && sys.heard == old(sys.heard).Then(ToWatch(pConn.sock, ok))
      ensures var s1 := Restarted(old(Snap()), pConn);
              Snap() == if ok then s1 else s1.(watched := old(sys.watched))
    {
      ghost var before := Conns();
      pool.ResetConnection(pConn);
      ok := sys.ChangeEventSet(pConn.sock, EPOLL_CLIENT_READ_EVENT_SET);
      assert Conns() == before[pConn := pConn.Value()];
    }

    /** How far the work on a connection has come: it alone has changed since `before`, and unless something failed it
        is at rest again. */
    ghost predicate Working(before: Server<StunConnection?>, pConn: StunConnection, failed: bool)
      reads this, sys, pool, pool.All, hashConnections1, hashConnections2
    {
      && pConn in pool.All && Touched(before, Snap(), pConn) && Snap().InTable(pConn)
      && Sane(Snap(), handler, None, if failed then Some(pConn) else None)
      && Reads(Snap(), handler, Snap().conns[pConn])
    }

    /** The work on a connection has been ended by an answer that came after `before`. */
    ghost predicate Stopped(before: Heard, pConn: StunConnection, closed: bool)
      reads sys, pConn
    {
      EndedBy(before, sys.heard, handler, pConn.Value(), closed)
    }

    /** One send(). When the whole reply is out the connection is not at rest. */
    method SendOne(pConn: StunConnection) returns (r: SendResult)
      requires Tidy() && Working(Snap(), pConn, false) && pConn.state == Transmitting
      modifies sys`heard
      modifies pConn`txCount, sys`sent
      ensures Tidy() && sys.heard == old(sys.heard).Then(ToSend(pConn.sock, r))
      ensures Working(old(Snap()), pConn, r.SentBytes? && pConn.txCount >= |pConn.output|)
      ensures r.SentBytes? ==>
                Replied(Snap(), handler, pConn) && old(pConn.txCount) < pConn.txCount <= |pConn.output|
    {
      ghost var before := Snap();
      ReadyToSend(before, handler, pConn);
      r := SendTidily(pConn);
      if r.SentBytes? {
        SentMoreKeeps(before, handler, pConn, r.count);
      }
    }

    /** One turn of the loop in WriteBytesForConnection. */
    method WriteTurn(pConn: StunConnection) returns (more: bool, failed: bool)
      requires Tidy() && Working(Snap(), pConn, false) && pConn.state == Transmitting
      modifies sys`heard
      modifies pConn`fed, pConn`state, pConn`txCount, pConn`served, sys`watched, sys`sent
      ensures Tidy() && Working(old(Snap()), pConn, failed)
      ensures old(sys.heard).count < sys.heard.count && (!more ==> Stopped(old(sys.heard), pConn, failed))
      ensures more ==> !failed && pConn.state == Transmitting && pConn.output == old(pConn.output)
                       && old(pConn.txCount) < pConn.txCount <= |pConn.output|
    {
      ghost var before := Snap();
      var sent := SendOne(pConn);
      more, failed := sent.SentBytes?, sent.SendFailed?;
      if sent.SentBytes? {
        if pConn.txCount >= |pConn.output| {
          more := false;
          ghost var middle := Snap();
          ghost var heard := sys.heard;
          var ok := FinishReply(pConn);
          failed := !ok;
          TouchedTwice(before, middle, Snap(), pConn);
          WatchEnds(old(sys.heard), heard, sys.heard, handler, pConn.Value(), ok);
        }
      } else {
        RestingReads(Snap(), handler, pConn);
        SendEnds(old(sys.heard), sys.heard, handler, pConn.Value(), sent);
      }
    }

    method FinishReply(pConn: StunConnection) returns (ok: bool)
      requires Tidy() && Working(Snap(), pConn, true) && Replied(Snap(), handler, pConn)
      requires pConn.txCount == |pConn.output|
      modifies sys`heard
      modifies pConn`fed, pConn`state, pConn`txCount, pConn`served, sys`watched
      ensures Tidy() && Working(old(Snap()), pConn, !ok)
      ensures sys.heard == old(sys.heard).Then(ToWatch(pConn.sock, ok))
      ensures pConn.state == Receiving && pConn.served == old(pConn.served + [pConn.fed])
    {
      ghost var before := Snap();
      PlaceOf(before, None, pConn);
      RestartedKeeps(before, handler, pConn);
      RestartedUnwatchedKeeps(before, handler, pConn);
      ok := Restart(pConn);
    }

    /** A connection whose work failed is closed, which leaves everything at rest. */
    method CloseFailed(pConn: StunConnection)
      requires Tidy() && Working(Snap(), pConn, true)
      modifies pConn, pool, sys`watched, sys`open, hashConnections1.Repr, hashConnections2.Repr
      ensures Valid() && pool.All == old(pool.All) && Snap() == Closed(old(Snap()), pConn)
    {
      ClosedKeeps(Snap(), handler, None, Some(pConn), pConn);
      var verified := CloseConnection(pConn, None);
    }

    /** The same, told of the state the work ended in. */
    ghost predicate WorkTold(before: Heard, work: Server<StunConnection?>, pConn: StunConnection, closed: bool)
      reads sys
    {
      && pConn in work.conns && Reads(work, handler, work.conns[pConn])
      && EndedBy(before, sys.heard, handler, work.conns[pConn], closed)
    }

    /** Sends what the socket takes of the reply. The connection is closed on an error; otherwise it is left waiting to
        send the rest, or reading again. */
    method WriteBytesForConnection(pConn: StunConnection) returns (closed: bool, ghost work: Server<StunConnection?>)
      requires Valid() && Working(Snap(), pConn, false) && pConn.state == Transmitting
      modifies sys`heard
      modifies pConn, pool, sys`watched, sys`sent, sys`open, hashConnections1.Repr, hashConnections2.Repr
      ensures Valid() && pool.All == old(pool.All) && Touched(old(Snap()), work, pConn)
      ensures Snap() == if closed then Closed(work, pConn) else work
      ensures WorkTold(old(sys.heard), work, pConn, closed)
    {
      closed := WriteAll(pConn);
      work := Conclude(pConn, closed, old(Snap()), old(sys.heard));
    }

    /** A connection whose work failed is closed. */
    method Conclude(pConn: StunConnection, closed: bool, ghost before: Server<StunConnection?>, ghost heard: Heard)
      returns (ghost work: Server<StunConnection?>)
      requires Tidy() && Working(before, pConn, closed) && Stopped(heard, pConn, closed)
      modifies pConn, pool, sys`watched, sys`open, hashConnections1.Repr, hashConnections2.Repr
      ensures Valid() && pool.All == old(pool.All) && Touched(before, work, pConn)
      ensures Snap() == if closed then Closed(work, pConn) else work
      ensures WorkTold(heard, work, pConn, closed)
    {
      work := Snap();
      TellWork(pConn, closed, before, heard);
      CloseIf(pConn, closed);
    }

    method CloseIf(pConn: StunConnection, closed: bool)
      requires Tidy() && Working(Snap(), pConn, closed)
      modifies pConn, pool, sys`watched, sys`open, hashConnections1.Repr, hashConnections2.Repr
      ensures Valid() && pool.All == old(pool.All)
      ensures Snap() == if closed then Closed(old(Snap()), pConn) else old(Snap())
    {
      if closed {
        CloseFailed(pConn);
      }
    }

    lemma TellWork(pConn: StunConnection, closed: bool, before: Server<StunConnection?>, heard: Heard)
      requires Working(before, pConn, closed) && Stopped(heard, pConn, closed)
      ensures WorkTold(heard, Snap(), pConn, closed) && Working(Snap(), pConn, closed)
    {
      assert Snap().conns[pConn] == pConn.Value();
    }

    method WriteAll(pConn: StunConnection) returns (failed: bool)
      requires Tidy() && Working(Snap(), pConn, false) && pConn.state == Transmitting
      modifies sys`heard
      modifies pConn`fed, pConn`state, pConn`txCount, pConn`served, sys`watched, sys`sent
      ensures Tidy() && Working(old(Snap()), pConn, failed) && Stopped(old(sys.heard), pConn, failed)
    {
      failed := false;
      var more := true;
      while more
        invariant Tidy() && Working(old(Snap()), pConn, failed) && old(sys.heard).count <= sys.heard.count
        invariant more ==> !failed && pConn.state == Transmitting
        invariant !more ==> Stopped(old(sys.heard), pConn, failed)
        decreases more, |pConn.output| - pConn.txCount
      {
        ghost var before := Snap();
        more, failed := WriteTurn(pConn);
        TouchedTwice(old(Snap()), before, Snap(), pConn);
      }
    }

    // ---- reading ----

    /** One call of recv(), and AddBytes on what it returns. */
    method RecvSome(pConn: StunConnection) returns (r: RecvResult)
      requires pConn.sock in sys.received && Needed(pConn.fed, true) > 0
      modifies sys`heard
      modifies pConn`fed, sys`received
      ensures sys.heard == old(sys.heard).Then(ToRecv(pConn.sock, r))
      ensures r.Bytes? ==> 0 < |r.data| <= Needed(old(pConn.fed), true)
      ensures pConn.fed == if r.Bytes? then old(pConn.fed) + r.data else old(pConn.fed)
      ensures sys.received == if r.Bytes? then old(sys.received)[pConn.sock := old(sys.received)[pConn.sock] + r.data]
                              else old(sys.received)
    {
      var bytesneeded := Needed(pConn.fed, true);
      r := sys.Recv(pConn.sock, bytesneeded);
      if r.Bytes? {
        pConn.fed := pConn.fed + r.data;
      }
    }

    method RecvTidily(pConn: StunConnection) returns (r: RecvResult)
      requires Tidy() && pConn in pool.All && pConn !in pool.Free
      requires pConn.sock in sys.received && Needed(pConn.fed, true) > 0
      modifies sys`heard
      modifies pConn`fed, sys`received
      ensures Tidy() && sys.heard == old(sys.heard).Then(ToRecv(pConn.sock, r))
      ensures r.Bytes? ==> 0 < |r.data| <= Needed(old(pConn.fed), true)
      ensures Snap() == if r.Bytes? then ReceivedMore(old(Snap()), pConn, r.data) else old(Snap())
    {
      ghost var before := Conns();
      r := RecvSome(pConn);
      assert Conns() == before[pConn := pConn.Value()];
    }

    /** The handler's reply goes into the output buffer, and the socket is watched for output, unless the poller
        refuses. */
    method StartAnswer(pConn: StunConnection, reply: seq<byte>) returns (ok: bool)
      requires Tidy() && pConn in pool.All && pConn !in pool.Free && pConn.sock in sys.watched
      modifies sys`heard
      modifies pConn`state, pConn`output, sys`watched
      ensures Tidy() && sys.heard == old(sys.heard).Then(ToWatch(pConn.sock, ok))
      ensures var s1 := Answering(old(Snap()), pConn, reply);
              Snap() == if ok then s1 else s1.(watched := old(sys.watched))
    {
      Load(pConn, reply);
      ok := WatchForOutput(pConn.sock);
    }

    method WatchForOutput(sock: int) returns (ok: bool)
      requires Tidy() && sock in sys.watched
      modifies sys`heard
      modifies sys`watched
      ensures Tidy() && sys.heard == old(sys.heard).Then(ToWatch(sock, ok))
      ensures Snap() == old(Snap()).(watched := if ok then old(sys.watched)[sock := EPOLL_CLIENT_WRITE_EVENT_SET]
                                                else old(sys.watched))
    {
      ok := sys.ChangeEventSet(sock, EPOLL_CLIENT_WRITE_EVENT_SET);
    }

    method Load(pConn: StunConnection, reply: seq<byte>)
      requires Tidy() && pConn in pool.All && pConn !in pool.Free
      modifies pConn`state, pConn`output
      ensures Tidy() && Snap() == old(Snap()).(conns := Answering(old(Snap()), pConn, reply).conns)
    {
      ghost var before := Conns();
      pConn.state := Transmitting;
      pConn.output := reply;
      assert Conns() == before[pConn := pConn.Value()];
    }

    method ReplyTidily(peer: Peer, fed: seq<byte>) returns (reply: Option<seq<byte>>)
      requires Serving() && Tidy() && Verdict(fed, true) == BodyValidated
      ensures Tidy() && Snap() == old(Snap()) && reply == Response(handler, peer, fed) && reply != Some([])
    {
      reply := Reply(tsa, auth, crypto, hash, peer, fed);
    }

    method CheckTidily(addr: Address) returns (allowed: bool)
      requires Tidy()
      modifies sys`heard
      ensures Tidy() && Snap() == old(Snap()) && sys.heard == old(sys.heard).Then(ToCheck(addr, allowed))
    {
      allowed := sys.Check(addr);
    }

    /** A complete message: rate check, handler, and the switch to writing. It fails exactly if one of the three
        does. */
    method AnswerMessage(pConn: StunConnection, ghost before: Server<StunConnection?>) returns (failed: bool)
      requires Serving() && Tidy() && Working(before, pConn, true) && Listening(Snap(), handler, pConn)
      requires Verdict(pConn.fed, true) == BodyValidated
      modifies sys`heard
      modifies pConn`state, pConn`output, sys`watched
      ensures Tidy() && Working(before, pConn, failed)
      ensures AnsweredBy(old(sys.heard), sys.heard, pConn.peer.addrRemote, pConn.sock,
                         Response(handler, pConn.peer, pConn.fed), failed)
      ensures !failed ==> pConn.state == Transmitting && Some(pConn.output) == Response(handler, pConn.peer, pConn.fed)
    {
      var allowed := CheckTidily(pConn.peer.addrRemote);
      failed := true;
      if allowed {
        failed := AnswerAllowed(pConn, before);
      }
    }

    method AnswerAllowed(pConn: StunConnection, ghost before: Server<StunConnection?>) returns (failed: bool)
      requires Serving() && Tidy() && Working(before, pConn, true) && Listening(Snap(), handler, pConn)
      requires Verdict(pConn.fed, true) == BodyValidated
      modifies sys`heard
      modifies pConn`state, pConn`output, sys`watched
      ensures Tidy() && Working(before, pConn, failed)
      ensures AllowedBy(old(sys.heard), sys.heard, pConn.sock, Response(handler, pConn.peer, pConn.fed), failed)
      ensures !failed ==> pConn.state == Transmitting && Some(pConn.output) == Response(handler, pConn.peer, pConn.fed)
    {
      var reply := Compose(pConn, before);
      failed := Deliver(pConn, reply, before);
    }

    method Deliver(pConn: StunConnection, reply: Option<seq<byte>>, ghost before: Server<StunConnection?>)
      returns (failed: bool)
      requires Tidy() && Working(before, pConn, true) && Listening(Snap(), handler, pConn)
      requires Verdict(pConn.fed, true) == BodyValidated
      requires reply == Response(handler, pConn.peer, pConn.fed) && reply != Some([])
      modifies sys`heard
      modifies pConn`state, pConn`output, sys`watched
      ensures Tidy() && Working(before, pConn, failed)
      ensures AllowedBy(old(sys.heard), sys.heard, pConn.sock, reply, failed)
      ensures !failed ==> pConn.state == Transmitting && Some(pConn.output) == reply
    {
      failed := true;
      if reply.Some? {
        failed := SwitchOn(pConn, reply.value, before);
      }
    }

    method Compose(pConn: StunConnection, ghost before: Server<StunConnection?>) returns (reply: Option<seq<byte>>)
      requires Serving() && Tidy() && Working(before, pConn, true) && Listening(Snap(), handler, pConn)
      requires Verdict(pConn.fed, true) == BodyValidated
      ensures Tidy() && Snap() == old(Snap()) && Working(before, pConn, true) && Listening(Snap(), handler, pConn)
      ensures reply == Response(handler, pConn.peer, pConn.fed) && reply != Some([])
    {
      reply := ReplyTidily(pConn.peer, pConn.fed);
    }

    /** The switch to writing, continuing the work on a connection. */
    method SwitchOn(pConn: StunConnection, reply: seq<byte>, ghost before: Server<StunConnection?>)
      returns (failed: bool)
      requires Tidy() && Working(before, pConn, true) && Listening(Snap(), handler, pConn)
      requires Verdict(pConn.fed, true) == BodyValidated && Response(handler, pConn.peer, pConn.fed) == Some(reply)
      requires reply != []
      modifies sys`heard
      modifies pConn`state, pConn`output, sys`watched
      ensures Tidy() && Working(before, pConn, failed) && pConn.state == Transmitting && pConn.output == reply
      ensures sys.heard == old(sys.heard).Then(ToWatch(pConn.sock, !failed))
    {
      ghost var middle := Snap();
      failed := SwitchToWriting(pConn, reply);
      WorkingOn(before, middle, pConn, failed);
    }

    lemma WorkingOn(before: Server<StunConnection?>, middle: Server<StunConnection?>, pConn: StunConnection,
                    failed: bool)
      requires Touched(before, middle, pConn) && Working(middle, pConn, failed)
      ensures Working(before, pConn, failed)
    {
      TouchedTwice(before, middle, Snap(), pConn);
    }

    method SwitchToWriting(pConn: StunConnection, reply: seq<byte>) returns (failed: bool)
      requires Tidy() && Working(Snap(), pConn, true) && Listening(Snap(), handler, pConn)
      requires Verdict(pConn.fed, true) == BodyValidated && Response(handler, pConn.peer, pConn.fed) == Some(reply)
      requires reply != []
      modifies sys`heard
      modifies pConn`state, pConn`output, sys`watched
      ensures Tidy() && Working(old(Snap()), pConn, failed) && pConn.state == Transmitting && pConn.output == reply
      ensures sys.heard == old(sys.heard).Then(ToWatch(pConn.sock, !failed))
    {
      ghost var before := Snap();
      PlaceOf(before, None, pConn);
      AnsweringKeeps(before, handler, pConn, reply);
      AnsweringUnwatchedKeeps(before, handler, pConn, reply);
      var ok := StartAnswer(pConn, reply);
      failed := !ok;
    }

    /** One recv(). With bytes that end a message, or are none, the connection is not at rest. */
    method RecvOne(pConn: StunConnection) returns (r: RecvResult)
      requires Tidy() && Working(Snap(), pConn, false) && pConn.state == Receiving
      modifies sys`heard
      modifies pConn`fed, sys`received
      ensures Tidy() && sys.heard == old(sys.heard).Then(ToRecv(pConn.sock, r))
      ensures Working(old(Snap()), pConn, r.Bytes? && !Unfinished(pConn.fed))
      ensures r.Bytes? ==> Listening(Snap(), handler, pConn)
      ensures r.Bytes? && Unfinished(pConn.fed) ==>
                Stage(pConn.fed) < old(Stage(pConn.fed))
                || (Stage(pConn.fed) == old(Stage(pConn.fed))
                    && Needed(pConn.fed, true) < old(Needed(pConn.fed, true)))
    {
      ghost var before := Snap();
      ReadyToReceive(before, handler, pConn);
      r := RecvTidily(pConn);
      if r.Bytes? {
        ReceivedMoreKeeps(before, handler, pConn, r.data);
        if Unfinished(pConn.fed) {
          ReadingAdvances(old(pConn.fed), r.data);
        }
      }
    }

    /** One turn of the loop in ReceiveBytesForConnection. */
    method ReadTurn(pConn: StunConnection) returns (more: bool, failed: bool)
      requires Serving() && Tidy() && Working(Snap(), pConn, false) && pConn.state == Receiving
      modifies sys`heard
      modifies pConn`fed, pConn`state, pConn`output, sys`watched, sys`received
      ensures Tidy() && Working(old(Snap()), pConn, failed) && old(sys.heard).count < sys.heard.count
      ensures !more && (failed || pConn.state == Receiving) ==> Stopped(old(sys.heard), pConn, failed)
      ensures !failed ==> pConn.state == Receiving || (pConn.state == Transmitting && !more)
      ensures more ==> !failed && pConn.state == Receiving
      ensures more ==> Stage(pConn.fed) < old(Stage(pConn.fed))
                       || (Stage(pConn.fed) == old(Stage(pConn.fed))
                           && Needed(pConn.fed, true) < old(Needed(pConn.fed, true)))
    {
      ghost var before := Snap();
      var r := RecvOne(pConn);
      more, failed := false, r.RecvEnded?;
      if !r.Bytes? {
        RestingReads(Snap(), handler, pConn);
        RecvEnds(old(sys.heard), sys.heard, handler, pConn.Value(), r);
      } else if Unfinished(pConn.fed) {
        more := true;
      } else {
        failed := Digest(pConn, before, old(sys.heard), r);
      }
    }

    /** What the bytes just received have made complete: a message, or none. */
    method Digest(pConn: StunConnection, ghost before: Server<StunConnection?>, ghost heard: Heard, ghost r: RecvResult)
      returns (failed: bool)
      requires Serving() && Tidy() && Working(before, pConn, true) && Listening(Snap(), handler, pConn)
      requires !Unfinished(pConn.fed) && r.Bytes? && sys.heard == heard.Then(ToRecv(pConn.sock, r))
      modifies sys`heard
      modifies pConn`state, pConn`output, sys`watched
      ensures Tidy() && Working(before, pConn, failed) && heard.count < sys.heard.count
      ensures failed ==> Stopped(heard, pConn, true)
      ensures !failed ==> pConn.state == Transmitting
    {
      var readerstate := Verdict(pConn.fed, true);
      if readerstate == ParseError {
        failed := true;
        RecvEnds(heard, sys.heard, handler, pConn.Value(), r);
      } else {
        ghost var received := sys.heard;
        failed := AnswerOrStop(pConn, before);
        if failed {
          EndsLater(heard, received, sys.heard, handler, pConn.Value(), true);
        }
      }
    }

    method AnswerOrStop(pConn: StunConnection, ghost before: Server<StunConnection?>) returns (failed: bool)
      requires Serving() && Tidy() && Working(before, pConn, true) && Listening(Snap(), handler, pConn)
      requires Verdict(pConn.fed, true) == BodyValidated
      modifies sys`heard
      modifies pConn`state, pConn`output, sys`watched
      ensures Tidy() && Working(before, pConn, failed) && old(sys.heard).count < sys.heard.count
      ensures failed ==> Stopped(old(sys.heard), pConn, true)
      ensures !failed ==> pConn.state == Transmitting
    {
      failed := AnswerMessage(pConn, before);
      RefusalStops(old(sys.heard), pConn, failed);
    }

    lemma RefusalStops(before: Heard, pConn: StunConnection, failed: bool)
      requires Verdict(pConn.fed, true) == BodyValidated
      requires AnsweredBy(before, sys.heard, pConn.peer.addrRemote, pConn.sock,
                          Response(handler, pConn.peer, pConn.fed), failed)
      ensures before.count < sys.heard.count && (failed ==> Stopped(before, pConn, true))
    {
      if failed {
        RefusalEnds(before, sys.heard, handler, pConn.Value());
      }
    }

    /** Reads until the socket has no more, a message is complete or something fails; a complete message is answered and
        as much of the reply as possible is sent. */
    method ReceiveBytesForConnection(pConn: StunConnection) returns (closed: bool, ghost work: Server<StunConnection?>)
      requires Serving() && Valid() && Working(Snap(), pConn, false) && pConn.state == Receiving
      modifies sys`heard
      modifies pConn, pool, sys`watched, sys`sent, sys`received, sys`open, hashConnections1.Repr, hashConnections2.Repr
      ensures Valid() && pool.All == old(pool.All) && Touched(old(Snap()), work, pConn)
      ensures Snap() == if closed then Closed(work, pConn) else work
      ensures WorkTold(old(sys.heard), work, pConn, closed)
    {
      closed := ReadAndWrite(pConn);
      work := Conclude(pConn, closed, old(Snap()), old(sys.heard));
    }

    method ReadAndWrite(pConn: StunConnection) returns (failed: bool)
      requires Serving() && Valid() && Working(Snap(), pConn, false) && pConn.state == Receiving
      modifies sys`heard
      modifies pConn`fed, pConn`state, pConn`output, pConn`txCount, pConn`served, sys`watched, sys`sent, sys`received
      ensures Tidy() && Working(old(Snap()), pConn, failed) && Stopped(old(sys.heard), pConn, failed)
    {
      failed := ReadAll(pConn);
      if !failed && pConn.state == Transmitting {
        failed := WriteOn(pConn, old(Snap()));
      }
    }

    /** WriteBytesForConnection, continuing the work on a connection. */
    method WriteOn(pConn: StunConnection, ghost before: Server<StunConnection?>) returns (failed: bool)
      requires Tidy() && Working(before, pConn, false) && pConn.state == Transmitting
      modifies sys`heard
      modifies pConn`fed, pConn`state, pConn`txCount, pConn`served, sys`watched, sys`sent
      ensures Tidy() && Working(before, pConn, failed) && Stopped(old(sys.heard), pConn, failed)
    {
      ghost var middle := Snap();
      failed := WriteAll(pConn);
      TouchedTwice(before, middle, Snap(), pConn);
    }

    method ReadAll(pConn: StunConnection) returns (failed: bool)
      requires Serving() && Tidy() && Working(Snap(), pConn, false) && pConn.state == Receiving
      modifies sys`heard
      modifies pConn`fed, pConn`state, pConn`output, sys`watched, sys`received
      ensures Tidy() && Working(old(Snap()), pConn, failed) && old(sys.heard).count < sys.heard.count
      ensures failed || pConn.state == Receiving ==> Stopped(old(sys.heard), pConn, failed)
      ensures !failed ==> pConn.state == Receiving || pConn.state == Transmitting
    {
      failed := false;
      var more := true;
      while more
        invariant Tidy() && Working(old(Snap()), pConn, failed) && old(sys.heard).count <= sys.heard.count
        invariant !more ==> old(sys.heard).count < sys.heard.count
        invariant !more && (failed || pConn.state == Receiving) ==> Stopped(old(sys.heard), pConn, failed)
        invariant more ==> !failed && pConn.state == Receiving
        invariant !failed ==> pConn.state == Receiving || pConn.state == Transmitting
        decreases more, Stage(pConn.fed), Needed(pConn.fed, true)
      {
        ghost var before := Snap();
        more, failed := ReadTurn(pConn);
        TouchedTwice(old(Snap()), before, Snap(), pConn);
      }
    }

    // ---- accepting ----

    /** GetConnection grows an empty pool first. */
    method EnsureFree() returns (ghost added: seq<StunConnection>)
      requires Tidy()
      modifies pool
      ensures Tidy() && pool.Free != [] && NoRepeats(added) && (forall c | c in added :: c !in old(pool.All))
      ensures pool.All == old(pool.All) + (set c | c in added) && (forall c | c in added :: fresh(c))
      ensures Snap() == GrownAll(old(Snap()), added)
    {
      ghost var before := Snap();
      added := [];
      if pool.freelist == null {
        added := GrowPool();
        GrownAllIs(before, added);
      }
    }

    method GrowPool() returns (ghost added: seq<StunConnection>)
      requires Tidy()
      modifies pool`freelist, pool`Free, pool`All
      ensures Tidy() && added != [] && NoRepeats(added) && pool.Free == added + old(pool.Free)
      ensures pool.All == old(pool.All) + (set c | c in added) && (forall c | c in added :: fresh(c))
      ensures Conns() == old(Conns()) + map c | c in added :: NEW_CONNECTION
    {
      added := pool.Grow();
      assert NoRepeats(added) by {
        assert forall i | 0 <= i < |added| :: added[i] == pool.Free[i];
      }
    }

    /** The top of the pool becomes the connection on `sock`. */
    method TakeTop(sock: int, peer: Peer) returns (pConn: StunConnection)
      requires Tidy() && pool.Free != []
      modifies pool, pool.All, sys`clock
      ensures Tidy() && pConn == old(pool.Free)[0] && pool.All == old(pool.All) && sys.clock >= old(sys.clock)
      ensures pool.Free == old(pool.Free)[1..] && pool.Peers == old(pool.Peers)[sock := peer]
      ensures Conns()
              == old(Conns())[pConn := Conn(sock, peer, Receiving, [], old(pool.Free[0].output), 0, -1, sys.clock, [],
                                            sweeps)]
    {
      ghost var before := Conns();
      var time := sys.Time();
      pConn := pool.Pop(sock, peer, time, sweeps);
      assert Conns() == before[pConn := pConn.Value()];
    }

    /** CConnectionPool::GetConnection for a descriptor just accepted. `base` is the state before accept() returned it,
        `s0` the state in which the pool has a connection for it. */
    method GetConnection(sock: int, peer: Peer, ghost base: Server<StunConnection?>)
      returns (pConn: StunConnection, ghost s0: Server<StunConnection?>)
      requires Tidy() && Sane(base, handler, None, None) && sock >= 0 && sock !in base.open && base.conns == Conns()
      requires Snap() == Accepted(base, sock).(open := base.open + {sock})
      modifies pool, pool.All, sys`clock
      ensures Tidy() && pConn in pool.All && FromBase(base, s0, handler, sock)
      ensures forall c | c in pool.All && c !in old(pool.All) :: fresh(c)
      ensures s0.free != [] && pConn == s0.free[0] && pConn in s0.conns && s0.clock <= sys.clock
      ensures Snap() == Taken(s0, sock, peer, sys.clock)
    {
      s0 := Prepare(sock, base);
      pConn := TakeFrom(sock, peer, s0);
    }

    method Prepare(sock: int, ghost base: Server<StunConnection?>) returns (ghost s0: Server<StunConnection?>)
      requires Tidy() && Sane(base, handler, None, None) && sock >= 0 && sock !in base.open && base.conns == Conns()
      requires Snap() == Accepted(base, sock).(open := base.open + {sock})
      modifies pool
      ensures Tidy() && FromBase(base, s0, handler, sock) && s0.free != []
      ensures forall c | c in pool.All && c !in old(pool.All) :: fresh(c)
      ensures Snap() == s0.(open := s0.open + {sock})
    {
      ghost var added := EnsureFree();
      GrownBase(base, sock, added);
      s0 := GrownAll(Accepted(base, sock), added);
    }

    method TakeFrom(sock: int, peer: Peer, ghost s0: Server<StunConnection?>) returns (pConn: StunConnection)
      requires Tidy() && s0.free != [] && Snap() == s0.(open := s0.open + {sock})
      requires sock in s0.received && s0.received[sock] == [] && sock in s0.sent && s0.sent[sock] == []
      modifies pool, pool.All, sys`clock
      ensures Tidy() && pool.All == old(pool.All) && pConn in pool.All && pConn == s0.free[0] && pConn in s0.conns
      ensures s0.clock <= sys.clock && Snap() == Taken(s0, sock, peer, sys.clock)
    {
      pConn := TakeTop(sock, peer);
      TakenAgain(s0, sock, peer, sys.clock);
    }

    lemma GrownBase(base: Server<StunConnection?>, sock: int, added: seq<StunConnection?>)
      requires Sane(base, handler, None, None) && sock !in base.open
      requires NoRepeats(added) && forall c | c in added :: c !in base.conns
      ensures var s0 := GrownAll(Accepted(base, sock), added);
              && GrownAll(Accepted(base, sock).(open := base.open + {sock}), added) == s0.(open := base.open + {sock})
              && FromBase(base, s0, handler, sock)
    {
      AcceptedKeeps(base, handler, sock);
      GrownAllIs(Accepted(base, sock), added);
      GrownAllIs(Accepted(base, sock).(open := base.open + {sock}), added);
      GrownAllKeeps(Accepted(base, sock), handler, added);
    }

    /** The connection in hand is told the new table and goes into it, unless the table is full. */
    method FileNew(pConn: StunConnection) returns (filed: bool)
      requires Tidy() && pConn in pool.All && pConn !in pool.Free && pConn.sock !in T1() && pConn.sock !in T2()
      modifies pConn`idHashTable, hashConnections1.Repr, hashConnections2.Repr
      ensures Tidy() && (filed <==> old(pNewConnList.size) < maxConnections)
      ensures Snap() == if filed then PutAway(old(Snap()), pConn) else Marked(old(Snap()), pConn)
    {
      ghost var before := Conns();
      pConn.idHashTable := if pNewConnList == hashConnections1 then 1 else 2;
      assert Conns() == before[pConn := pConn.Value()];
      filed := InsertNew(pConn.sock, pConn);
    }

    method InsertNew(sock: int, pConn: StunConnection) returns (filed: bool)
      requires Tidy() && sock !in T1() && sock !in T2()
      modifies hashConnections1.Repr, hashConnections2.Repr
      ensures Tidy() && Conns() == old(Conns()) && pool.Free == old(pool.Free)
      ensures filed <==> old(pNewConnList.size) < maxConnections
      ensures T1() == if filed && pNewConnList == hashConnections1 then old(T1())[sock := pConn] else old(T1())
      ensures T2() == if filed && pNewConnList == hashConnections2 then old(T2())[sock := pConn] else old(T2())
    {
      ghost var c0 := Conns();
      filed := InsertInto(if pNewConnList == hashConnections1 then 1 else 2, sock, pConn);
      assert Conns() == c0;
    }

    /** Insertion into a table, which fails exactly when the table is full. */
    method InsertInto(id: int, sock: int, pConn: StunConnection) returns (filed: bool)
      requires TablesOk() && (id == 1 || id == 2) && sock !in T1() && sock !in T2()
      modifies (if id == 1 then hashConnections1 else hashConnections2).Repr
      ensures TablesOk()
      ensures (filed <==> old(if id == 1 then hashConnections1.size else hashConnections2.size) < maxConnections)
      ensures id == 1 ==> hashConnections2.Entries == old(hashConnections2.Entries)
      ensures id == 2 ==> hashConnections1.Entries == old(hashConnections1.Entries)
      ensures filed && id == 1 ==> T1() == old(T1())[sock := pConn]
      ensures filed && id == 2 ==> T2() == old(T2())[sock := pConn]
      ensures !filed ==> T1() == old(T1()) && T2() == old(T2())
    {
      if id == 1 {
        filed := AddTo(hashConnections1, hashConnections2, maxConnections, sock, pConn);
      } else {
        filed := AddTo(hashConnections2, hashConnections1, maxConnections, sock, pConn);
      }
    }

    /** The last steps of AcceptConnection: the connection is watched and filed, or closed again. `verified` is false
        when it names a table that has no room for it. */
    method Register(pConn: StunConnection, sock: int) returns (ok: bool, verified: bool)
      requires Tidy() && pConn in pool.All && pConn !in pool.Free
      requires pConn.sock == sock && sock !in T1() && sock !in T2() && pConn.idHashTable == -1
      modifies sys`heard
      modifies pConn, pool, sys`watched, sys`open, hashConnections1.Repr, hashConnections2.Repr
      ensures Tidy() && pool.All == old(pool.All) && (ok ==> pConn.peer == old(pConn.peer))
      ensures RegisteredBy(old(sys.heard), sys.heard, sock, old(pNewConnList.size) < maxConnections, ok, verified)
      ensures Snap() == Registration(old(Snap()), pConn, sock, ok, verified)
    {
      verified := true;
      ok := Watch(pConn, sock);
      if ok {
        ok := FileNew(pConn);
      }
      if !ok {
        verified := Dispose(pConn);
      }
    }

    /** SetNonBlocking and Add, either of which may fail. */
    method Watch(pConn: StunConnection, sock: int) returns (ok: bool)
      requires Tidy()
      modifies sys`heard
      modifies sys`watched
      ensures Tidy() && Snap() == if ok then WatchedToo(old(Snap()), sock) else old(Snap())
      ensures WatchedBy(old(sys.heard), sys.heard, sock, ok)
    {
      ok := sys.SetNonBlocking(sock);
      if ok {
        ok := sys.Add(sock, EPOLL_CLIENT_READ_EVENT_SET);
      }
    }

    /** Everything that follows a successful accept(). */
    method Admit(sock: int, peer: Peer, ghost base: Server<StunConnection?>)
      returns (pConn: StunConnection?, verified: bool)
      requires Tidy() && Sane(base, handler, None, None) && base.conns == Conns()
      requires sock >= 0 && sock !in base.open
      requires Snap() == Accepted(base, sock).(open := base.open + {sock})
      modifies sys`heard
      modifies pool, pool.All, sys`clock, sys`watched, sys`open, hashConnections1.Repr, hashConnections2.Repr
      ensures Tidy() && (pConn != null ==> pConn in pool.All && pConn.peer == peer)
      ensures forall c | c in pool.All && c !in old(pool.All) :: fresh(c)
      ensures Sane(Snap(), handler, None, None)
      ensures Admission(base, Snap(), if pConn == null then None else Some(pConn), sock)
      ensures RegisteredBy(old(sys.heard), sys.heard, sock, old(pNewConnList.size) < maxConnections, pConn != null,
                           verified)
    {
      var c, s0 := GetConnection(sock, peer, base);
      ghost var time := sys.clock;
      var ok;
      ok, verified := RegisterTaken(c, sock, peer, base, s0);
      AdmissionKeeps(base, s0, handler, sock, peer, time, ok, verified);
      pConn := if ok then c else null;
    }

    method RegisterTaken(pConn: StunConnection, sock: int, peer: Peer, ghost base: Server<StunConnection?>,
                         ghost s0: Server<StunConnection?>) returns (ok: bool, verified: bool)
      requires Tidy() && FromBase(base, s0, handler, sock) && s0.free != [] && sock >= 0 && s0.clock <= sys.clock
      requires pConn == s0.free[0] && pConn in pool.All && Snap() == Taken(s0, sock, peer, sys.clock)
      modifies sys`heard
      modifies pConn, pool, sys`watched, sys`open, hashConnections1.Repr, hashConnections2.Repr
      ensures Tidy() && pool.All == old(pool.All) && (ok ==> pConn.peer == peer)
      ensures RegisteredBy(old(sys.heard), sys.heard, sock, old(pNewConnList.size) < maxConnections, ok, verified)
      ensures Snap() == Registration(old(Snap()), pConn, sock, ok, verified)
    {
      TakenIsUnfiled(base, s0, handler, sock, peer, sys.clock);
      ok, verified := Register(pConn, sock);
    }

    function ConnectionCount(): nat
      reads this, pNewConnList, pOldConnList
    {
      pNewConnList.size + pOldConnList.size
    }

    lemma CountIs()
      requires TablesOk()
      ensures ConnectionCount() == Size(Snap())
    {
      TableSizes();
    }

    /** At most one new connection, on the role of the listening socket. The answers decide whether there is one,
        together with the room in the new table, and whether CloseConnection's assertion holds (`verified`). */
    method AcceptConnection(role: SocketRole)
      returns (pConn: StunConnection?, verified: bool, ghost sock: int, ghost peer: Peer)
      requires Valid()
      modifies sys`heard
      modifies pool, pool.All, sys`clock, sys`watched, sys`open, sys`received, sys`sent
      modifies hashConnections1.Repr, hashConnections2.Repr
      ensures Valid() && peer.role == role
      ensures forall c | c in pool.All && c !in old(pool.All) :: fresh(c)
      ensures pConn != null ==> pConn in pool.All && pConn.peer == peer
      ensures AcceptedBy(old(sys.heard), sys.heard, sock, peer.addrRemote, old(pNewConnList.size) < maxConnections,
                         pConn != null, verified)
      ensures Admission(old(Snap()), Snap(), if pConn == null then None else Some(pConn), sock)
    {
      ghost var base := Snap();
      var socktmp, addrLocal, addrRemote := AcceptSocket();
      sock, peer := socktmp, Peer(role, addrLocal, addrRemote);
      if socktmp == -1 {
        NothingAdmitted(base, -1);
        pConn, verified := null, true;
      } else {
        pConn, verified := Greet(socktmp, Peer(role, addrLocal, addrRemote), base);
      }
    }

    method AcceptSocket() returns (sock: int, addrLocal: Address, addrRemote: Address)
      requires Tidy()
      modifies sys`heard
      modifies sys`open, sys`received, sys`sent
      ensures Tidy() && Conns() == old(Conns()) && (sock == -1 || (sock >= 0 && sock !in old(sys.open)))
      ensures sys.heard == old(sys.heard).Then(ToAccept(sock))
      ensures sock == -1 ==> Snap() == old(Snap())
      ensures sock != -1 ==> Snap() == Accepted(old(Snap()), sock).(open := old(sys.open) + {sock})
    {
      sock, addrLocal, addrRemote := sys.Accept();
    }

    method Greet(sock: int, peer: Peer, ghost base: Server<StunConnection?>)
      returns (pConn: StunConnection?, verified: bool)
      requires Tidy() && Sane(base, handler, None, None) && base.conns == Conns()
      requires sock >= 0 && sock !in base.open
      requires Snap() == Accepted(base, sock).(open := base.open + {sock})
      modifies sys`heard
      modifies pool, pool.All, sys`clock, sys`watched, sys`open, hashConnections1.Repr, hashConnections2.Repr
      ensures Tidy() && (pConn != null ==> pConn in pool.All && pConn.peer == peer)
      ensures forall c | c in pool.All && c !in old(pool.All) :: fresh(c)
      ensures Sane(Snap(), handler, None, None)
      ensures Admission(base, Snap(), if pConn == null then None else Some(pConn), sock)
      ensures GreetedBy(old(sys.heard), sys.heard, sock, peer.addrRemote, old(pNewConnList.size) < maxConnections,
                        pConn != null, verified)
    {
      var allowed := CheckTidily(peer.addrRemote);
      if allowed {
        pConn, verified := Admit(sock, peer, base);
      } else {
        Refuse(sock, base);
        pConn, verified := null, true;
      }
    }

    /** A descriptor that is not wanted is closed at once. */
    method Refuse(sock: int, ghost base: Server<StunConnection?>)
      requires Tidy() && Sane(base, handler, None, None) && sock !in base.open
      requires Snap() == Accepted(base, sock).(open := base.open + {sock})
      modifies sys`open
      ensures Tidy() && Sane(Snap(), handler, None, None) && Admission(base, Snap(), None, sock)
    {
      sys.CloseSocket(sock);
      assert sys.open == base.open;
      assert Snap() == Accepted(base, sock);
      RefusalKeeps(base, handler, sock);
    }

    // ---- one event ----

    /** The entry for a socket: the new table is searched first. */
    method LookupSocket(sock: int) returns (ppConn: Option<StunConnection?>)
      requires TablesOk()
      ensures ppConn == Located(Snap(), sock)
    {
      assert TableOk(pNewConnList, maxConnections) && TableOk(pOldConnList, maxConnections);
      EL.LookupAsMap(pNewConnList.Entries, sock);
      EL.LookupAsMap(pOldConnList.Entries, sock);
      ppConn := pNewConnList.Lookup(sock);
      if ppConn.None? {
        ppConn := pOldConnList.Lookup(sock);
      }
    }

    /** Work on a connection adds none. */
    lemma WorkSize(s: Server<StunConnection?>, work: Server<StunConnection?>, r: StunConnection?)
      requires Touched(s, work, r)
      ensures Size(work) == Size(s) && Size(Closed(work, r)) <= Size(s)
    {
      ClosedSize(work, r);
    }

    /** An event on a socket reaches the connection filed under it, and no other. */
    method ProcessConnectionEvent(sock: int) returns (pConn: StunConnection?, closed: bool,
                                                      ghost work: Server<StunConnection?>)
      requires Serving() && Valid()
      modifies sys`heard
      modifies pool, pool.All, sys`watched, sys`sent, sys`received, sys`open, hashConnections1.Repr,
               hashConnections2.Repr
      ensures Valid() && pool.All == old(pool.All) && SameListeners(old(Snap()), Snap())
      ensures pConn == null <==> sock !in old(T1()) && sock !in old(T2())
      ensures if pConn == null then Snap() == old(Snap())
              else pConn in pool.All && old(pConn.sock) == sock && old(Snap()).InTable(pConn)
                   && Touched(old(Snap()), work, pConn) && Snap() == if closed then Closed(work, pConn) else work
      ensures if pConn == null then sys.heard == old(sys.heard) else WorkTold(old(sys.heard), work, pConn, closed)
    {
      ghost var before := Snap();
      LocatedAtRest(before, handler, sock);
      var ppConn := LookupSocket(sock);
      pConn, closed, work := null, false, before;
      if ppConn.Some? {
        pConn := ppConn.value;
        closed, work := Serve(pConn);
        WorkListeners(before, work, pConn);
      }
    }

    /** Reads or writes, according to the state of the connection. */
    method Serve(pConn: StunConnection) returns (closed: bool, ghost work: Server<StunConnection?>)
      requires Serving() && Valid() && Working(Snap(), pConn, false)
      requires (pConn.state == Receiving || pConn.state == Transmitting)
      modifies sys`heard
      modifies pConn, pool, sys`watched, sys`sent, sys`received, sys`open, hashConnections1.Repr, hashConnections2.Repr
      ensures Valid() && pool.All == old(pool.All) && Touched(old(Snap()), work, pConn)
      ensures Snap() == if closed then Closed(work, pConn) else work
      ensures WorkTold(old(sys.heard), work, pConn, closed)
    {
      if pConn.state == Receiving {
        closed, work := ReceiveBytesForConnection(pConn);
      } else {
        closed, work := WriteBytesForConnection(pConn);
      }
    }

    /** After the thread is told to exit, nothing is left open but what it listens on. */
    method ThreadCleanup()
      requires Valid()
      modifies pool, pool.All, sys`watched, sys`open, hashConnections1.Repr, hashConnections2.Repr
      ensures Valid() && T1() == map[] && T2() == map[]
      ensures sys.open == Listen() && pool.All == old(pool.All)
      ensures forall c | c in pool.All :: c in pool.Free && c.sock == -1
    {
      CloseAllConnections(pOldConnList);
      CloseAllConnections(pNewConnList);
      NothingLeft(Snap(), handler);
      forall c | c in pool.All ensures c in pool.Free && c.sock == -1 {
        assert c in Snap().conns;
      }
    }

    // ---- listening ----

    function Socks(): set<int> {
      Listeners(socketTable)
    }

    /** Only the watching of listening sockets has changed. */
    ghost predicate OnlyListeners(before: map<int, bv32>, after: map<int, bv32>) {
      && after.Keys <= before.Keys + Socks()
      && (forall k | k !in Socks() :: k in after <==> k in before)
      && (forall k | k !in Socks() && k in after :: after[k] == before[k])
    }

    /** Some listening sockets are watched although `fListenSocketsOnEpoll` says that none is. */
    ghost predicate Left()
      reads this, sys
    {
      LeftWatched(sys.watched, Socks(), fListenSocketsOnEpoll)
    }

    /** The same listening sockets are watched as before. */
    ghost predicate SameListening(before: map<int, bv32>)
      reads sys
    {
      forall k | k in Socks() :: k in sys.watched <==> k in before
    }

    /** If the poller refuses the socket of a role, `at`, those before it stay watched and those from it on are as they
        were, and `fListenSocketsOnEpoll` stays off. */
    method SetListenSocketsOnEpoll(fEnable: bool) returns (ok: bool, ghost at: nat)
      requires fListenSocketsOnEpoll ==> ListenersWatched(sys.watched, Socks(), true)
      modifies sys`heard
      modifies `fListenSocketsOnEpoll, sys`watched
      ensures OnlyListeners(old(sys.watched), sys.watched) && (ok <==> at == 4)
      ensures fListenSocketsOnEpoll == (fEnable && ok) && old(sys.heard).count <= sys.heard.count
      ensures at < 4 ==> Refused(old(sys.heard).count, socketTable[at])
      ensures Relistening(old(sys.watched), sys.watched, socketTable, old(fListenSocketsOnEpoll), fEnable, at)
    {
      ok, at := true, 4;
      if fEnable != fListenSocketsOnEpoll {
        assert forall i | 0 <= i < 4 && socketTable[i] != -1 :: socketTable[i] in Socks();
        for role := 0 to 4
          invariant ok && at == 4 && fListenSocketsOnEpoll == old(fListenSocketsOnEpoll) != fEnable
          invariant OnlyListeners(old(sys.watched), sys.watched) && old(sys.heard).count <= sys.heard.count
          invariant forall i | 0 <= i < role && socketTable[i] != -1 :: socketTable[i] in sys.watched <==> fEnable
          invariant fEnable ==> forall i | 0 <= i < role && socketTable[i] != -1 :: socketTable[i] !in old(sys.watched)
          invariant forall i | role <= i < 4 && socketTable[i] != -1 ::
                      socketTable[i] in sys.watched <==> socketTable[i] in old(sys.watched)
          invariant !Preceded(socketTable, role) ==> sys.watched == old(sys.watched)
        {
          if socketTable[role] != -1 {
            ok := Enable(socketTable[role], fEnable);
            if !ok {
              at := role;
              return;
            }
          }
        }
        fListenSocketsOnEpoll := fEnable;
      }
    }

    /** The poller has refused a descriptor after the first `before` answers. */
    ghost predicate Refused(before: nat, sock: int)
      reads sys
    {
      before < sys.heard.count && sys.heard.last == ToWatch(sock, false)
    }

    method Enable(sock: int, fEnable: bool) returns (ok: bool)
      requires sock in Socks()
      modifies sys`heard
      modifies sys`watched
      ensures OnlyListeners(old(sys.watched), sys.watched) && old(sys.heard).count <= sys.heard.count
      ensures forall k | k != sock :: k in sys.watched <==> k in old(sys.watched)
      ensures fEnable && ok ==> sock in sys.watched && sock !in old(sys.watched)
      ensures fEnable && !ok ==> sys.watched == old(sys.watched) && Refused(old(sys.heard).count, sock)
      ensures !fEnable ==> sock !in sys.watched && (ok <==> sock in old(sys.watched))
    {
      if fEnable {
        ok := sys.Add(sock, EPOLL_LISTEN_SOCKET_EVENT_SET);
      } else {
        ok := sys.Remove(sock);
      }
    }

    /** No listening socket is watched at the limit, unless they are left watched. */
    ghost predicate NoneAtLimit()
      reads this, sys, pNewConnList, pOldConnList
    {
      !Left() ==> forall k | k in Socks() && k in sys.watched :: ConnectionCount() < maxConnections
    }

    /** No listening while the connection count is at its maximum, unless sockets are left watched. That happens if and
        only if the poller refuses one that another one precedes, and then for good: nothing changes them again. */
    method AdjustListening() returns (ghost at: nat)
      requires Valid() && Running()
      modifies sys`heard
      modifies `fListenSocketsOnEpoll, sys`watched
      ensures Valid() && Running() && ConnectionCount() == old(ConnectionCount())
      ensures Snap() == old(Snap()).(watched := sys.watched) && old(sys.heard).count <= sys.heard.count
      ensures at < 4 ==> Refused(old(sys.heard).count, socketTable[at])
      ensures Left() <==> old(Left()) || (at < 4 && Preceded(socketTable, at))
      ensures old(Left()) ==> sys.watched == old(sys.watched)
      ensures NoneAtLimit()
      ensures !Left() && at >= 4 ==> (fListenSocketsOnEpoll <==> ConnectionCount() < maxConnections)
    {
      at := RelistenKeeping(ConnectionCount() < maxConnections);
    }

    method RelistenKeeping(fEnable: bool) returns (ghost at: nat)
      requires Valid() && ListenOk(sys.watched, socketTable, fListenSocketsOnEpoll)
      modifies sys`heard
      modifies `fListenSocketsOnEpoll, sys`watched
      ensures Valid() && Snap() == old(Snap()).(watched := sys.watched) && old(sys.heard).count <= sys.heard.count
      ensures ListenOk(sys.watched, socketTable, fListenSocketsOnEpoll) && OnlyListeners(old(sys.watched), sys.watched)
      ensures at < 4 ==> Refused(old(sys.heard).count, socketTable[at])
      ensures Left() <==> old(Left()) || (at < 4 && Preceded(socketTable, at))
      ensures old(Left()) ==> sys.watched == old(sys.watched)
      ensures !Left() ==> forall k | k in Socks() && k in sys.watched :: fEnable
      ensures !Left() && at >= 4 ==> fListenSocketsOnEpoll == fEnable
      ensures ConnectionCount() == old(ConnectionCount())
    {
      ghost var before := Snap();
      at := Relisten(fEnable);
      ListenKeeps(before, handler, sys.watched);
    }

    method Relisten(fEnable: bool) returns (ghost at: nat)
      requires ListenOk(sys.watched, socketTable, fListenSocketsOnEpoll)
      modifies sys`heard
      modifies `fListenSocketsOnEpoll, sys`watched
      ensures OnlyListeners(old(sys.watched), sys.watched) && Snap() == old(Snap()).(watched := sys.watched)
      ensures ListenOk(sys.watched, socketTable, fListenSocketsOnEpoll) && old(sys.heard).count <= sys.heard.count
      ensures at < 4 ==> Refused(old(sys.heard).count, socketTable[at])
      ensures Left() <==> old(Left()) || (at < 4 && Preceded(socketTable, at))
      ensures old(Left()) ==> sys.watched == old(sys.watched)
      ensures !Left() ==> forall k | k in Socks() && k in sys.watched :: fEnable
      ensures !Left() && at >= 4 ==> fListenSocketsOnEpoll == fEnable
    {
      ghost var w, fListening := sys.watched, fListenSocketsOnEpoll;
      var ok;
      ok, at := SetListenSocketsOnEpoll(fEnable);
      RelistenOutcome(w, sys.watched, socketTable, fListening, fEnable, at);
    }

    function RoleAt(i: nat): SocketRole {
      if i == 0 then RolePP else if i == 1 then RolePA else if i == 2 then RoleAP else RoleAA
    }

    /** The role of the listening socket, if it is one. */
    method GetListenSocket(sock: int) returns (role: Option<SocketRole>)
      ensures role.Some? <==> sock in Socks()
      ensures role.Some? ==> socketTable[RoleIndex(role.value)] == sock
    {
      role := None;
      if sock != -1 {
        for i := 0 to |socketTable|
          invariant forall k | 0 <= k < i :: socketTable[k] != sock
        {
          if socketTable[i] == sock {
            return Some(RoleAt(i));
          }
        }
      }
    }

    // ---- the loop of the thread ----

    ghost predicate Running()
      reads this, sys, pool, pool.All, hashConnections1, hashConnections2, pNewConnList, pOldConnList
    {
      LoopOk(Snap(), ConnectionCount(), sys.batch, fListenSocketsOnEpoll, socketTable, maxConnections)
    }

    /** What has come of an event on `fd`, from state `s` on: what should, and nothing to other connections. */
    ghost predicate Outcome(start: Heard, s: Server<StunConnection?>, room: bool, fd: Option<int>, h: Happening)
      reads this, sys, pool, pool.All, hashConnections1, hashConnections2
    {
      && Happened(start, sys.heard, handler, s, sys.received, room, socketTable, pipe, fd, h)
      && Turned(s, Snap(), fd, h)
    }

    /** The state an event is handed out in. */
    ghost predicate Before(start: Heard, s: Server<StunConnection?>, room: bool)
      reads this, sys, pool, pool.All, hashConnections1, hashConnections2, pNewConnList
    {
      start == sys.heard && s == Snap() && room == (pNewConnList.size < maxConnections)
    }

    /** A connection to accept, or one to serve. */
    method Dispatch(fd: int, ghost start: Heard, ghost s: Server<StunConnection?>, ghost room: bool)
      returns (ghost h: Happening)
      requires Serving() && Valid() && fd != pipe && Before(start, s, room)
      modifies sys`heard
      modifies pool, pool.All, sys`clock, sys`watched, sys`open, sys`received, sys`sent
      modifies hashConnections1.Repr, hashConnections2.Repr
      ensures Valid() && SameListeners(s, Snap()) && Outcome(start, s, room, Some(fd), h)
      ensures forall c | c in pool.All && c !in old(pool.All) :: fresh(c)
      ensures ConnectionCount() <= Size(s) + if fd in Socks() then 1 else 0
    {
      var role := GetListenSocket(fd);
      if role.Some? {
        h := AcceptAndRead(role.value, fd, start, s, room);
      } else {
        h := ServeSocket(fd, start, s, room);
      }
    }

    method ServeSocket(sock: int, ghost start: Heard, ghost s: Server<StunConnection?>, ghost room: bool)
      returns (ghost h: Happening)
      requires Serving() && Valid() && sock !in Socks() && sock != pipe && Before(start, s, room)
      modifies sys`heard
      modifies pool, pool.All, sys`watched, sys`sent, sys`received, sys`open, hashConnections1.Repr,
               hashConnections2.Repr
      ensures Valid() && SameListeners(s, Snap()) && Outcome(start, s, room, Some(sock), h)
      ensures pool.All == old(pool.All) && ConnectionCount() <= Size(s)
    {
      var pConn, closed, work := ProcessConnectionEvent(sock);
      h := Nothing;
      if pConn == null {
        NothingTurned(s, Some(sock));
      } else {
        WorkSize(s, work, pConn);
        h := Ongoing(work.conns[pConn], closed);
        WorkOutcome(start, s, room, pConn, work, closed);
      }
      CountIs();
    }

    lemma WorkOutcome(start: Heard, before: Server<StunConnection?>, room: bool, pConn: StunConnection,
                      work: Server<StunConnection?>, closed: bool)
      requires AccountedFor(before, None) && before.InTable(pConn) && Touched(before, work, pConn)
      requires before.listen == Listen() && before.conns[pConn].sock !in Listen()
      requires Snap() == (if closed then Closed(work, pConn) else work) && WorkTold(start, work, pConn, closed)
      ensures Outcome(start, before, room, Some(before.conns[pConn].sock), Ongoing(work.conns[pConn], closed))
    {
      WorkHappened(start, sys.heard, handler, before, room, socketTable, pipe, pConn, work, closed);
      WorkTurned(before, work, pConn, closed);
    }

    /** A new connection is read from at once. */
    method AcceptAndRead(role: SocketRole, ghost fd: int, ghost start: Heard, ghost s: Server<StunConnection?>,
                         ghost room: bool) returns (ghost h: Happening)
      requires Serving() && Valid() && fd in Socks() && fd != pipe && socketTable[RoleIndex(role)] == fd
      requires Before(start, s, room)
      modifies sys`heard
      modifies pool, pool.All, sys`clock, sys`watched, sys`open, sys`received, sys`sent
      modifies hashConnections1.Repr, hashConnections2.Repr
      ensures Valid() && SameListeners(s, Snap()) && Outcome(start, s, room, Some(fd), h)
      ensures forall c | c in pool.All && c !in old(pool.All) :: fresh(c)
      ensures ConnectionCount() <= Size(s) + 1
    {
      ghost var sock, peer;
      var pConn, verified;
      pConn, verified, sock, peer := AcceptConnection(role);
      if pConn == null {
        h := Incoming(sock, peer, verified, sys.heard, None, false);
        RefusalOutcome(start, s, room, fd, h);
      } else {
        h := ReadNew(pConn, verified, sock, peer, start, s, room, fd);
      }
    }

    lemma RefusalOutcome(start: Heard, s: Server<StunConnection?>, room: bool, fd: int, h: Happening)
      requires Valid() && AccountedFor(s, None) && fd in s.listen && fd != pipe && fd != -1
      requires h.Incoming? && h == Incoming(h.sock, h.peer, h.verified, sys.heard, None, false)
      requires socketTable[RoleIndex(h.peer.role)] == fd && Admission(s, Snap(), None, h.sock)
      requires AcceptedBy(start, sys.heard, h.sock, h.peer.addrRemote, room, false, h.verified)
      ensures Outcome(start, s, room, Some(fd), h) && ConnectionCount() <= Size(s)
    {
      AdmissionSize(s, Snap(), None, h.sock);
      RefusalTurned(s, Snap(), h.sock, fd, h);
      CountIs();
    }

    method ReadNew(pConn: StunConnection, ghost verified: bool, ghost sock: int, ghost peer: Peer, ghost start: Heard,
                   ghost s: Server<StunConnection?>, ghost room: bool, ghost fd: int) returns (ghost h: Happening)
      requires Serving() && Valid() && AccountedFor(s, None) && fd in s.listen && fd != pipe && fd != -1
      requires socketTable[RoleIndex(peer.role)] == fd && pConn in pool.All && pConn.peer == peer
      requires Admission(s, Snap(), Some(pConn), sock)
      requires AcceptedBy(start, sys.heard, sock, peer.addrRemote, room, true, verified)
      modifies sys`heard
      modifies pConn, pool, sys`watched, sys`sent, sys`received, sys`open, hashConnections1.Repr, hashConnections2.Repr
      ensures Valid() && pool.All == old(pool.All) && SameListeners(s, Snap())
      ensures ConnectionCount() <= Size(s) + 1 && Outcome(start, s, room, Some(fd), h)
    {
      ghost var before, accepted := Snap(), sys.heard;
      RestingReads(before, handler, pConn);
      var closed, work := ReceiveBytesForConnection(pConn);
      h := Incoming(sock, peer, verified, accepted, Some(work.conns[pConn]), closed);
      NewOutcome(start, s, room, fd, before, pConn, work, h);
    }

    lemma NewOutcome(start: Heard, s: Server<StunConnection?>, room: bool, fd: int, before: Server<StunConnection?>,
                     pConn: StunConnection, work: Server<StunConnection?>, h: Happening)
      requires Valid() && AccountedFor(s, None) && AccountedFor(before, None) && fd in s.listen && fd != pipe
      requires fd != -1
      requires h.Incoming? && socketTable[RoleIndex(h.peer.role)] == fd && Admission(s, before, Some(pConn), h.sock)
      requires before.conns[pConn].peer == h.peer && Touched(before, work, pConn) && h.conn == Some(work.conns[pConn])
      requires AcceptedBy(start, h.accepted, h.sock, h.peer.addrRemote, room, true, h.verified)
      requires WorkTold(h.accepted, work, pConn, h.closed)
      requires Snap() == if h.closed then Closed(work, pConn) else work
      ensures Outcome(start, s, room, Some(fd), h) && SameListeners(s, Snap()) && ConnectionCount() <= Size(s) + 1
    {
      AdmissionSize(s, before, Some(pConn), h.sock);
      WorkListeners(before, work, pConn);
      WorkSize(before, work, pConn);
      CountIs();
      NewIsApart(s, before, pConn, h.sock);
      AcceptHappened(start, h.accepted, sys.heard, handler, s, room, socketTable, pipe, fd, h.sock, h.peer, h.verified,
                     work.conns[pConn], sys.received, h.closed);
      NewTurned(s, before, pConn, h.sock, work, h.closed, fd, h);
    }

    method NextEvent(ghost start: Heard, ghost s: Server<StunConnection?>, ghost room: bool)
      returns (fd: Option<int>)
      requires Valid() && Before(start, s, room)
      modifies sys`batch, sys`heard
      ensures Valid() && Before(start.Then(ToWait(fd)), s, room)
      ensures Drawn(old(sys.batch), fd, sys.batch) || Fetched(sys.watched, fd, sys.batch)
    {
      fd := sys.WaitForNextEvent();
    }

    lemma NothingOutcome(start: Heard, s: Server<StunConnection?>, room: bool, fd: Option<int>)
      requires Valid() && Before(start, s, room) && (fd.Some? ==> fd.value == pipe)
      ensures Outcome(start, s, room, fd, Nothing) && SameListeners(s, Snap()) && ConnectionCount() <= Size(s)
    {
      NothingTurned(s, fd);
      CountIs();
    }

    /** One event, whether its descriptor is still watched or not (`stale`), or none. The pipe means exit. */
    method HandleEvent(ghost start: Heard, ghost s: Server<StunConnection?>, ghost room: bool)
      returns (fExit: bool, ghost stale: bool, ghost fd: Option<int>, ghost h: Happening)
      requires Serving() && Valid() && Running() && Before(start, s, room)
      requires NoneAtLimit()
      modifies sys`heard
      modifies pool, pool.All, sys, hashConnections1.Repr, hashConnections2.Repr
      ensures Valid() && Running() && (fExit <==> fd == Some(pipe))
      ensures SameListening(old(sys.watched)) && (Left() <==> old(Left()))
      ensures forall c | c in pool.All && c !in old(pool.All) :: fresh(c)
      ensures !stale && !Left() && old(ConnectionCount()) <= maxConnections ==> ConnectionCount() <= maxConnections
      ensures Drawn(old(sys.batch), fd, sys.batch) || Fetched(old(sys.watched), fd, sys.batch)
      ensures Outcome(start.Then(ToWait(fd)), s, room, fd, h)
    {
      ghost var count, batch := ConnectionCount(), sys.batch;
      CountIs();
      fExit, fd, h := React(start, s, room);
      stale := fd.Some? && fd.value !in s.watched;
      EventKeepsLoop(s, Snap(), count, ConnectionCount(), batch, fd, sys.batch, fListenSocketsOnEpoll, socketTable,
                     maxConnections);
    }

    method React(ghost start: Heard, ghost s: Server<StunConnection?>, ghost room: bool)
      returns (fExit: bool, ghost fd: Option<int>, ghost h: Happening)
      requires Serving() && Valid() && Before(start, s, room)
      modifies sys`heard
      modifies pool, pool.All, sys, hashConnections1.Repr, hashConnections2.Repr
      ensures Valid() && SameListeners(s, Snap()) && (fExit <==> fd == Some(pipe))
      ensures forall c | c in pool.All && c !in old(pool.All) :: fresh(c)
      ensures Drawn(old(sys.batch), fd, sys.batch) || Fetched(old(sys.watched), fd, sys.batch)
      ensures ConnectionCount() <= Size(s) + if fd.Some? && fd.value in Socks() then 1 else 0
      ensures Outcome(start.Then(ToWait(fd)), s, room, fd, h)
    {
      var next := NextEvent(start, s, room);
      ghost var told := start.Then(ToWait(next));
      fd, h := next, Nothing;
      fExit := next == Some(pipe);
      if next.Some? && !fExit {
        h := Dispatch(next.value, told, s, room);
      } else {
        NothingOutcome(told, s, room, fd);
      }
    }

    /** The body of the loop in Run: whatever the kernel answers and whatever events are handed out. The count stays
        within the limit, but for events on descriptors no longer watched, and then exceeds it by less than the number
        of listening sockets; unless listening sockets are left watched, which begins when the poller refuses one (of
        role `at`) that another one precedes, and never ends. Even then the count is at most twice the limit. */
    method RunOnce() returns (fExit: bool, ghost stale: bool, ghost at: nat, ghost turn: Turn)
      requires Serving() && Valid() && Running()
      modifies sys`heard
      modifies this, pool, pool.All, sys, hashConnections1.Repr, hashConnections2.Repr
      ensures Valid() && Running() && ConnectionCount() <= 2 * maxConnections
      ensures forall c | c in pool.All && c !in old(pool.All) :: fresh(c)
      ensures Left() <==> old(Left()) || (at < 4 && Preceded(socketTable, at))
      ensures !Left() && at >= 4 ==> (fListenSocketsOnEpoll <==> old(ConnectionCount()) < maxConnections)
      ensures old(Left()) ==> SameListening(old(sys.watched))
      ensures !Left() ==> ConnectionCount() < maxConnections + |Socks()|
      ensures !stale && !Left() && old(ConnectionCount()) <= maxConnections ==> ConnectionCount() <= maxConnections
      ensures fExit <==> turn.fd == Some(pipe)
      ensures turn.swept <==> !fExit && sys.clock >= old(timeLastSweep) + SWEEP_TIMEOUT_SECONDS
      ensures old(sys.heard).count < turn.start.count && turn.start.last == ToWait(turn.fd)
      ensures TurnTold(old(Snap()), old(pNewConnList.size) < maxConnections, turn)
    {
      ghost var before := Snap();
      at := AdjustListening();
      ghost var w, room := sys.watched, pNewConnList.size < maxConnections;
      fExit, stale, turn := HandleAndSweep(sys.heard, Snap(), room);
      TellTurn(before, w, room, turn);
    }

    lemma TellTurn(s: Server<StunConnection?>, w: map<int, bv32>, room: bool, turn: Turn)
      requires TurnTold(s.(watched := w), room, turn)
      ensures TurnTold(s, room, turn)
    {
      ListeningAside(s, w, Snap(), turn.fd, turn.h, turn.swept);
      HappenedAside(turn.start, sys.heard, handler, s, w, sys.received, room, socketTable, pipe, turn.fd, turn.h);
    }

    /** What has happened in a turn, and what it did to the connections. */
    ghost predicate TurnTold(s: Server<StunConnection?>, room: bool, turn: Turn)
      reads this, sys, pool, pool.All, hashConnections1, hashConnections2
    {
      && Happened(turn.start, sys.heard, handler, s, sys.received, room, socketTable, pipe, turn.fd, turn.h)
      && TurnOf(s, Snap(), turn.fd, turn.h, turn.swept)
    }

    method HandleAndSweep(ghost start: Heard, ghost s: Server<StunConnection?>, ghost room: bool)
      returns (fExit: bool, ghost stale: bool, ghost turn: Turn)
      requires Serving() && Valid() && Running() && Before(start, s, room)
      requires NoneAtLimit()
      modifies sys`heard
      modifies pool, pool.All, sys, hashConnections1.Repr, hashConnections2.Repr
      modifies `pNewConnList, `pOldConnList, `timeLastSweep, `sweeps
      ensures Valid() && Running() && SameListening(old(sys.watched))
      ensures forall c | c in pool.All && c !in old(pool.All) :: fresh(c)
      ensures (Left() <==> old(Left())) && ConnectionCount() <= 2 * maxConnections
      ensures !Left() ==> ConnectionCount() < maxConnections + |Socks()|
      ensures !stale && !Left() && old(ConnectionCount()) <= maxConnections ==> ConnectionCount() <= maxConnections
      ensures fExit <==> turn.fd == Some(pipe)
      ensures turn.swept <==> !fExit && sys.clock >= old(timeLastSweep) + SWEEP_TIMEOUT_SECONDS
      ensures turn.start == start.Then(ToWait(turn.fd)) && TurnTold(s, room, turn)
    {
      ghost var fd, h;
      fExit, stale, fd, h := HandleEvent(start, s, room);
      ghost var told, swept := start.Then(ToWait(fd)), false;
      if fExit {
        ExitTold(told, s, room, fd, h);
      } else {
        swept := SweepTelling(told, s, room, fd, h);
      }
      turn := Turn(told, fd, h, swept);
      CountIsBounded();
    }

    lemma TurnIs(s: Server<StunConnection?>, middle: Server<StunConnection?>, room: bool, turn: Turn)
      requires Valid() && AccountedFor(s, None) && AccountedFor(middle, None)
      requires Happened(turn.start, sys.heard, handler, s, sys.received, room, socketTable, pipe, turn.fd, turn.h)
      requires Turned(s, middle, turn.fd, turn.h) && SweepSpares(middle, Snap(), turn.swept)
      ensures TurnTold(s, room, turn)
    {
      TurnCloses(s, middle, Snap(), turn.fd, turn.h, turn.swept);
    }

    lemma ExitTold(start: Heard, s: Server<StunConnection?>, room: bool, fd: Option<int>, h: Happening)
      requires Valid() && AccountedFor(s, None) && Outcome(start, s, room, fd, h)
      ensures TurnTold(s, room, Turn(start, fd, h, false))
    {
      NothingSwept(Snap());
      TurnIs(s, Snap(), room, Turn(start, fd, h, false));
    }

    method SweepTelling(ghost start: Heard, ghost s: Server<StunConnection?>, ghost room: bool, ghost fd: Option<int>,
                        ghost h: Happening) returns (swept: bool)
      requires Valid() && Running() && AccountedFor(s, None) && Outcome(start, s, room, fd, h)
      modifies `pNewConnList, `pOldConnList, `timeLastSweep, `sweeps
      modifies pool, pool.All, sys`watched, sys`open, sys`clock, hashConnections1.Repr, hashConnections2.Repr
      ensures Valid() && Running() && pool.All == old(pool.All) && ConnectionCount() <= old(ConnectionCount())
      ensures SameListening(old(sys.watched)) && (Left() <==> old(Left()))
      ensures TurnTold(s, room, Turn(start, fd, h, swept))
      ensures swept <==> sys.clock >= old(timeLastSweep) + SWEEP_TIMEOUT_SECONDS
    {
      ghost var middle := Snap();
      swept := SweepAfter();
      TurnIs(s, middle, room, Turn(start, fd, h, swept));
    }

    /** Either table has room for the limit and no more. */
    lemma CountIsBounded()
      requires TablesOk() && Running()
      ensures ConnectionCount() <= 2 * maxConnections
      ensures !Left() ==> ConnectionCount() < maxConnections + |Socks()|
    {
      assert TableOk(hashConnections1, maxConnections) && TableOk(hashConnections2, maxConnections);
    }

    method SweepAfter() returns (swept: bool)
      requires Valid() && Running()
      modifies `pNewConnList, `pOldConnList, `timeLastSweep, `sweeps
      modifies pool, pool.All, sys`watched, sys`open, sys`clock, hashConnections1.Repr, hashConnections2.Repr
      ensures Valid() && Running() && pool.All == old(pool.All) && ConnectionCount() <= old(ConnectionCount())
      ensures SameListening(old(sys.watched)) && (Left() <==> old(Left()))
      ensures SweepSpares(old(Snap()), Snap(), swept)
      ensures swept <==> sys.clock >= old(timeLastSweep) + SWEEP_TIMEOUT_SECONDS
    {
      ghost var before, count := Snap(), ConnectionCount();
      swept := SweepCounted();
      FewerKeepLoop(before, Snap(), count, ConnectionCount(), sys.batch, fListenSocketsOnEpoll, socketTable,
                    maxConnections);
    }

    method SweepCounted() returns (swept: bool)
      requires Valid()
      modifies `pNewConnList, `pOldConnList, `timeLastSweep, `sweeps
      modifies pool, pool.All, sys`watched, sys`open, sys`clock, hashConnections1.Repr, hashConnections2.Repr
      ensures Valid() && pool.All == old(pool.All) && SameListeners(old(Snap()), Snap())
      ensures ConnectionCount() <= old(ConnectionCount()) && SweepSpares(old(Snap()), Snap(), swept)
      ensures swept <==> sys.clock >= old(timeLastSweep) + SWEEP_TIMEOUT_SECONDS
    {
      ghost var before := Snap();
      CountIs();
      var now;
      swept, now := SweepDeadConnections();
      CountIs();
      SweptSize(before, Snap(), swept);
    }

    /** Any number of turns, until the thread is told to exit: the invariant holds at every wait, and at the end every
        connection is closed and back in the pool. */
    method Run(turns: nat)
      requires Serving() && Valid() && Running()
      modifies sys`heard
      modifies this, pool, pool.All, sys, hashConnections1.Repr, hashConnections2.Repr
      ensures Valid() && T1() == map[] && T2() == map[] && sys.open == Listen()
      ensures forall c | c in pool.All :: c in pool.Free && c.sock == -1
    {
      Loop(turns);
      ThreadCleanup();
    }

    method Loop(turns: nat)
      requires Serving() && Valid() && Running()
      modifies sys`heard
      modifies this, pool, pool.All, sys, hashConnections1.Repr, hashConnections2.Repr
      ensures Valid() && Running()
      ensures forall c | c in pool.All && c !in old(pool.All) :: fresh(c)
    {
      var fNeedToExit := false;
      var turn := 0;
      while turn < turns && !fNeedToExit
        invariant Valid() && Running()
        invariant forall c | c in pool.All && c !in old(pool.All) :: fresh(c)
      {
        ghost var stale, at, what;
        fNeedToExit, stale, at, what := RunOnce();
        turn := turn + 1;
      }
    }
  }

  method RemoveFrom(table: ConnectionMap, sock: int) returns (found: bool)
    requires TableOk(table, table.fsize)
    modifies table.Repr
    ensures TableOk(table, table.fsize) && (found <==> sock in old(EL.AsMap(table.Entries)))
    ensures EL.AsMap(table.Entries) == Without(old(EL.AsMap(table.Entries)), sock)
  {
    EL.RemoveAsMap(table.Entries, sock);
    EL.LookupAsMap(table.Entries, sock);
    var result := table.Remove(sock);
    found := result != -1;
  }

  method RemoveBeside(table: ConnectionMap, ghost other: ConnectionMap, ghost size: nat,
                      sock: int) returns (found: bool)
    requires TableOk(table, size) && TableOk(other, size) && table.Repr !! other.Repr && other !in table.Repr
    modifies table.Repr
    ensures TableOk(table, size) && TableOk(other, size) && (found <==> sock in old(EL.AsMap(table.Entries)))
    ensures EL.AsMap(table.Entries) == Without(old(EL.AsMap(table.Entries)), sock)
    ensures other.Entries == old(other.Entries)
  {
    found := RemoveFrom(table, sock);
  }

  /** LookupByIndex(0): some entry of the table. */
  method Head(table: ConnectionMap) returns (item: Option<EL.Item<int, StunConnection?>>)
    requires TableOk(table, table.fsize)
    modifies table.Repr
    ensures TableOk(table, table.fsize) && table.Entries == old(table.Entries)
    ensures item.Some? <==> table.size > 0
    ensures item.Some? ==> item.value.key in EL.AsMap(table.Entries)
                           && EL.AsMap(table.Entries)[item.value.key] == item.value.value
  {
    item := table.LookupByIndex(0);
    if item.Some? {
      assert item.value in multiset(table.Order);
      ghost var i :| 0 <= i < |table.Entries| && table.Entries[i] == item.value;
      EL.PositionUnique(table.Entries, item.value.key, i);
      EL.PositionInKeys(table.Entries, item.value.key);
    }
  }

  method HeadBeside(table: ConnectionMap, ghost other: ConnectionMap, ghost size: nat)
    returns (item: Option<EL.Item<int, StunConnection?>>)
    requires TableOk(table, size) && TableOk(other, size) && table.Repr !! other.Repr && other !in table.Repr
    modifies table.Repr
    ensures TableOk(table, size) && TableOk(other, size)
    ensures table.Entries == old(table.Entries) && other.Entries == old(other.Entries)
    ensures table.size == old(table.size) && other.size == old(other.size)
    ensures var t := EL.AsMap(table.Entries);
            if item.None? then t == map[] else item.value.key in t && t[item.value.key] == item.value.value
  {
    EL.AsMapSize(table.Entries);
    item := Head(table);
  }

  method AddTo(table: ConnectionMap, ghost other: ConnectionMap, ghost size: nat, sock: int, pConn: StunConnection)
    returns (filed: bool)
    requires TableOk(table, size) && TableOk(other, size) && table.Repr !! other.Repr && other !in table.Repr
    requires sock !in EL.AsMap(table.Entries)
    modifies table.Repr
    ensures TableOk(table, size) && TableOk(other, size) && (filed <==> old(table.size) < size)
    ensures filed ==> EL.AsMap(table.Entries) == old(EL.AsMap(table.Entries))[sock := pConn]
    ensures !filed ==> table.Entries == old(table.Entries)
    ensures other.Entries == old(other.Entries)
  {
    EL.InsertAsMap(table.Entries, sock, pConn);
    var insertresult := table.Insert(sock, pConn);
    filed := insertresult != -1;
  }
}
