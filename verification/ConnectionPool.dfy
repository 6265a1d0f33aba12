/** Connection objects and their pool, after server/stunconnection.cpp, and the kernel they talk to. */
module ConnectionPools {
  import opened Options
  import opened Collections
  import opened StunTypes
  import opened SocketAddresses
  import opened TcpConnections
  import opened ConnectionAnswers
  import opened ConnectionLimits

  /** A connection. The reader is represented by the bytes it was fed, whose Verdict is its state, and the output
      buffer by its contents. */
  class StunConnection {
    var timeStart: nat
    var state: ConnectionState
    var sock: int
    var peer: Peer
    var fed: seq<byte>
    var output: seq<byte>
    var txCount: nat
    var idHashTable: int
    var pNext: StunConnection?
    ghost var served: seq<seq<byte>>
    ghost var born: nat

    constructor (pNext: StunConnection?)
      ensures Value() == NEW_CONNECTION && this.pNext == pNext
    {
      timeStart := 0;
      state := Idle;
      sock, peer := -1, NO_PEER;
      fed, output, txCount := [], [], 0;
      idHashTable := -1;
      this.pNext := pNext;
      served, born := [], 0;
    }

    ghost function Value(): Conn
      reads this
    {
      Conn(sock, peer, state, fed, output, txCount, idHashTable, timeStart, served, born)
    }
  }

  /** Sockets, poller, clock and rate limiter: every answer is arbitrary within what the system promises. `heard`
      tells how many answers there were so far, and the last one. */
  class Kernel {
    var clock: nat
    var open: set<int>
    var watched: map<int, bv32>
    var batch: seq<int>
    ghost var received: map<int, seq<byte>>
    ghost var sent: map<int, seq<byte>>
    ghost var heard: Heard

    constructor (sockets: set<int>)
      ensures open == sockets && watched == map[] && batch == [] && received == map[] && sent == map[]
      ensures heard.count == 0
    {
      heard := Heard(0, ToAccept(-1));
      clock := 0;
      open := sockets;
      watched, batch, received, sent := map[], [], map[], map[];
    }

    /** The clock does not go back. */
    method Time() returns (t: nat)
      modifies `clock
      ensures t == clock >= old(clock)
    {
      var elapsed: int := *;
      if elapsed > 0 {
        clock := clock + elapsed;
      }
      t := clock;
    }

    /** accept(): a descriptor not in use and the addresses of both ends, or a failure. */
    method Accept() returns (fd: int, addrLocal: Address, addrRemote: Address)
      modifies `open, `received, `sent, `heard
      ensures heard == old(heard).Then(ToAccept(fd))
      ensures fd == -1 || (fd >= 0 && fd !in old(open))
      ensures open == if fd == -1 then old(open) else old(open) + {fd}
      ensures received == if fd == -1 then old(received) else old(received)[fd := []]
      ensures sent == if fd == -1 then old(sent) else old(sent)[fd := []]
    {
      addrLocal, addrRemote := *, *;
      var candidate: int := *;
      if candidate >= 0 && candidate !in open {
        fd := candidate;
        open := open + {fd};
        received, sent := received[fd := []], sent[fd := []];
      } else {
        fd := -1;
      }
      heard := heard.Then(ToAccept(fd));
    }

    /** RateCheck. */
    method Check(addr: Address) returns (allowed: bool)
      modifies `heard
      ensures heard == old(heard).Then(ToCheck(addr, allowed))
    {
      allowed := *;
      heard := heard.Then(ToCheck(addr, allowed));
    }

    method SetNonBlocking(fd: int) returns (ok: bool)
      modifies `heard
      ensures heard == old(heard).Then(ToUnblock(fd, ok))
    {
      ok := *;
      heard := heard.Then(ToUnblock(fd, ok));
    }

    method CloseSocket(fd: int)
      modifies `open
      ensures open == old(open) - {fd}
    {
      open := open - {fd};
    }

    /** recv(): between one and `max` bytes, the end of the stream or an error, or nothing yet. */
    method Recv(fd: int, max: nat) returns (r: RecvResult)
      requires fd in received && 0 < max
      modifies `received, `heard
      ensures heard == old(heard).Then(ToRecv(fd, r))
      ensures r.Bytes? ==> 0 < |r.data| <= max && received == old(received)[fd := old(received)[fd] + r.data]
      ensures !r.Bytes? ==> received == old(received)
    {
      var data: seq<byte> := *;
      var blocked: bool := *;
      if 0 < |data| <= max {
        received := received[fd := received[fd] + data];
        r := Bytes(data);
      } else {
        r := if blocked then RecvBlocked else RecvEnded;
      }
      heard := heard.Then(ToRecv(fd, r));
    }

    /** send(): accepts a non-empty beginning of the data, fails, or accepts nothing now. */
    method Send(fd: int, data: seq<byte>) returns (r: SendResult)
      requires fd in sent && data != []
      modifies `sent, `heard
      ensures heard == old(heard).Then(ToSend(fd, r))
      ensures r.SentBytes? ==> 0 < r.count <= |data| && sent == old(sent)[fd := old(sent)[fd] + data[..r.count]]
      ensures !r.SentBytes? ==> sent == old(sent)
    {
      var count: int := *;
      var blocked: bool := *;
      if 0 < count <= |data| {
        sent := sent[fd := sent[fd] + data[..count]];
        r := SentBytes(count);
      } else {
        r := if blocked then SendBlocked else SendFailed;
      }
      heard := heard.Then(ToSend(fd, r));
    }

    /** IPolling::Add: it may fail, and does when the descriptor is watched already. */
    method Add(fd: int, eventflags: bv32) returns (ok: bool)
      modifies `watched, `heard
      ensures heard == old(heard).Then(ToWatch(fd, ok))
      ensures watched == if ok then old(watched)[fd := eventflags] else old(watched)
      ensures ok ==> fd !in old(watched)
    {
      ok := *;
      ok := ok && fd !in watched;
      if ok {
        watched := watched[fd := eventflags];
      }
      heard := heard.Then(ToWatch(fd, ok));
    }

    /** IPolling::Remove: it fails when the descriptor is not watched. */
    method Remove(fd: int) returns (ok: bool)
      modifies `watched
      ensures watched == Without(old(watched), fd) && (ok <==> fd in old(watched))
    {
      ok := fd in watched;
      watched := Without(watched, fd);
    }

    /** IPolling::WaitForNextEvent: an event of an earlier batch, whether its descriptor is still watched or not, or
        one of a new batch. */
    method WaitForNextEvent() returns (fd: Option<int>)
      modifies `batch, `heard
      ensures heard == old(heard).Then(ToWait(fd))
      ensures Drawn(old(batch), fd, batch) || Fetched(watched, fd, batch)
    {
      var next: int := *;
      var ready: seq<int> := *;
      if 0 <= next < |batch| {
        fd := Some(batch[next]);
        batch := batch[next + 1..];
      } else if ready != [] && NoRepeats(ready) && forall k | k in ready :: k in watched {
        assert ready == [ready[0]] + ready[1..];
        fd := Some(ready[0]);
        batch := ready[1..];
      } else {
        fd := None;
        batch := [];
      }
      heard := heard.Then(ToWait(fd));
    }

    /** IPolling::ChangeEventSet. */
    method ChangeEventSet(fd: int, eventflags: bv32) returns (ok: bool)
      requires fd in watched
      modifies `watched, `heard
      ensures heard == old(heard).Then(ToWatch(fd, ok))
      ensures watched == if ok then old(watched)[fd := eventflags] else old(watched)
    {
      ok := *;
      if ok {
        watched := watched[fd := eventflags];
      }
      heard := heard.Then(ToWatch(fd, ok));
    }
  }

  /** The objects of `list`, from `head` on. */
  ghost predicate ListFrom(head: StunConnection?, list: seq<StunConnection>)
    reads list
  {
    if list == [] then head == null else head == list[0] && ListFrom(list[0].pNext, list[1..])
  }

  lemma ListRest(list: seq<StunConnection>)
    requires NoRepeats(list) && list != []
    ensures NoRepeats(list[1..]) && list[0] !in list[1..]
  {
  }

  /** The free list: a stack of closed connections, linked through `pNext`. `Peers` records who a connection was last
      made for on each descriptor. */
  class CConnectionPool {
    var freelist: StunConnection?
    ghost var Free: seq<StunConnection>
    ghost var All: set<StunConnection>
    ghost var Peers: map<int, Peer>

    ghost predicate Linked()
      reads this, All
    {
      (forall c | c in Free :: c in All) && NoRepeats(Free) && ListFrom(freelist, Free)
    }

    constructor ()
      ensures Linked() && Free == [] && All == {} && Peers == map[]
    {
      freelist := null;
      Free, All, Peers := [], {}, map[];
    }

    /** Fifty new connections. */
    method Grow() returns (ghost added: seq<StunConnection>)
      requires Linked()
      modifies `freelist, `Free, `All
      ensures Linked() && Free == added + old(Free) && |added| == 50 && All == old(All) + set c | c in added
      ensures forall c | c in added :: fresh(c) && c.Value() == NEW_CONNECTION
    {
      added := [];
      for i := 0 to 50
        invariant Linked() && Free == added + old(Free) && |added| == i && All == old(All) + set c | c in added
        invariant forall c | c in added :: fresh(c) && c.Value() == NEW_CONNECTION
      {
        var pConn := Push();
        added := [pConn] + added;
      }
    }

    method Push() returns (pConn: StunConnection)
      requires Linked()
      modifies `freelist, `Free, `All
      ensures Linked() && fresh(pConn) && pConn.Value() == NEW_CONNECTION
      ensures Free == [pConn] + old(Free) && All == old(All) + {pConn}
    {
      pConn := new StunConnection(freelist);
      freelist := pConn;
      Free, All := [pConn] + Free, All + {pConn};
      assert Free[1..] == old(Free);
    }

    /** The top of the free list, made ready for a new socket. */
    method Pop(sock: int, peer: Peer, time: nat, ghost sweeps: nat) returns (pConn: StunConnection)
      requires Linked() && Free != []
      modifies this, Free[0]
      ensures Linked() && pConn == old(Free)[0] && Free == old(Free)[1..] && All == old(All)
      ensures Peers == old(Peers)[sock := peer]
      ensures pConn.Value() == Conn(sock, peer, Receiving, [], old(Free[0].output), 0, -1, time, [], sweeps)
    {
      ListRest(Free);
      pConn := freelist;
      freelist := pConn.pNext;
      pConn.pNext := null;
      pConn.fed := [];
      pConn.state := Receiving;
      pConn.sock, pConn.peer := sock, peer;
      pConn.txCount := 0;
      pConn.timeStart := time;
      pConn.idHashTable := -1;
      pConn.served, pConn.born := [], sweeps;
      Free, Peers := Free[1..], Peers[sock := peer];
    }

    method ReleaseConnection(pConn: StunConnection)
      requires Linked() && pConn in All && pConn !in Free && pConn.sock == -1
      modifies `freelist, `Free, pConn`pNext
      ensures Linked() && Free == [pConn] + old(Free)
    {
      pConn.pNext := freelist;
      freelist := pConn;
      Free := [pConn] + Free;
      assert Free[1..] == old(Free);
    }

    /** Ready for the next message on the same socket; the message just answered joins those served. */
    method ResetConnection(pConn: StunConnection)
      modifies pConn`fed, pConn`state, pConn`txCount, pConn`served
      ensures pConn.Value() == old(pConn.Value()).(fed := [], state := Receiving, txCount := 0,
                                                   served := old(pConn.served) + [old(pConn.fed)])
    {
      pConn.served := pConn.served + [pConn.fed];
      pConn.fed := [];
      pConn.state := Receiving;
      pConn.txCount := 0;
    }
  }
}
