/** Class CPoll of networkutils/polling.cpp: the descriptor array plus a hash table that maps each descriptor
    to its slot. Every method is proved against the state machine of module PollSet. */
module Polling {
  import opened Options
  import opened PollSet
  import EL = EntryList
  import opened FastHashTable

  /** `m` maps each descriptor to exactly its current slot. */
  ghost predicate Positions(m: map<int, nat>, fds: seq<PollFd>) {
    && (forall i | 0 <= i < |fds| :: fds[i].fd in m && m[fds[i].fd] == i)
    && (forall k | k in m :: m[k] < |fds| && fds[m[k]].fd == k)
  }

  lemma PositionIsSlot(m: map<int, nat>, fds: seq<PollFd>, fd: int)
    requires Positions(m, fds)
    ensures SlotOf(fds, fd) == if fd in m then m[fd] else |fds|
  {
  }

  lemma PositionKey(m: map<int, nat>, fds: seq<PollFd>, k: int)
    requires Positions(m, fds) && k in m
    ensures m[k] < |fds|
  {
  }

  lemma PositionsAdd(m: map<int, nat>, fds: seq<PollFd>, p: PollFd)
    requires Positions(m, fds) && p.fd !in m
    ensures Positions(m[p.fd := |fds|], fds + [p])
  {
  }

  /** Moving the last slot into the hole keeps the positions right. */
  lemma PositionsSwapRemove(m: map<int, nat>, fds: seq<PollFd>, pos: nat)
    requires Positions(m, fds) && pos < |fds|
    ensures fds[|fds| - 1].fd in m
    ensures Positions(Moved(m, fds, pos), SwapRemove(fds, pos))
  {
  }

  /** The positions once the last slot has moved into the hole. */
  ghost function Moved(m: map<int, nat>, fds: seq<PollFd>, pos: nat): map<int, nat>
    requires pos < |fds|
  {
    (if pos == |fds| - 1 then m else m[fds[|fds| - 1].fd := pos]) - {fds[pos].fd}
  }

  lemma PositionsSameFds(m: map<int, nat>, fds: seq<PollFd>, fds1: seq<PollFd>)
    requires Positions(m, fds) && |fds1| == |fds| && forall i | 0 <= i < |fds| :: fds1[i].fd == fds[i].fd
    ensures Positions(m, fds1)
  {
  }

  class CPoll {
    var fds: seq<PollFd>
    var rotation: nat
    var unreadcount: nat
    var fInitialized: bool
    const hashtable: FastHash<int, nat>

    ghost predicate Valid()
      reads this, hashtable, hashtable.Repr
    {
      && this !in hashtable.Repr && hashtable.Valid() && EL.UniqueKeys(hashtable.Entries)
      && (fInitialized ==> Positions(EL.AsMap(hashtable.Entries), fds))
    }

    ghost function State(): Poller
      reads this
    {
      Poller(fds, rotation, unreadcount)
    }

    /** Creation and Initialize. The hash function of a descriptor is its value as a size_t. */
    constructor (maxSockets: nat, hash: int -> nat)
      requires maxSockets > 0
      ensures Valid() && fInitialized && State() == After([])
      ensures fresh(hashtable) && fresh(hashtable.Repr) && hashtable.fsize == maxSockets
    {
      var t := InitTable<int, nat>(maxSockets, 0, hash);
      hashtable := t.value;
      fds := [];
      rotation := 0;
      unreadcount := 0;
      fInitialized := true;
    }

    method Close()
      requires Valid()
      modifies this
      ensures Valid() && !fInitialized && fds == []
    {
      fds := [];
      fInitialized := false;
    }

    /** The result of the table insertion is ignored. With a full table the new descriptor gets a slot that no later
        lookup finds, and the object is out of step with its table exactly then. */
    method Add(fd: int, eventflags: bv32) returns (answer: Answer)
      requires Valid()
      modifies this, hashtable.Repr
      ensures fInitialized == old(fInitialized)
      ensures old(fInitialized) ==> State() == Step(old(State()), PollSet.Add(fd, eventflags)).next
                                    && answer == Step(old(State()), PollSet.Add(fd, eventflags)).answer
      ensures !old(fInitialized) ==> answer == Error && State() == old(State())
      ensures Valid() <==> answer == Error || |old(fds)| < hashtable.fsize
      ensures !Valid() ==> fd !in EL.AsMap(hashtable.Entries)
    {
      if !fInitialized {
        return Error;
      }
      var found := PositionOf(fd);
      if found.Some? {
        return Error;
      }
      Append(PollFd(fd, ToNativeFlags(eventflags), 0));
      return Success;
    }

    /** Where the hash table says a descriptor is. */
    method PositionOf(fd: int) returns (found: Option<nat>)
      requires Valid() && fInitialized
      ensures found == if SlotOf(fds, fd) < |fds| then Some(SlotOf(fds, fd)) else None
      ensures found.None? <==> fd !in EL.AsMap(hashtable.Entries)
    {
      found := hashtable.Lookup(fd);
      EL.LookupAsMap(hashtable.Entries, fd);
      PositionIsSlot(EL.AsMap(hashtable.Entries), fds, fd);
    }

    /** A new slot at the end, and its position in the table if that has room. */
    method Append(pfd: PollFd)
      requires Valid() && fInitialized && pfd.fd !in EL.AsMap(hashtable.Entries)
      modifies `fds, hashtable.Repr
      ensures fds == old(fds) + [pfd]
      ensures Valid() <==> |old(fds)| < hashtable.fsize
      ensures !Valid() ==> pfd.fd !in EL.AsMap(hashtable.Entries)
    {
      PositionsAdd(EL.AsMap(hashtable.Entries), fds, pfd);
      PositionsCount(fds);
      EL.InsertAsMap(hashtable.Entries, pfd.fd, |fds|);
      var _ := hashtable.Insert(pfd.fd, |fds|);
      fds := fds + [pfd];
      assert fds[|fds| - 1].fd == pfd.fd;
    }

    method Remove(fd: int) returns (answer: Answer)
      requires Valid()
      modifies this, hashtable.Repr
      ensures Valid() && fInitialized == old(fInitialized)
      ensures old(fInitialized) ==> State() == Step(old(State()), PollSet.Remove(fd)).next
                                    && answer == Step(old(State()), PollSet.Remove(fd)).answer
      ensures !old(fInitialized) ==> answer == Error && State() == old(State())
    {
      if !fInitialized || |fds| == 0 {
        return Error;
      }
      var found := PositionOf(fd);
      if found.None? {
        return Error;
      }
      RemoveSlot(fd, found.value);
      return Success;
    }

    method RemoveSlot(fd: int, pos: nat)
      requires Valid() && fInitialized && pos < |fds| && fds[pos].fd == fd
      modifies `fds, hashtable.Repr
      ensures Valid() && fds == SwapRemove(old(fds), pos)
    {
      PositionsSwapRemove(EL.AsMap(hashtable.Entries), fds, pos);
      Detach(fd, pos);
    }

    ghost predicate TableOk()
      reads hashtable, hashtable.Repr
    {
      this !in hashtable.Repr && hashtable.Valid() && EL.UniqueKeys(hashtable.Entries)
    }

    /** The last slot moves into the hole and the table follows. */
    method Detach(fd: int, pos: nat)
      requires TableOk() && pos < |fds| && fds[pos].fd == fd && fds[|fds| - 1].fd in EL.AsMap(hashtable.Entries)
      modifies `fds, hashtable.Repr
      ensures TableOk() && fds == SwapRemove(old(fds), pos)
      ensures EL.AsMap(hashtable.Entries) == Moved(old(EL.AsMap(hashtable.Entries)), old(fds), pos)
    {
      if pos != |fds| - 1 {
        Move(fds[|fds| - 1].fd, pos);
      }
      Unlist(fd);
      Shift(pos);
    }

    method Shift(pos: nat)
      requires pos < |fds|
      modifies `fds
      ensures fds == SwapRemove(old(fds), pos)
    {
      var size := |fds|;
      if pos != size - 1 {
        fds := fds[pos := fds[size - 1]];
      }
      fds := fds[..size - 1];
    }

    /** The write through the position pointer. */
    method Move(fd: int, pos: nat)
      requires hashtable.Valid() && EL.UniqueKeys(hashtable.Entries) && fd in EL.AsMap(hashtable.Entries)
      modifies hashtable.Repr
      ensures hashtable.Valid() && EL.UniqueKeys(hashtable.Entries)
      ensures EL.AsMap(hashtable.Entries) == old(EL.AsMap(hashtable.Entries))[fd := pos]
    {
      EL.PositionInKeys(hashtable.Entries, fd);
      EL.ReplaceAsMap(hashtable.Entries, fd, pos);
      hashtable.Assign(fd, pos);
    }

    method Unlist(fd: int)
      requires hashtable.Valid() && EL.UniqueKeys(hashtable.Entries)
      modifies hashtable.Repr
      ensures hashtable.Valid() && EL.UniqueKeys(hashtable.Entries)
      ensures EL.AsMap(hashtable.Entries) == old(EL.AsMap(hashtable.Entries)) - {fd}
    {
      EL.RemoveAsMap(hashtable.Entries, fd);
      var _ := hashtable.Remove(fd);
    }

    method ChangeEventSet(fd: int, eventflags: bv32) returns (answer: Answer)
      requires Valid()
      modifies this
      ensures Valid() && fInitialized == old(fInitialized)
      ensures old(fInitialized) ==> State() == Step(old(State()), PollSet.ChangeEventSet(fd, eventflags)).next
                                    && answer == Step(old(State()), PollSet.ChangeEventSet(fd, eventflags)).answer
      ensures !old(fInitialized) ==> answer == Error && State() == old(State())
    {
      if !fInitialized || |fds| == 0 {
        return Error;
      }
      var found := PositionOf(fd);
      if found.None? {
        return Error;
      }
      var pos := found.value;
      ghost var before := fds;
      fds := fds[pos := fds[pos].(events := ToNativeFlags(eventflags))];
      PositionsSameFds(EL.AsMap(hashtable.Entries), before, fds);
      return Success;
    }

    method FindNextEvent() returns (found: Option<Report>)
      requires |fds| > 0
      modifies `fds, `rotation, `unreadcount
      ensures (State(), found) == FindNext(old(State()))
      ensures |fds| == |old(fds)| && forall i | 0 <= i < |fds| :: fds[i].fd == old(fds)[i].fd
    {
      var size := |fds|;
      if unreadcount == 0 {
        return None;
      }
      if rotation >= size {
        rotation := 0;
      }
      var index := 0;
      while index < size
        invariant index <= size && fds == old(fds) && unreadcount == old(unreadcount)
        invariant rotation == if old(rotation) >= size then 0 else old(rotation)
        invariant NextSlot(fds, rotation, index) == NextSlot(fds, rotation, 0)
      {
        var slotindex := (index + rotation) % size;
        if fds[slotindex].revents != 0 {
          assert Circular(index, rotation, size) == slotindex;
          found := Some((fds[slotindex].fd, fds[slotindex].revents));
          fds := fds[slotindex := fds[slotindex].(revents := 0)];
          rotation := rotation + 1;
          unreadcount := unreadcount - 1;
          return;
        }
        index := index + 1;
      }
      return None;
    }

    /** WaitForNextEvent, with the kernel's answer for the case that it is asked. */
    method WaitForNextEvent(reply: Reply) returns (answer: Answer)
      requires Valid()
      modifies `fds, `rotation, `unreadcount
      ensures Valid()
      ensures fInitialized ==> State() == Step(old(State()), Wait(reply)).next
                               && answer == Step(old(State()), Wait(reply)).answer
      ensures !fInitialized ==> answer == Error && State() == old(State())
    {
      if !fInitialized {
        return Error;
      }
      ghost var before := fds;
      answer := NextEvent(reply);
      PositionsSameFds(EL.AsMap(hashtable.Entries), before, fds);
    }

    /** The body of WaitForNextEvent once the set is known to be initialized. */
    method NextEvent(reply: Reply) returns (answer: Answer)
      modifies `fds, `rotation, `unreadcount
      ensures State() == Step(old(State()), Wait(reply)).next
      ensures answer == Step(old(State()), Wait(reply)).answer
      ensures |fds| == |old(fds)| && forall i | 0 <= i < |fds| :: fds[i].fd == old(fds)[i].fd
    {
      if |fds| == 0 {
        return NoEvent;
      }
      var found := FindNextEvent();
      if found.None? {
        unreadcount := 0;
        if reply.Failed? {
          return Error;
        }
        fds := WithRevents(fds, reply.ready);
        var ret := CountReady(fds);
        if ret == 0 {
          return NoEvent;
        }
        unreadcount := ret;
        found := FindNextEvent();
      }
      answer := if found.Some? then ToEvent(found.value) else NoEvent;
    }

    lemma PositionsCount(slots: seq<PollFd>)
      requires EL.UniqueKeys(hashtable.Entries) && Positions(EL.AsMap(hashtable.Entries), slots)
      ensures |hashtable.Entries| == |slots|
    {
      var m := EL.AsMap(hashtable.Entries);
      EL.AsMapSize(hashtable.Entries);
      CountPositions(m, slots);
    }
  }

  lemma {:induction false} CountPositions(m: map<int, nat>, fds: seq<PollFd>)
    requires Positions(m, fds)
    ensures |m| == |fds|
    decreases |fds|
  {
    if fds == [] {
      forall k ensures k !in m {
        if k in m {
          PositionKey(m, fds, k);
        }
      }
      assert m == map[];
    } else {
      var pos := |fds| - 1;
      PositionsSwapRemove(m, fds, pos);
      CountPositions(Moved(m, fds, pos), SwapRemove(fds, pos));
      assert m.Keys == (m - {fds[pos].fd}).Keys + {fds[pos].fd};
    }
  }
}
