/** The descriptor array of class CPoll in networkutils/polling.cpp as a state machine over its operations. */
module PollSet {
  import opened Options

  // ---- event flags ----

  const IPOLLING_READ: bv32 := 0x01
  const IPOLLING_WRITE: bv32 := 0x02
  const IPOLLING_EDGETRIGGER: bv32 := 0x04
  const IPOLLING_RDHUP: bv32 := 0x08
  const IPOLLING_HUP: bv32 := 0x10
  const IPOLLING_PRI: bv32 := 0x20
  const IPOLLING_ERROR: bv32 := 0x40

  // The values Linux gives to the flags of poll().
  const POLLIN: bv32 := 0x001
  const POLLPRI: bv32 := 0x002
  const POLLOUT: bv32 := 0x004
  const POLLERR: bv32 := 0x008
  const POLLHUP: bv32 := 0x010
  const POLLRDHUP: bv32 := 0x2000

  function Bit(flags: bv32, test: bv32, result: bv32): bv32 {
    if flags & test != 0 then result else 0
  }

  function ToNativeFlags(eventflags: bv32): bv32 {
    Bit(eventflags, IPOLLING_READ, POLLIN) | Bit(eventflags, IPOLLING_WRITE, POLLOUT)
    | Bit(eventflags, IPOLLING_RDHUP, POLLRDHUP) | Bit(eventflags, IPOLLING_HUP, POLLHUP)
    | Bit(eventflags, IPOLLING_PRI, POLLPRI) | Bit(eventflags, IPOLLING_ERROR, POLLERR)
  }

  function FromNativeFlags(eventflags: bv32): bv32 {
    Bit(eventflags, POLLIN, IPOLLING_READ) | Bit(eventflags, POLLOUT, IPOLLING_WRITE)
    | Bit(eventflags, POLLRDHUP, IPOLLING_RDHUP) | Bit(eventflags, POLLHUP, IPOLLING_HUP)
    | Bit(eventflags, POLLPRI, IPOLLING_PRI) | Bit(eventflags, POLLERR, IPOLLING_ERROR)
  }

  /** Translating there and back loses the edge-trigger flag and bits above the flags, nothing else. */
  lemma FlagsRoundTrip(flags: bv32)
    ensures FromNativeFlags(ToNativeFlags(flags)) == flags & 0x7B
  {
  }

  /** Each flag is translated to the one of poll() for the same event, and back. */
  lemma FlagByFlag(flags: bv32)
    ensures ToNativeFlags(flags) & 0x001 != 0 <==> flags & IPOLLING_READ != 0
    ensures ToNativeFlags(flags) & 0x002 != 0 <==> flags & IPOLLING_PRI != 0
    ensures ToNativeFlags(flags) & 0x004 != 0 <==> flags & IPOLLING_WRITE != 0
    ensures ToNativeFlags(flags) & 0x008 != 0 <==> flags & IPOLLING_ERROR != 0
    ensures ToNativeFlags(flags) & 0x010 != 0 <==> flags & IPOLLING_HUP != 0
    ensures ToNativeFlags(flags) & 0x2000 != 0 <==> flags & IPOLLING_RDHUP != 0
    ensures ToNativeFlags(flags) & 0xffff_dfe0 == 0
  {
  }

  // ---- the array ----

  datatype PollFd = PollFd(fd: int, events: bv32, revents: bv32)

  datatype Poller = Poller(fds: seq<PollFd>, rotation: nat, unread: nat)

  /** What the kernel answers to one call of poll(): the events that are ready on each descriptor. */
  datatype Reply = Failed | Returned(ready: int -> bv32)

  datatype Op =
    | Add(fd: int, eventflags: bv32)
    | Remove(fd: int)
    | ChangeEventSet(fd: int, eventflags: bv32)
    | Wait(reply: Reply)

  /** The outcome of an operation: an event, success without one (S_OK or S_FALSE) or an error. */
  datatype Answer = Event(fd: int, eventflags: bv32) | NoEvent | Success | Error

  type Report = (int, bv32)

  ghost predicate Unique(fds: seq<PollFd>) {
    forall i, j | 0 <= i < j < |fds| :: fds[i].fd != fds[j].fd
  }

  /** The slot of a descriptor, or the length. */
  function SlotOf(fds: seq<PollFd>, fd: int): (i: nat)
    ensures i <= |fds|
    ensures i < |fds| ==> fds[i].fd == fd
    ensures forall j | 0 <= j < i :: fds[j].fd != fd
  {
    if fds == [] || fds[0].fd == fd then 0 else 1 + SlotOf(fds[1..], fd)
  }

  /** The registered descriptors with their flags, without their order. */
  ghost function View(fds: seq<PollFd>): set<PollFd> {
    set p | p in fds
  }

  /** The events poll() reported that are still to be delivered. */
  ghost function Undelivered(fds: seq<PollFd>): multiset<Report> {
    if fds == [] then multiset{} else
      Undelivered(fds[..|fds| - 1]) + ReportOf(fds[|fds| - 1])
  }

  ghost function ReportOf(p: PollFd): multiset<Report> {
    if p.revents != 0 then multiset{(p.fd, p.revents)} else multiset{}
  }

  function SwapRemove(fds: seq<PollFd>, pos: nat): seq<PollFd>
    requires pos < |fds|
  {
    (if pos != |fds| - 1 then fds[pos := fds[|fds| - 1]] else fds)[..|fds| - 1]
  }

  function Circular(index: nat, rotation: nat, n: nat): (i: nat)
    requires n > 0
    ensures i < n
  {
    (index + rotation) % n
  }

  /** The first slot with an undelivered event, searching circularly from `rotation`; `index` were tried. */
  function NextSlot(fds: seq<PollFd>, rotation: nat, index: nat): (r: Option<nat>)
    requires fds != [] && index <= |fds|
    ensures r.Some? ==> r.value < |fds| && fds[r.value].revents != 0
    decreases |fds| - index
  {
    if index == |fds| then None
    else if fds[Circular(index, rotation, |fds|)].revents != 0 then Some(Circular(index, rotation, |fds|))
    else NextSlot(fds, rotation, index + 1)
  }

  /** FindNextEvent. */
  function FindNext(s: Poller): (Poller, Option<Report>)
    requires s.fds != []
  {
    if s.unread == 0 then (s, None) else
      var rotation := if s.rotation >= |s.fds| then 0 else s.rotation;
      match NextSlot(s.fds, rotation, 0)
      case None => (s.(rotation := rotation), None)
      case Some(i) =>
        (Poller(s.fds[i := s.fds[i].(revents := 0)], rotation + 1, s.unread - 1),
         Some((s.fds[i].fd, s.fds[i].revents)))
  }

  /** poll() fills in the ready events of every descriptor. */
  function WithRevents(fds: seq<PollFd>, ready: int -> bv32): (r: seq<PollFd>)
    ensures |r| == |fds|
    ensures forall i | 0 <= i < |r| :: r[i] == fds[i].(revents := ready(fds[i].fd))
  {
    seq(|fds|, i requires 0 <= i < |fds| => fds[i].(revents := ready(fds[i].fd)))
  }

  /** The value poll() returns: how many descriptors have something to report. */
  function CountReady(fds: seq<PollFd>): nat {
    if fds == [] then 0 else
      CountReady(fds[..|fds| - 1]) + (if fds[|fds| - 1].revents != 0 then 1 else 0)
  }

  function ToEvent(r: Report): Answer {
    Event(r.0, FromNativeFlags(r.1))
  }

  /** What an operation answers, what the kernel reported, what was handed over and what was thrown away. */
  datatype Effect = Effect(next: Poller, answer: Answer, polled: bool, ghost reported: multiset<Report>,
                           ghost delivered: multiset<Report>, ghost dropped: multiset<Report>)

  ghost function Quiet(s: Poller, answer: Answer): Effect {
    Effect(s, answer, false, multiset{}, multiset{}, multiset{})
  }

  ghost function Step(s: Poller, op: Op): Effect {
    match op
    case Add(fd, eventflags) =>
      if SlotOf(s.fds, fd) < |s.fds| then Quiet(s, Error)
      else Quiet(s.(fds := s.fds + [PollFd(fd, ToNativeFlags(eventflags), 0)]), Success)
    case Remove(fd) =>
      var pos := SlotOf(s.fds, fd);
      if pos == |s.fds| then Quiet(s, Error)
      else Quiet(s.(fds := SwapRemove(s.fds, pos)), Success).(dropped := ReportOf(s.fds[pos]))
    case ChangeEventSet(fd, eventflags) =>
      var pos := SlotOf(s.fds, fd);
      if pos == |s.fds| then Quiet(s, Error)
      else Quiet(s.(fds := s.fds[pos := s.fds[pos].(events := ToNativeFlags(eventflags))]), Success)
    case Wait(reply) =>
      if s.fds == [] then Quiet(s, NoEvent) else
        var (s1, found) := FindNext(s);
        if found.Some? then Quiet(s1, ToEvent(found.value)).(delivered := multiset{found.value})
        else Poll(s1.(unread := 0), reply)
  }

  /** The part of WaitForNextEvent that asks the kernel. */
  ghost function Poll(s: Poller, reply: Reply): Effect
    requires s.fds != []
  {
    match reply
    case Failed => Quiet(s, Error).(polled := true)
    case Returned(ready) =>
      var fds := WithRevents(s.fds, ready);
      var asked := s.(fds := fds, unread := CountReady(fds));
      if CountReady(fds) == 0 then Quiet(asked, NoEvent).(polled := true)
      else
        var (s1, found) := FindNext(asked);
        Effect(s1, if found.Some? then ToEvent(found.value) else NoEvent, true, Undelivered(fds),
               if found.Some? then multiset{found.value} else multiset{}, multiset{})
  }

  // ---- single steps ----

  lemma Regroup(a: multiset<Report>, b: multiset<Report>, c: multiset<Report>, d: multiset<Report>)
    ensures (a + b + c) + d == a + b + (c + d)
    ensures (a + b + c) + d == (a + d + c) + b
  {
  }

  lemma UndeliveredLast(fds: seq<PollFd>, front: seq<PollFd>, p: PollFd)
    requires fds == front + [p]
    ensures Undelivered(fds) == Undelivered(front) + ReportOf(p)
  {
    assert fds[..|fds| - 1] == front;
  }

  lemma {:induction false} UndeliveredSplit(a: seq<PollFd>, p: PollFd, c: seq<PollFd>)
    ensures Undelivered(a + [p] + c) == Undelivered(a) + ReportOf(p) + Undelivered(c)
    decreases |c|
  {
    if c == [] {
      UndeliveredLast(a + [p] + c, a, p);
    } else {
      var front, last := c[..|c| - 1], c[|c| - 1];
      UndeliveredSplit(a, p, front);
      UndeliveredLast(a + [p] + c, a + [p] + front, last);
      Regroup(Undelivered(a), ReportOf(p), Undelivered(front), ReportOf(last));
    }
  }

  lemma Decompose<T>(s: seq<T>, i: nat, x: T)
    requires i < |s|
    ensures s == s[..i] + [s[i]] + s[i + 1..]
    ensures s[i := x] == s[..i] + [x] + s[i + 1..]
  {
  }

  lemma UndeliveredAt(fds: seq<PollFd>, a: seq<PollFd>, p: PollFd, c: seq<PollFd>)
    requires fds == a + [p] + c
    ensures Undelivered(fds) == Undelivered(a) + ReportOf(p) + Undelivered(c)
  {
    UndeliveredSplit(a, p, c);
  }

  lemma UndeliveredUpdate(fds: seq<PollFd>, i: nat, p: PollFd)
    requires i < |fds|
    ensures Undelivered(fds[i := p]) + ReportOf(fds[i]) == Undelivered(fds) + ReportOf(p)
  {
    var a, c := fds[..i], fds[i + 1..];
    Decompose(fds, i, p);
    UndeliveredAt(fds, a, fds[i], c);
    UndeliveredAt(fds[i := p], a, p, c);
    Regroup(Undelivered(a), ReportOf(p), Undelivered(c), ReportOf(fds[i]));
  }

  lemma UndeliveredSwapRemove(fds: seq<PollFd>, pos: nat)
    requires pos < |fds|
    ensures Undelivered(SwapRemove(fds, pos)) + ReportOf(fds[pos]) == Undelivered(fds)
  {
    var last := fds[|fds| - 1];
    var front := fds[..|fds| - 1];
    if pos != |fds| - 1 {
      assert SwapRemove(fds, pos) == front[pos := last];
      UndeliveredUpdate(front, pos, last);
    } else {
      assert SwapRemove(fds, pos) == front;
    }
  }

  lemma {:induction false} UndeliveredCount(fds: seq<PollFd>)
    ensures |Undelivered(fds)| == CountReady(fds)
  {
    if fds != [] {
      UndeliveredCount(fds[..|fds| - 1]);
    }
  }

  lemma {:induction false} UndeliveredEmpty(fds: seq<PollFd>)
    ensures |Undelivered(fds)| == 0 <==> forall i | 0 <= i < |fds| :: fds[i].revents == 0
  {
    if fds != [] {
      UndeliveredEmpty(fds[..|fds| - 1]);
      assert fds == fds[..|fds| - 1] + [fds[|fds| - 1]];
    }
  }

  /** The circular scan, started anywhere, reaches every slot. */
  lemma {:induction false} ScanReaches(fds: seq<PollFd>, rotation: nat, index: nat, k: nat)
    requires fds != [] && index <= k < |fds|
    requires NextSlot(fds, rotation, index) == None
    ensures fds[Circular(k, rotation, |fds|)].revents == 0
    decreases |fds| - index
  {
    if k > index {
      ScanReaches(fds, rotation, index + 1, k);
    }
  }

  /** The scan finds the pending slot that comes first from `rotation` on. */
  lemma {:induction false} NextIsNearest(fds: seq<PollFd>, rotation: nat, index: nat) returns (k: nat)
    requires fds != [] && index <= |fds| && NextSlot(fds, rotation, index).Some?
    ensures index <= k < |fds| && NextSlot(fds, rotation, index) == Some(Circular(k, rotation, |fds|))
    ensures fds[Circular(k, rotation, |fds|)].revents != 0
    ensures forall j | index <= j < k :: fds[Circular(j, rotation, |fds|)].revents == 0
    decreases |fds| - index
  {
    k := index;
    if fds[Circular(index, rotation, |fds|)].revents == 0 {
      k := NextIsNearest(fds, rotation, index + 1);
    }
  }

  lemma SlotIsReached(n: nat, rotation: nat, i: nat) returns (k: nat)
    requires rotation < n && i < n
    ensures k < n && Circular(k, rotation, n) == i
  {
    k := if i >= rotation then i - rotation else i - rotation + n;
    if i < rotation {
      assert k + rotation == n + i;
    }
  }

  lemma NoneLeft(fds: seq<PollFd>, rotation: nat)
    requires fds != [] && rotation < |fds| && NextSlot(fds, rotation, 0) == None
    ensures Undelivered(fds) == multiset{}
  {
    forall i | 0 <= i < |fds| ensures fds[i].revents == 0 {
      var k := SlotIsReached(|fds|, rotation, i);
      ScanReaches(fds, rotation, 0, k);
    }
    UndeliveredEmpty(fds);
  }

  /** FindNextEvent hands over one undelivered event, and fails to only when there is none. */
  lemma FindNextConserves(s: Poller)
    requires s.fds != [] && s.unread >= |Undelivered(s.fds)|
    ensures var (s1, found) := FindNext(s);
            match found
            case None => Undelivered(s.fds) == multiset{} && s1.fds == s.fds && s1.unread == s.unread
            case Some(r) =>
              Undelivered(s.fds) == Undelivered(s1.fds) + multiset{r} && s1.unread == s.unread - 1
              && |s1.fds| == |s.fds|
  {
    if s.unread > 0 {
      var rotation := if s.rotation >= |s.fds| then 0 else s.rotation;
      match NextSlot(s.fds, rotation, 0)
      case None => NoneLeft(s.fds, rotation);
      case Some(i) => UndeliveredUpdate(s.fds, i, s.fds[i].(revents := 0));
    }
  }

  ghost predicate Good(s: Poller) {
    Unique(s.fds) && s.unread >= |Undelivered(s.fds)|
  }

  lemma SwapRemoveIsRemoval(fds: seq<PollFd>, pos: nat)
    requires Unique(fds) && pos < |fds|
    ensures Unique(SwapRemove(fds, pos))
    ensures View(SwapRemove(fds, pos)) == set p | p in View(fds) && p.fd != fds[pos].fd
  {
    var r := SwapRemove(fds, pos);
    forall p ensures p in r <==> p in fds && p.fd != fds[pos].fd {
      if p in fds && p.fd != fds[pos].fd {
        var i :| 0 <= i < |fds| && fds[i] == p;
        assert r[if i == |fds| - 1 then pos else i] == p;
      }
    }
  }

  /** What poll() reports is neither lost nor repeated by an operation, the kernel is asked only when
      nothing is left to deliver, and `unread` overstates what is left by what Remove threw away. */
  ghost predicate Conserves(s: Poller, e: Effect) {
    && Good(e.next)
    && Undelivered(s.fds) + e.reported == Undelivered(e.next.fds) + e.delivered + e.dropped
    && (e.polled ==> Undelivered(s.fds) == multiset{})
    && e.next.unread - |Undelivered(e.next.fds)|
       == (if e.polled then 0 else s.unread - |Undelivered(s.fds)| + |e.dropped|)
  }

  /** Wait answers with an event exactly when it hands one over, and does so whenever there is one. */
  ghost predicate AnswersTruly(s: Poller, e: Effect) {
    && (e.answer.Event? <==> e.delivered != multiset{})
    && (e.answer.Event? ==> exists r: Report :: e.delivered == multiset{r} && e.answer == ToEvent(r))
    && (e.answer.Event? <==> Undelivered(s.fds) + e.reported != multiset{})
  }

  lemma FindNextKeepsUnique(s: Poller)
    requires s.fds != [] && Unique(s.fds)
    ensures Unique(FindNext(s).0.fds)
  {
  }

  /** After poll() has answered, the count it returned covers what it reported. */
  lemma PollCounts(s: Poller, ready: int -> bv32)
    requires s.fds != [] && Unique(s.fds)
    ensures var asked := Poller(WithRevents(s.fds, ready), s.rotation, CountReady(WithRevents(s.fds, ready)));
            Unique(asked.fds) && asked.unread == |Undelivered(asked.fds)| && Unique(FindNext(asked).0.fds)
  {
    var fds := WithRevents(s.fds, ready);
    UndeliveredCount(fds);
    FindNextKeepsUnique(Poller(fds, s.rotation, CountReady(fds)));
  }

  lemma PollConserves(s: Poller, reply: Reply)
    requires s.fds != [] && Unique(s.fds) && Undelivered(s.fds) == multiset{} && s.unread == 0
    ensures Conserves(s, Poll(s, reply)) && AnswersTruly(s, Poll(s, reply))
  {
    if reply.Returned? {
      PollCounts(s, reply.ready);
      var asked := s.(fds := WithRevents(s.fds, reply.ready), unread := CountReady(WithRevents(s.fds, reply.ready)));
      if asked.unread == 0 {
        assert Undelivered(asked.fds) == multiset{};
      } else {
        FindNextConserves(asked);
        var (s1, found) := FindNext(asked);
        PolledConserves(s, asked, s1, found.value);
      }
    }
  }

  lemma PolledConserves(s: Poller, asked: Poller, s1: Poller, r: Report)
    requires Undelivered(s.fds) == multiset{} && s.unread == 0 && Unique(s1.fds)
    requires asked.unread == |Undelivered(asked.fds)| && s1.unread == asked.unread - 1
    requires Undelivered(asked.fds) == Undelivered(s1.fds) + multiset{r}
    ensures var e := Effect(s1, ToEvent(r), true, Undelivered(asked.fds), multiset{r}, multiset{});
            Conserves(s, e) && AnswersTruly(s, e)
  {
    assert r in Undelivered(asked.fds);
  }

  lemma DeliverConserves(s: Poller, r: Report)
    requires Good(s) && s.fds != [] && FindNext(s).1 == Some(r)
    ensures var e := Quiet(FindNext(s).0, ToEvent(r)).(delivered := multiset{r});
            Conserves(s, e) && AnswersTruly(s, e)
  {
    FindNextConserves(s);
    FindNextKeepsUnique(s);
  }

  lemma WaitConserves(s: Poller, reply: Reply)
    requires Good(s)
    ensures Conserves(s, Step(s, Wait(reply))) && AnswersTruly(s, Step(s, Wait(reply)))
  {
    if s.fds != [] {
      var (s1, found) := FindNext(s);
      match found
      case Some(r) => DeliverConserves(s, r);
      case None =>
        FindNextConserves(s);
        PollConserves(s1.(unread := 0), reply);
    } else {
      assert Undelivered(s.fds) == multiset{};
    }
  }

  lemma AddConserves(s: Poller, fd: int, eventflags: bv32)
    requires Good(s)
    ensures Conserves(s, Step(s, Add(fd, eventflags)))
  {
    if SlotOf(s.fds, fd) == |s.fds| {
      var p := PollFd(fd, ToNativeFlags(eventflags), 0);
      UndeliveredLast(s.fds + [p], s.fds, p);
    }
  }

  lemma RemoveConserves(s: Poller, fd: int)
    requires Good(s)
    ensures Conserves(s, Step(s, Remove(fd)))
  {
    var pos := SlotOf(s.fds, fd);
    if pos < |s.fds| {
      UndeliveredSwapRemove(s.fds, pos);
      SwapRemoveIsRemoval(s.fds, pos);
    }
  }

  lemma ChangeConserves(s: Poller, fd: int, eventflags: bv32)
    requires Good(s)
    ensures Conserves(s, Step(s, ChangeEventSet(fd, eventflags)))
  {
    var pos := SlotOf(s.fds, fd);
    if pos < |s.fds| {
      Rearmed(s.fds, pos, ToNativeFlags(eventflags));
      QuietConserves(s, s.fds[pos := s.fds[pos].(events := ToNativeFlags(eventflags))], Success);
    } else {
      assert s.(fds := s.fds) == s;
      QuietConserves(s, s.fds, Error);
    }
  }

  /** Other flags for a descriptor change nothing about its event. */
  lemma Rearmed(fds: seq<PollFd>, pos: nat, events: bv32)
    requires pos < |fds| && Unique(fds)
    ensures Unique(fds[pos := fds[pos].(events := events)])
    ensures Undelivered(fds[pos := fds[pos].(events := events)]) == Undelivered(fds)
  {
    var p := fds[pos].(events := events);
    UndeliveredUpdate(fds, pos, p);
    Cancel(Undelivered(fds[pos := p]), Undelivered(fds), ReportOf(p));
  }

  lemma QuietConserves(s: Poller, fds: seq<PollFd>, answer: Answer)
    requires Good(s) && Unique(fds) && Undelivered(fds) == Undelivered(s.fds)
    ensures Conserves(s, Quiet(s.(fds := fds), answer))
  {
  }

  lemma Cancel(a: multiset<Report>, b: multiset<Report>, c: multiset<Report>)
    requires a + c == b + c
    ensures a == b
  {
    forall r: Report ensures a[r] == b[r] {
      assert (a + c)[r] == (b + c)[r];
    }
  }

  lemma StepConserves(s: Poller, op: Op)
    requires Good(s)
    ensures Conserves(s, Step(s, op))
  {
    match op
    case Add(fd, eventflags) => AddConserves(s, fd, eventflags);
    case Remove(fd) => RemoveConserves(s, fd);
    case ChangeEventSet(fd, eventflags) => ChangeConserves(s, fd, eventflags);
    case Wait(reply) => WaitConserves(s, reply);
  }

  /** Adding, swap-removing and re-arming act on the registered descriptors as on a set: the flags and the
      undelivered event of every other descriptor stay what they were. */
  lemma RefinesSet(s: Poller, op: Op)
    requires Good(s) && !op.Wait?
    ensures var e, registered := Step(s, op), (exists p :: p in View(s.fds) && p.fd == op.fd);
            match op
            case Add(fd, eventflags) =>
              View(e.next.fds) == View(s.fds) + (if registered then {} else {PollFd(fd, ToNativeFlags(eventflags), 0)})
              && e.answer == (if registered then Error else Success)
            case Remove(fd) =>
              View(e.next.fds) == (set p | p in View(s.fds) && p.fd != fd)
              && e.answer == (if registered then Success else Error)
            case ChangeEventSet(fd, eventflags) =>
              View(e.next.fds) == (set p | p in View(s.fds) ::
                                     if p.fd == fd then p.(events := ToNativeFlags(eventflags)) else p)
              && e.answer == (if registered then Success else Error)
  {
    SlotIsRegistered(s.fds, op.fd);
    match op
    case Add(fd, eventflags) =>
    case Remove(fd) => RemovedView(s.fds, fd);
    case ChangeEventSet(fd, eventflags) => ChangedView(s.fds, fd, ToNativeFlags(eventflags));
  }

  lemma SlotIsRegistered(fds: seq<PollFd>, fd: int)
    ensures SlotOf(fds, fd) < |fds| <==> exists p :: p in View(fds) && p.fd == fd
  {
    var pos := SlotOf(fds, fd);
    if pos < |fds| {
      assert fds[pos] in View(fds);
    }
  }

  lemma RemovedView(fds: seq<PollFd>, fd: int)
    requires Unique(fds)
    ensures var pos := SlotOf(fds, fd);
            View(if pos == |fds| then fds else SwapRemove(fds, pos)) == set p | p in View(fds) && p.fd != fd
  {
    var pos := SlotOf(fds, fd);
    if pos < |fds| {
      SwapRemoveIsRemoval(fds, pos);
    }
  }

  lemma ChangedView(fds: seq<PollFd>, fd: int, flags: bv32)
    requires Unique(fds)
    ensures var pos := SlotOf(fds, fd);
            View(if pos == |fds| then fds else fds[pos := fds[pos].(events := flags)])
            == set p | p in View(fds) :: if p.fd == fd then p.(events := flags) else p
  {
    var pos := SlotOf(fds, fd);
    if pos < |fds| {
      UpdatedView(fds, pos, flags);
    } else {
      var after := set p | p in View(fds) :: if p.fd == fd then p.(events := flags) else p;
      forall p | p in View(fds) ensures p in after {
      }
      assert after == View(fds);
    }
  }

  lemma UpdatedView(fds: seq<PollFd>, pos: nat, flags: bv32)
    requires Unique(fds) && pos < |fds|
    ensures View(fds[pos := fds[pos].(events := flags)])
            == set p | p in View(fds) :: if p.fd == fds[pos].fd then p.(events := flags) else p
  {
    var fds1 := fds[pos := fds[pos].(events := flags)];
    var after := set p | p in View(fds) :: if p.fd == fds[pos].fd then p.(events := flags) else p;
    forall q | q in View(fds1) ensures q in after {
      var i :| 0 <= i < |fds1| && fds1[i] == q;
      assert fds[i] in View(fds);
      assert q == if fds[i].fd == fds[pos].fd then fds[i].(events := flags) else fds[i];
    }
    forall q | q in after ensures q in View(fds1) {
      var p :| p in View(fds) && q == if p.fd == fds[pos].fd then p.(events := flags) else p;
      var i :| 0 <= i < |fds| && fds[i] == p;
      assert fds1[i] == q;
    }
  }

  // ---- runs ----

  /** The state after a run that starts with no descriptors. */
  ghost function After(run: seq<Op>): Poller {
    if run == [] then Poller([], 0, 0) else Step(After(run[..|run| - 1]), run[|run| - 1]).next
  }

  datatype Tally = Tally(reported: multiset<Report>, delivered: multiset<Report>, dropped: multiset<Report>,
                         droppedSincePoll: nat)

  ghost function Count(t: Tally, e: Effect): Tally {
    Tally(t.reported + e.reported, t.delivered + e.delivered, t.dropped + e.dropped,
          if e.polled then 0 else t.droppedSincePoll + |e.dropped|)
  }

  /** Everything that happened to events during a run. */
  ghost function TallyOf(run: seq<Op>): Tally {
    if run == [] then Tally(multiset{}, multiset{}, multiset{}, 0) else
      Count(TallyOf(run[..|run| - 1]), Step(After(run[..|run| - 1]), run[|run| - 1]))
  }

  /** Over every run, an event the kernel reported has been delivered once, or its descriptor was removed
      first, or it is still waiting in its slot. */
  lemma {:induction false} EventsConserved(run: seq<Op>)
    ensures Good(After(run))
    ensures TallyOf(run).reported
            == TallyOf(run).delivered + TallyOf(run).dropped + Undelivered(After(run).fds)
    ensures After(run).unread == |Undelivered(After(run).fds)| + TallyOf(run).droppedSincePoll
  {
    if run != [] {
      var front := run[..|run| - 1];
      EventsConserved(front);
      StepConserves(After(front), run[|run| - 1]);
      var e := Step(After(front), run[|run| - 1]);
      Balance(TallyOf(front), e, Undelivered(After(front).fds), Undelivered(e.next.fds));
    }
  }

  lemma Balance(t: Tally, e: Effect, before: multiset<Report>, after: multiset<Report>)
    requires t.reported == t.delivered + t.dropped + before
    requires before + e.reported == after + e.delivered + e.dropped
    ensures t.reported + e.reported == (t.delivered + e.delivered) + (t.dropped + e.dropped) + after
  {
    forall r: Report
      ensures (t.reported + e.reported)[r] == ((t.delivered + e.delivered) + (t.dropped + e.dropped) + after)[r]
    {
      assert (before + e.reported)[r] == (after + e.delivered + e.dropped)[r];
    }
  }

  /** The assertion WaitForNextEvent makes before it asks the kernel. */
  ghost predicate CountIsZeroBeforePoll(s: Poller) {
    s.fds != [] && FindNext(s).1.None? ==> s.unread == 0
  }

  /** When the kernel is about to be asked, that assertion holds exactly if no undelivered event was removed
      with its descriptor since the last poll. */
  lemma AssertionHoldsIff(run: seq<Op>)
    requires After(run).fds != [] && Undelivered(After(run).fds) == multiset{}
    ensures CountIsZeroBeforePoll(After(run)) <==> TallyOf(run).droppedSincePoll == 0
  {
    EventsConserved(run);
    FindNextConserves(After(run));
  }

  /** Two ready descriptors, one event taken, the other descriptor removed: the next wait finds a count of one
      and nothing to deliver. */
  lemma AssertionCanFail()
    ensures exists run :: !CountIsZeroBeforePoll(After(run))
  {
    var run, s := PolledRun();
    AfterOne(run, Remove(4));
    RemoveReady();
    assert !CountIsZeroBeforePoll(After(run + [Remove(4)]));
  }

  lemma PolledRun() returns (run: seq<Op>, s: Poller)
    ensures s == After(run) && s == Poller([PollFd(3, POLLIN, 0), PollFd(4, POLLIN, POLLIN)], 1, 1)
  {
    var both := [Add(3, IPOLLING_READ), Add(4, IPOLLING_READ)];
    var wait := Wait(Returned(fd => POLLIN));
    AddBoth();
    PollBoth();
    AfterOne(both, wait);
    run, s := both + [wait], After(both + [wait]);
  }

  lemma RemoveReady()
    ensures var p, q := PollFd(3, POLLIN, 0), PollFd(4, POLLIN, POLLIN);
            !CountIsZeroBeforePoll(Step(Poller([p, q], 1, 1), Remove(4)).next)
  {
    var p, q := PollFd(3, POLLIN, 0), PollFd(4, POLLIN, POLLIN);
    assert SlotOf([p, q], 4) == 1;
    assert SwapRemove([p, q], 1) == [p];
    assert NextSlot([p], 0, 1) == None;
  }

  lemma AddBoth()
    ensures After([Add(3, IPOLLING_READ), Add(4, IPOLLING_READ)])
            == Poller([PollFd(3, POLLIN, 0), PollFd(4, POLLIN, 0)], 0, 0)
  {
    var a, b := Add(3, IPOLLING_READ), Add(4, IPOLLING_READ);
    assert ToNativeFlags(IPOLLING_READ) == POLLIN;
    AfterOne([], a);
    AfterOne([a], b);
    assert [] + [a] == [a] && [a] + [b] == [a, b];
  }

  lemma AfterOne(run: seq<Op>, op: Op)
    ensures After(run + [op]) == Step(After(run), op).next
  {
    assert (run + [op])[..|run + [op]| - 1] == run;
  }

  lemma PollBoth()
    ensures var p, q := PollFd(3, POLLIN, 0), PollFd(4, POLLIN, 0);
            Step(Poller([p, q], 0, 0), Wait(Returned(fd => POLLIN))).next
              == Poller([p, PollFd(4, POLLIN, POLLIN)], 1, 1)
  {
    var p, q := PollFd(3, POLLIN, 0), PollFd(4, POLLIN, 0);
    var ready := [p.(revents := POLLIN), q.(revents := POLLIN)];
    assert WithRevents([p, q], fd => POLLIN) == ready;
    assert ready[..1] == [p.(revents := POLLIN)] && ready[..1][..0] == [];
    assert CountReady(ready[..1]) == 1;
    assert CountReady(ready) == 2;
  }
}
