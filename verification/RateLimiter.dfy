/** The per-address rate limiter of networkutils/ratelimiter.cpp. */
module RateLimit {
  import opened Collections
  import opened EntryList
  import opened FastHashTable

  const MAX_RATE: nat := 3600
  const MIN_COUNT_FOR_CONSIDERATION: nat := 60
  const RESET_INTERVAL_SECONDS: nat := 120
  const PENALTY_TIME_SECONDS: nat := 3600

  datatype RateTrackerAddress = RateTrackerAddress(addr0: bv64, addr1: bv64)

  function Hash(a: RateTrackerAddress): nat {
    (a.addr0 ^ a.addr1) as nat
  }

  datatype RateTracker = RateTracker(count: nat, firstEntryTime: nat, lastEntryTime: nat, penaltyTime: nat)

  function GetRate(rt: RateTracker): nat {
    if rt.count < MIN_COUNT_FOR_CONSIDERATION then 0 else
      var seconds := if rt.lastEntryTime > rt.firstEntryTime then rt.lastEntryTime - rt.firstEntryTime else 1;
      rt.count * 3600 / seconds
  }

  /** A rate under the limit means a small count, or a count below the seconds the entry has lived. */
  lemma SlowMeansFew(rt: RateTracker)
    requires rt.firstEntryTime <= rt.lastEntryTime
    ensures GetRate(rt) < MAX_RATE <==> rt.count < 60 || rt.count < rt.lastEntryTime - rt.firstEntryTime
  {
    if rt.count >= 60 {
      var seconds := if rt.lastEntryTime > rt.firstEntryTime then rt.lastEntryTime - rt.firstEntryTime else 1;
      DivBelow(rt.count, seconds);
    }
  }

  lemma DivBelow(count: nat, seconds: nat)
    requires seconds > 0
    ensures count * 3600 / seconds < 3600 <==> count < seconds
  {
    var n := count * 3600;
    var q := n / seconds;
    assert n == q * seconds + n % seconds;
    if count < seconds {
      if q >= 3600 {
        MulAtLeast(q, 3600, seconds);
      }
    } else {
      if q < 3600 {
        MulAtLeast(3600, q + 1, seconds);
      }
    }
  }

  lemma MulAtLeast(a: nat, b: nat, c: nat)
    requires a >= b
    ensures a * c >= b * c
  {
  }

  // ---- the limiter as a function of its table ----

  type Trackers = map<RateTrackerAddress, RateTracker>

  datatype Outcome = Outcome(trackers: Trackers, allowed: bool, dumped: bool)

  datatype Verdict = Verdict(tracker: RateTracker, allowed: bool, forget: bool)

  /** What RateCheckImpl does with the tracker of an address it already knows. */
  function Judge(known: RateTracker, now: nat): Verdict {
    var rt := known.(count := known.count + 1, lastEntryTime := now);
    var rate := GetRate(rt);
    if rt.penaltyTime != 0 then
      if rt.penaltyTime >= now then Verdict(rt, false, false)
      else if rate < MAX_RATE then Verdict(rt.(penaltyTime := 0), true, false)
      else Verdict(rt.(penaltyTime := now + PENALTY_TIME_SECONDS), false, false)
    else if rate >= MAX_RATE then Verdict(rt.(penaltyTime := now + PENALTY_TIME_SECONDS), false, false)
    else Verdict(rt, true, rt.lastEntryTime - rt.firstEntryTime > RESET_INTERVAL_SECONDS)
  }

  /** One call of RateCheck on a table of the given capacity. */
  ghost function Check(m: Trackers, capacity: nat, k: RateTrackerAddress, now: nat): Outcome {
    if k !in m then
      var rt := RateTracker(1, now, now, 0);
      if |m| >= capacity then Outcome(map[k := rt], true, true) else Outcome(m[k := rt], true, false)
    else
      var v := Judge(m[k], now);
      Outcome(if v.forget then m - {k} else m[k := v.tracker], v.allowed, false)
  }

  // ---- runs ----

  datatype Packet = Packet(addr: RateTrackerAddress, time: nat)

  /** The table after a run that starts empty. */
  ghost function After(run: seq<Packet>, capacity: nat): Trackers {
    if run == [] then map[] else Last(run, capacity).trackers
  }

  /** What happened to the last packet of a run. */
  ghost function Last(run: seq<Packet>, capacity: nat): Outcome
    requires run != []
    decreases |run|, 0
  {
    var front, p := run[..|run| - 1], run[|run| - 1];
    Check(if front == [] then map[] else Last(front, capacity).trackers, capacity, p.addr, p.time)
  }

  ghost function Admitted(run: seq<Packet>, capacity: nat, k: RateTrackerAddress): nat {
    if run == [] then 0 else
      Admitted(run[..|run| - 1], capacity, k)
      + (if run[|run| - 1].addr == k && Last(run, capacity).allowed then 1 else 0)
  }

  ghost function Dumps(run: seq<Packet>, capacity: nat): nat {
    if run == [] then 0 else
      Dumps(run[..|run| - 1], capacity) + (if Last(run, capacity).dumped then 1 else 0)
  }

  ghost predicate Clocked(run: seq<Packet>) {
    forall i, j | 0 <= i <= j < |run| :: run[i].time <= run[j].time
  }

  ghost predicate FirstOf(run: seq<Packet>, k: RateTrackerAddress, first: nat) {
    first < |run| && run[first].addr == k && forall i | 0 <= i < first :: run[i].addr != k
  }

  function Max(a: int, b: int): int {
    if a > b then a else b
  }

  /** What bounds the packets admitted from `k`, given when it was first seen. */
  ghost predicate Bounded(m: Trackers, k: RateTrackerAddress, admitted: int, dumps: int, since: int, now: int) {
    since <= now &&
    if k in m then
      var e := m[k];
      && since <= e.firstEntryTime <= e.lastEntryTime <= now
      && admitted <= 59 * dumps + (e.firstEntryTime - since) + Max(59, e.lastEntryTime - e.firstEntryTime)
      && admitted <= 59 * dumps + (e.firstEntryTime - since) + e.count
    else
      admitted <= 59 * dumps + (now - since)
  }

  /** One check keeps the bound. */
  lemma CheckKeepsBound(m: Trackers, capacity: nat, p: Packet, k: RateTrackerAddress,
                        admitted: int, dumps: nat, since: nat, now: nat)
    requires Bounded(m, k, admitted, dumps, since, now) && now <= p.time
    ensures var o := Check(m, capacity, p.addr, p.time);
            Bounded(o.trackers, k, admitted + (if p.addr == k && o.allowed then 1 else 0),
                    dumps + (if o.dumped then 1 else 0), since, p.time)
  {
    if p.addr == k && k in m {
      SlowMeansFew(m[k].(count := m[k].count + 1, lastEntryTime := p.time));
    }
  }

  lemma {:induction false} UnseenIsAbsent(run: seq<Packet>, capacity: nat, k: RateTrackerAddress)
    requires forall i | 0 <= i < |run| :: run[i].addr != k
    ensures k !in After(run, capacity) && Admitted(run, capacity, k) == 0
  {
    if run != [] {
      UnseenIsAbsent(run[..|run| - 1], capacity, k);
    }
  }

  lemma {:induction false} RunKeepsBound(run: seq<Packet>, capacity: nat, k: RateTrackerAddress, first: nat)
    requires Clocked(run) && capacity > 0 && FirstOf(run, k, first)
    ensures Bounded(After(run, capacity), k, Admitted(run, capacity, k), Dumps(run, capacity),
                    run[first].time, run[|run| - 1].time)
  {
    var front, p := run[..|run| - 1], run[|run| - 1];
    if first < |front| {
      RunKeepsBound(front, capacity, k, first);
      CheckKeepsBound(After(front, capacity), capacity, p, k, Admitted(front, capacity, k),
                      Dumps(front, capacity), run[first].time, front[|front| - 1].time);
    } else {
      UnseenIsAbsent(front, capacity, k);
    }
  }

  /** Over every run with a nondecreasing clock, the packets admitted from one address number at most
      59 for every dump of the full table, plus 59, plus the seconds since its first packet. */
  lemma RateBound(run: seq<Packet>, capacity: nat, k: RateTrackerAddress, first: nat)
    requires Clocked(run) && capacity > 0 && FirstOf(run, k, first)
    ensures Admitted(run, capacity, k) <=
            59 * (Dumps(run, capacity) + 1) + (run[|run| - 1].time - run[first].time)
  {
    RunKeepsBound(run, capacity, k, first);
  }

  // ---- whom the limiter lets through ----

  /** The packets a run has from one address. */
  function CountFrom(run: seq<Packet>, k: RateTrackerAddress): nat {
    if run == [] then 0 else
      CountFrom(run[..|run| - 1], k) + (if run[|run| - 1].addr == k then 1 else 0)
  }

  /** An address with few packets has a tracker, if any, that counts no more of them and knows of no penalty. */
  ghost predicate Harmless(m: Trackers, k: RateTrackerAddress, packets: nat) {
    k in m ==> m[k].penaltyTime == 0 && 1 <= m[k].count <= packets
  }

  lemma {:induction false} FewAreHarmless(run: seq<Packet>, capacity: nat, k: RateTrackerAddress)
    requires CountFrom(run, k) < MIN_COUNT_FOR_CONSIDERATION
    ensures Harmless(After(run, capacity), k, CountFrom(run, k)) && Admitted(run, capacity, k) == CountFrom(run, k)
  {
    if run != [] {
      FewAreHarmless(run[..|run| - 1], capacity, k);
    }
  }

  /** An address that sends fewer than 60 packets has all of them admitted, whatever the others do, when its own come
      and however often the table is dumped. */
  lemma FewAreAdmitted(run: seq<Packet>, capacity: nat, k: RateTrackerAddress)
    requires CountFrom(run, k) < 60
    ensures Admitted(run, capacity, k) == CountFrom(run, k)
  {
    FewAreHarmless(run, capacity, k);
  }

  /** The time of the last packet from one address. */
  function LastFrom(run: seq<Packet>, k: RateTrackerAddress): nat {
    if run == [] then 0
    else if run[|run| - 1].addr == k then run[|run| - 1].time
    else LastFrom(run[..|run| - 1], k)
  }

  /** Two packets of one address, not necessarily consecutive ones, are at least two seconds apart. */
  ghost predicate Unhurried(run: seq<Packet>, k: RateTrackerAddress) {
    forall i, j | 0 <= i < j < |run| && run[i].addr == k && run[j].addr == k :: run[i].time + 2 <= run[j].time
  }

  ghost predicate Slow(m: Trackers, k: RateTrackerAddress, last: nat) {
    k in m ==>
      var e := m[k];
      && e.penaltyTime == 0 && e.count >= 1 && e.lastEntryTime == last
      && e.firstEntryTime + 2 * (e.count - 1) <= e.lastEntryTime
  }

  lemma {:induction false} LastIsLast(run: seq<Packet>, k: RateTrackerAddress) returns (i: nat)
    requires CountFrom(run, k) > 0
    ensures i < |run| && run[i].addr == k && run[i].time == LastFrom(run, k)
  {
    i := |run| - 1;
    if run[i].addr != k {
      i := LastIsLast(run[..i], k);
    }
  }

  lemma {:induction false} KnownHasSent(run: seq<Packet>, capacity: nat, k: RateTrackerAddress)
    requires k in After(run, capacity)
    ensures CountFrom(run, k) > 0
  {
    if run[|run| - 1].addr != k {
      KnownHasSent(run[..|run| - 1], capacity, k);
    }
  }

  lemma {:induction false} UnhurriedStaysSlow(run: seq<Packet>, capacity: nat, k: RateTrackerAddress)
    requires Unhurried(run, k)
    ensures Slow(After(run, capacity), k, LastFrom(run, k)) && Admitted(run, capacity, k) == CountFrom(run, k)
  {
    if run != [] {
      var front, p := run[..|run| - 1], run[|run| - 1];
      UnhurriedStaysSlow(front, capacity, k);
      var m := After(front, capacity);
      if p.addr == k && k in m {
        KnownHasSent(front, capacity, k);
        var i := LastIsLast(front, k);
        assert run[i].time + 2 <= run[|run| - 1].time;
        SlowMeansFew(m[k].(count := m[k].count + 1, lastEntryTime := p.time));
      }
    }
  }

  /** An address whose packets are at least two seconds apart has all of them admitted, however many they are. */
  lemma UnhurriedAreAdmitted(run: seq<Packet>, capacity: nat, k: RateTrackerAddress)
    requires Unhurried(run, k)
    ensures Admitted(run, capacity, k) == CountFrom(run, k)
  {
    UnhurriedStaysSlow(run, capacity, k);
  }

  // ---- the penalty ----

  /** A refused packet puts its address in the penalty box for an hour, unless it is in there already. By PenaltyHolds
      nothing of that address is admitted in that time. */
  lemma RefusedIsPenalized(run: seq<Packet>, p: Packet, capacity: nat)
    requires !Last(run + [p], capacity).allowed
    ensures var before, after := After(run, capacity), After(run + [p], capacity);
            && p.addr in before && p.addr in after
            && var penalty := before[p.addr].penaltyTime;
               after[p.addr].penaltyTime == if 0 < penalty && p.time <= penalty then penalty else p.time + 3600
  {
    assert (run + [p])[..|run + [p]| - 1] == run;
    CheckPenalizes(After(run, capacity), capacity, p.addr, p.time);
  }

  lemma CheckPenalizes(m: Trackers, capacity: nat, k: RateTrackerAddress, now: nat)
    requires !Check(m, capacity, k, now).allowed
    ensures var after := Check(m, capacity, k, now).trackers;
            && k in m && k in after
            && var penalty := m[k].penaltyTime;
               after[k].penaltyTime == if 0 < penalty && now <= penalty then penalty else now + 3600
  {
  }

  /** When its time is up, its next packet is admitted exactly if the address has been slow over all the time it has
      been known: fewer packets than seconds. The hour in the box counts. */
  lemma PenaltyEnds(run: seq<Packet>, p: Packet, capacity: nat)
    requires var m := After(run, capacity); p.addr in m && 0 < m[p.addr].penaltyTime < p.time
    requires var m := After(run, capacity); m[p.addr].firstEntryTime <= p.time
    ensures var e := After(run, capacity)[p.addr];
            Last(run + [p], capacity).allowed <==>
            e.count + 1 < 60 || e.count + 1 < p.time - e.firstEntryTime
  {
    assert (run + [p])[..|run + [p]| - 1] == run;
    var e := After(run, capacity)[p.addr];
    SlowMeansFew(e.(count := e.count + 1, lastEntryTime := p.time));
  }

  /** An address in the penalty box stays there: until its time is up, or the table is dumped, none of its
      packets is admitted. */
  lemma {:induction false} PenaltyHolds(run: seq<Packet>, more: seq<Packet>, capacity: nat, k: RateTrackerAddress)
    requires k in After(run, capacity) && After(run, capacity)[k].penaltyTime != 0
    requires Dumps(run + more, capacity) == Dumps(run, capacity)
    requires forall i | 0 <= i < |more| :: more[i].time <= After(run, capacity)[k].penaltyTime
    ensures Admitted(run + more, capacity, k) == Admitted(run, capacity, k)
    ensures k in After(run + more, capacity)
    ensures After(run + more, capacity)[k].penaltyTime == After(run, capacity)[k].penaltyTime
    decreases |more|
  {
    if more == [] {
      assert run + more == run;
    } else {
      var front := more[..|more| - 1];
      assert (run + more)[..|run + more| - 1] == run + front;
      DumpsGrow(run, front, capacity);
      PenaltyHolds(run, front, capacity, k);
    }
  }

  lemma {:induction false} DumpsGrow(run: seq<Packet>, more: seq<Packet>, capacity: nat)
    ensures Dumps(run + more, capacity) >= Dumps(run, capacity)
    decreases |more|
  {
    if more == [] {
      assert run + more == run;
    } else {
      assert (run + more)[..|run + more| - 1] == run + more[..|more| - 1];
      DumpsGrow(run, more[..|more| - 1], capacity);
    }
  }

  // ---- what the table forgets ----

  function Addresses(run: seq<Packet>): set<RateTrackerAddress> {
    set i | 0 <= i < |run| :: run[i].addr
  }

  lemma AddressesSnoc(run: seq<Packet>)
    requires run != []
    ensures Addresses(run) == Addresses(run[..|run| - 1]) + {run[|run| - 1].addr}
  {
    var front := run[..|run| - 1];
    forall a | a in Addresses(run) ensures a in Addresses(front) + {run[|run| - 1].addr} {
      var i :| 0 <= i < |run| && run[i].addr == a;
      assert i < |front| ==> front[i].addr == a;
    }
    forall a | a in Addresses(front) ensures a in Addresses(run) {
      var i :| 0 <= i < |front| && front[i].addr == a;
      assert run[i].addr == a;
    }
  }

  /** The table is dumped only when it is full: never while no more addresses have sent than it has room for. */
  lemma {:induction false} EnoughRoom(run: seq<Packet>, capacity: nat)
    requires |Addresses(run)| <= capacity
    ensures Dumps(run, capacity) == 0 && After(run, capacity).Keys <= Addresses(run)
  {
    if run != [] {
      var front, p := run[..|run| - 1], run[|run| - 1];
      AddressesSnoc(run);
      SubsetSize(Addresses(front), Addresses(run));
      EnoughRoom(front, capacity);
      var m := After(front, capacity);
      if p.addr !in m {
        SubsetSize(m.Keys + {p.addr}, Addresses(run));
      }
    }
  }

  /** And every dump takes as many packets as the table has room for. */
  lemma {:induction false} DumpsAreRare(run: seq<Packet>, capacity: nat)
    ensures Dumps(run, capacity) * capacity + |After(run, capacity)| <= |run|
  {
    if run != [] {
      var front, p := run[..|run| - 1], run[|run| - 1];
      DumpsAreRare(front, capacity);
      CheckGrows(After(front, capacity), capacity, p.addr, p.time);
      OneMore(Dumps(front, capacity), Last(run, capacity).dumped, capacity);
    }
  }

  lemma OneMore(dumps: nat, dumped: bool, capacity: nat)
    ensures (dumps + if dumped then 1 else 0) * capacity == dumps * capacity + if dumped then capacity else 0
  {
  }

  lemma CheckGrows(m: Trackers, capacity: nat, k: RateTrackerAddress, now: nat)
    ensures var o := Check(m, capacity, k, now);
            |o.trackers| + (if o.dumped then capacity else 0) <= |m| + 1
  {
    if k in m {
      var v := Judge(m[k], now).tracker;
      assert m[k := v].Keys == m.Keys;
      SubsetSize((m - {k}).Keys, m.Keys);
    }
  }

  /** An admitted packet makes the limiter forget its address, exactly if the address had no penalty and was known for
      more than two minutes. */
  lemma ForgottenIff(run: seq<Packet>, p: Packet, capacity: nat)
    requires p.addr in After(run, capacity)
    ensures var e := After(run, capacity)[p.addr];
            p.addr !in After(run + [p], capacity) <==>
            Last(run + [p], capacity).allowed && e.penaltyTime == 0 && p.time - e.firstEntryTime > 120
  {
    assert (run + [p])[..|run + [p]| - 1] == run;
  }

  /** Once forgotten it starts afresh: its next 59 packets are admitted. */
  lemma ForgottenStartsAfresh(run: seq<Packet>, more: seq<Packet>, capacity: nat, k: RateTrackerAddress)
    requires k !in After(run, capacity) && CountFrom(more, k) < 60
    ensures Admitted(run + more, capacity, k) == Admitted(run, capacity, k) + CountFrom(more, k)
  {
    FreshIsHarmless(run, more, capacity, k);
  }

  lemma {:induction false} FreshIsHarmless(run: seq<Packet>, more: seq<Packet>, capacity: nat, k: RateTrackerAddress)
    requires k !in After(run, capacity) && CountFrom(more, k) < MIN_COUNT_FOR_CONSIDERATION
    ensures Harmless(After(run + more, capacity), k, CountFrom(more, k))
    ensures Admitted(run + more, capacity, k) == Admitted(run, capacity, k) + CountFrom(more, k)
    decreases |more|
  {
    if more == [] {
      assert run + more == run;
    } else {
      var front, p := run + more[..|more| - 1], more[|more| - 1];
      FreshIsHarmless(run, more[..|more| - 1], capacity, k);
      assert (run + more)[..|run + more| - 1] == front && (run + more)[|run + more| - 1] == p;
      CheckHarmless(After(front, capacity), capacity, p, k, CountFrom(more[..|more| - 1], k));
    }
  }

  lemma CheckHarmless(m: Trackers, capacity: nat, p: Packet, k: RateTrackerAddress, packets: nat)
    requires Harmless(m, k, packets) && packets + 1 < MIN_COUNT_FOR_CONSIDERATION + if p.addr == k then 0 else 1
    ensures var o := Check(m, capacity, p.addr, p.time);
            && Harmless(o.trackers, k, packets + if p.addr == k then 1 else 0)
            && (p.addr == k ==> o.allowed)
  {
  }

  // ---- the class ----

  class RateLimiter {
    const table: FastHash<RateTrackerAddress, RateTracker>
    ghost var Packets: seq<Packet>

    ghost predicate Valid()
      reads this, table, table.Repr
    {
      && this !in table.Repr && table.Valid()
      && UniqueKeys(table.Entries)
      && AsMap(table.Entries) == After(Packets, table.fsize)
    }

    constructor (tablesize: nat)
      requires tablesize > 0
      ensures Valid() && fresh(table) && fresh(table.Repr)
      ensures table.fsize == tablesize && Packets == []
    {
      var t := InitTable<RateTrackerAddress, RateTracker>(tablesize, tablesize / 2, Hash);
      table := t.value;
      Packets := [];
      new;
      assert AsMap(table.Entries) == map[];
    }

    /** RateCheckImpl at a time the clock gives. */
    method RateCheck(rtaddr: RateTrackerAddress, currentTime: nat) returns (allowed: bool)
      requires Valid()
      modifies table.Repr, `Packets
      ensures Valid() && Packets == old(Packets) + [Packet(rtaddr, currentTime)]
      ensures allowed == Last(Packets, table.fsize).allowed
    {
      Packets := Packets + [Packet(rtaddr, currentTime)];
      assert Packets[..|Packets| - 1] == old(Packets);
      allowed := RateCheckImpl(rtaddr, currentTime);
    }

    method RateCheckImpl(rtaddr: RateTrackerAddress, currentTime: nat) returns (allowed: bool)
      requires table.Valid() && UniqueKeys(table.Entries) && this !in table.Repr
      modifies table.Repr
      ensures table.Valid() && UniqueKeys(table.Entries)
      ensures var o := Check(old(AsMap(table.Entries)), table.fsize, rtaddr, currentTime);
              AsMap(table.Entries) == o.trackers && allowed == o.allowed
    {
      var pRT := table.Lookup(rtaddr);
      LookupAsMap(table.Entries, rtaddr);
      if pRT.None? {
        StartTracking(rtaddr, RateTracker(1, currentTime, currentTime, 0));
        return true;
      }
      // The source updates the tracker through the pointer; here it is stored back once.
      var v := Judge(pRT.value, currentTime);
      if v.forget {
        Forget(rtaddr);
      } else {
        Store(rtaddr, v.tracker);
      }
      return v.allowed;
    }

    /** The first packet of an address: a full table is dumped to make room. */
    method StartTracking(rtaddr: RateTrackerAddress, rt: RateTracker)
      requires table.Valid() && UniqueKeys(table.Entries) && rtaddr !in AsMap(table.Entries)
      modifies table.Repr
      ensures table.Valid() && UniqueKeys(table.Entries)
      ensures AsMap(table.Entries) == if |old(AsMap(table.Entries))| >= table.fsize then map[rtaddr := rt]
                                      else old(AsMap(table.Entries))[rtaddr := rt]
    {
      AsMapSize(table.Entries);
      var result := TryInsert(rtaddr, rt);
      if result == -1 {
        table.Reset();
        AsMapSize(table.Entries);
        result := TryInsert(rtaddr, rt);
        SingletonAsMap(rtaddr, rt);
      }
    }

    method TryInsert(rtaddr: RateTrackerAddress, rt: RateTracker) returns (result: int)
      requires table.Valid() && UniqueKeys(table.Entries) && rtaddr !in AsMap(table.Entries)
      modifies table.Repr
      ensures table.Valid() && UniqueKeys(table.Entries)
      ensures result == -1 <==> old(table.size) == table.fsize
      ensures AsMap(table.Entries) == if result == -1 then old(AsMap(table.Entries))
                                      else old(AsMap(table.Entries))[rtaddr := rt]
    {
      InsertAsMap(table.Entries, rtaddr, rt);
      result := table.Insert(rtaddr, rt);
    }

    method Forget(rtaddr: RateTrackerAddress)
      requires table.Valid() && UniqueKeys(table.Entries)
      modifies table.Repr
      ensures table.Valid() && UniqueKeys(table.Entries)
      ensures AsMap(table.Entries) == old(AsMap(table.Entries)) - {rtaddr}
    {
      RemoveAsMap(table.Entries, rtaddr);
      var _ := table.Remove(rtaddr);
    }

    /** The writes through the tracker pointer that Lookup returned. */
    method Store(rtaddr: RateTrackerAddress, rt: RateTracker)
      requires table.Valid() && UniqueKeys(table.Entries) && rtaddr in AsMap(table.Entries)
      modifies table.Repr
      ensures table.Valid() && UniqueKeys(table.Entries)
      ensures AsMap(table.Entries) == old(AsMap(table.Entries))[rtaddr := rt]
    {
      PositionInKeys(table.Entries, rtaddr);
      ReplaceAsMap(table.Entries, rtaddr, rt);
      table.Assign(rtaddr, rt);
    }
  }
}
