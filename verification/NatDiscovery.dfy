/** The NAT discovery client of stuncore/stunclientlogic.cpp and stuncore/stunclienttests.cpp (sections 4.3 and 4.4 of
    RFC 5780) as a transition system over parsed responses. */
module NatDiscovery {
  import opened Options
  import opened StunTypes
  import opened SocketAddresses
  import opened StunReaders

  datatype NatBehavior = UnknownBehavior | DirectMapping | EndpointIndependentMapping | AddressDependentMapping
                       | AddressAndPortDependentMapping

  datatype NatFiltering = UnknownFiltering | DirectConnectionFiltering | EndpointIndependentFiltering
                        | AddressDependentFiltering
                        | AddressAndPortDependentFiltering

  datatype Config = Config(addrServer: Address, fTimeoutIsInstant: bool, timeoutSeconds: u32, uMaxAttempts: u32,
                           fBehaviorTest: bool, fFilteringTest: bool)

  datatype Results = Results(
    fBindingTestSuccess: bool, fIsDirect: bool, addrLocal: Address, addrMapped: Address, fHasOtherAddress: bool,
    addrPA: Address, addrAP: Address, addrAA: Address,
    fBehaviorTestSuccess: bool, behavior: NatBehavior, addrMappingAP: Address, addrMappingAA: Address,
    fFilteringTestSuccess: bool, filtering: NatFiltering, fGotTest2Response: bool, fGotTest3Response: bool)

  const NO_RESULTS := Results(false, false, ZERO_ADDRESS, ZERO_ADDRESS, false, ZERO_ADDRESS, ZERO_ADDRESS, ZERO_ADDRESS,
                             false, UnknownBehavior, ZERO_ADDRESS, ZERO_ADDRESS, false, UnknownFiltering, false, false)

  datatype TestKind = BasicBinding | FilteringTest(fIsTest3: bool) | BehaviorTest(fIsTest3: bool)

  datatype Test = Test(kind: TestKind, fCompleted: bool, transid: TransactionId)

  /** What a test takes from a response that parses. */
  datatype Response = Response(transid: TransactionId, mapped: Option<Address>, other: Option<Address>)

  predicate IsTransactionIdValid(t: TransactionId) {
    t != Zeros(16)
  }

  // ---- one test ----

  function AfterPreRunCheck(t: Test, r: Results): (Test, Results) {
    var direct := r.fBindingTestSuccess && r.fIsDirect;
    match t.kind
    case BehaviorTest(false) =>
      if direct then (t.(fCompleted := true), r.(behavior := DirectMapping, fBehaviorTestSuccess := true)) else (t, r)
    case FilteringTest(false) =>
      if direct then (t.(fCompleted := true),
                      r.(filtering := EndpointIndependentFiltering, fFilteringTestSuccess := true))
      else (t, r)
    case _ => (t, r)
  }

  predicate ReadyToRun(t: Test, r: Results) {
    match t.kind
    case BasicBinding => !t.fCompleted
    case BehaviorTest(fIsTest3) =>
      !t.fCompleted && r.fBindingTestSuccess && r.fHasOtherAddress && !r.fBehaviorTestSuccess
      && (fIsTest3 ==> !IsIPAddressZero(r.addrMappingAP))
    case FilteringTest(_) =>
      !t.fCompleted && r.fBindingTestSuccess && r.fHasOtherAddress && !r.fFilteringTestSuccess && !r.fGotTest2Response
  }

  /** Where the test sends its request, and the change it asks for. */
  function Target(t: Test, r: Results, config: Config): Address {
    match t.kind
    case BasicBinding => config.addrServer
    case FilteringTest(_) => config.addrServer
    case BehaviorTest(fIsTest3) => if fIsTest3 then r.addrAA else r.addrAP
  }

  function Change(kind: TestKind): ChangeRequest {
    match kind
    case FilteringTest(fIsTest3) => ChangeRequest(!fIsTest3, true)
    case _ => ChangeRequest(false, false)
  }

  function AfterTimeout(t: Test, r: Results): (Test, Results) {
    (t.(fCompleted := true),
     match t.kind
     case BasicBinding => r.(fBindingTestSuccess := false)
     case BehaviorTest(_) => r.(fBehaviorTestSuccess := false)
     case FilteringTest(fIsTest3) =>
       if fIsTest3 then r.(fFilteringTestSuccess := true, filtering := AddressAndPortDependentFiltering) else r)
  }

  function AfterBinding(r: Results, config: Config, mapped: Address, other: Option<Address>, local: Address): Results {
    var r1 := r.(fBindingTestSuccess := true, fIsDirect := IsSameIPAndPort(local, mapped), addrLocal := local,
                 addrMapped := mapped, fHasOtherAddress := other.Some?);
    if other.None? then r1
    else r1.(addrAA := other.value, addrPA := WithPort(config.addrServer, GetPort(other.value)),
             addrAP := WithPort(other.value, GetPort(config.addrServer)))
  }

  function AfterBehavior(r: Results, fIsTest3: bool, mapped: Address): Results {
    BehaviorResults(r, fIsTest3, mapped, IsSameIPAndPort(mapped, if fIsTest3 then r.addrMappingAP else r.addrMapped))
  }

  /** What a behavior test records, given whether its mapping is that of the test before. */
  function BehaviorResults(r: Results, fIsTest3: bool, mapped: Address, same: bool): Results {
    if fIsTest3 then
      r.(addrMappingAA := mapped, fBehaviorTestSuccess := true,
         behavior := if same then AddressDependentMapping else AddressAndPortDependentMapping)
    else if same then
      r.(addrMappingAP := mapped, fBehaviorTestSuccess := true, behavior := EndpointIndependentMapping)
    else
      r.(addrMappingAP := mapped)
  }

  function AfterFiltering(r: Results, fIsTest3: bool): Results {
    if fIsTest3 then
      r.(fGotTest3Response := true, fFilteringTestSuccess := true, filtering := AddressDependentFiltering)
    else
      r.(fGotTest2Response := true, fFilteringTestSuccess := true, filtering := EndpointIndependentFiltering)
  }

  /** Whether the test acts on a response: its transaction id is the test's, and it has the address the test needs. */
  predicate Accepts(t: Test, resp: Response) {
    resp.transid == t.transid && (t.kind.FilteringTest? || resp.mapped.Some?)
  }

  function AfterResponse(t: Test, r: Results, config: Config, resp: Response, local: Address): (Test, Results) {
    if !Accepts(t, resp) then (t, r) else
      (t.(fCompleted := true),
       match t.kind
       case BasicBinding => AfterBinding(r, config, resp.mapped.value, resp.other, local)
       case BehaviorTest(fIsTest3) => AfterBehavior(r, fIsTest3, resp.mapped.value)
       case FilteringTest(fIsTest3) => AfterFiltering(r, fIsTest3))
  }

  // ---- the sequence of tests ----

  datatype Client = Client(config: Config, results: Results, tests: seq<Test>, index: nat, sendCount: nat,
                           preChecked: bool, lastSent: u32)
  {
    ghost predicate Ok() {
      index <= |tests| && sendCount <= config.uMaxAttempts && 0 < config.uMaxAttempts
    }

    predicate Done() {
      index >= |tests|
    }

    function With(tr: (Test, Results)): Client
      requires index < |tests|
    {
      this.(tests := tests[index := tr.0], results := tr.1)
    }
  }

  function FreshTest(kind: TestKind): Test {
    Test(kind, false, Zeros(16))
  }

  function TestsOf(config: Config): (ts: seq<Test>)
    ensures 1 <= |ts| <= 5
  {
    [FreshTest(BasicBinding)]
    + (if config.fFilteringTest then [FreshTest(FilteringTest(false)), FreshTest(FilteringTest(true))] else [])
    + (if config.fBehaviorTest then [FreshTest(BehaviorTest(false)), FreshTest(BehaviorTest(true))] else [])
  }

  /** Defaults for the timeout and the number of attempts. */
  function Effective(config: Config): (c: Config)
    ensures 0 < c.uMaxAttempts
  {
    config.(timeoutSeconds := if config.fTimeoutIsInstant then 0 else if config.timeoutSeconds == 0 then 3
                              else config.timeoutSeconds,
            uMaxAttempts := if config.uMaxAttempts == 0 then 2 else config.uMaxAttempts)
  }

  predicate Usable(config: Config) {
    !IsIPAddressZero(config.addrServer) && GetPort(config.addrServer) != 0
  }

  function Start(config: Config): (c: Client)
    ensures c.Ok()
  {
    var e := Effective(config);
    Client(e, NO_RESULTS, TestsOf(e), 0, 0, false, 0)
  }

  datatype Outcome = ResultsReady | StillWaiting | Send(dest: Address, transid: TransactionId, change: ChangeRequest)

  /** The client gives the test at hand its chance to complete early. */
  function PreCheck(c: Client): Client
    requires !c.Done()
  {
    if c.preChecked then c
    else c.With(AfterPreRunCheck(c.tests[c.index], c.results)).(preChecked := true)
  }

  function Skip(c: Client): Client {
    c.(index := c.index + 1, sendCount := 0, preChecked := false)
  }

  function GiveUp(c: Client): Client
    requires !c.Done()
  {
    c.With(AfterTimeout(c.tests[c.index], c.results))
  }

  /** Whole seconds since the last message, on a 32-bit millisecond clock that wraps. */
  function Waited(c: Client, now: u32): nat {
    (now + 0x1_0000_0000 - c.lastSent) % 0x1_0000_0000 / 1000
  }

  function Transmit(c: Client, now: u32, newId: TransactionId): (Client, Outcome)
    requires !c.Done()
  {
    var t := c.tests[c.index];
    var transid := if IsTransactionIdValid(t.transid) then t.transid else newId;
    (c.(tests := c.tests[c.index := t.(transid := transid)], sendCount := c.sendCount + 1, lastSent := now),
     Send(Target(t, c.results, c.config), transid, Change(t.kind)))
  }

  /** One turn of the loop in GetNextMessage: a new state, and an outcome when the loop ends. */
  function Turn(c: Client, now: u32, newId: TransactionId): (Client, Option<Outcome>) {
    if c.Done() then (c, Some(ResultsReady)) else
      var c1 := PreCheck(c);
      var t := c1.tests[c1.index];
      if t.fCompleted || !ReadyToRun(t, c1.results) then (Skip(c1), None)
      else if Waited(c1, now) < c1.config.timeoutSeconds && c1.sendCount != 0 then (c1, Some(StillWaiting))
      else if c1.sendCount >= c1.config.uMaxAttempts then (GiveUp(c1), None)
      else var (c2, o) := Transmit(c1, now, newId); (c2, Some(o))
  }

  /** The tests still to be settled: what the loop of GetNextMessage uses up. */
  function Remaining(c: Client): nat {
    if c.Done() then 0
    else 2 * (|c.tests| - c.index) + if c.tests[c.index].fCompleted then 0 else 1
  }

  lemma TurnAdvances(c: Client, now: u32, newId: TransactionId)
    ensures Turn(c, now, newId).1.None? ==> Remaining(Turn(c, now, newId).0) < Remaining(c)
  {
  }

  /** GetNextMessage: it always returns. */
  function Next(c: Client, now: u32, newId: TransactionId): (Client, Outcome)
    decreases Remaining(c)
  {
    TurnAdvances(c, now, newId);
    var (c1, o) := Turn(c, now, newId);
    if o.Some? then (c1, o.value) else Next(c1, now, newId)
  }

  /** ProcessResponse: responses that do not parse and responses to completed tests are dropped. */
  function Deliver(c: Client, resp: Option<Response>, local: Address): Client {
    if c.Done() || c.tests[c.index].fCompleted || resp.None? then c
    else c.With(AfterResponse(c.tests[c.index], c.results, c.config, resp.value, local))
  }

  /** The client acts on the response. */
  predicate Takes(c: Client, resp: Option<Response>) {
    !c.Done() && !c.tests[c.index].fCompleted && resp.Some? && Accepts(c.tests[c.index], resp.value)
  }

  // ---- runs ----

  /** The caller polls for the next message, at a real time in milliseconds, or hands in a datagram. */
  datatype Event = Poll(time: nat, newId: TransactionId) | Datagram(resp: Option<Response>, local: Address)

  function Tick(time: nat): u32 {
    time % 0x1_0000_0000
  }

  function Step(c: Client, e: Event): Client {
    match e
    case Poll(time, newId) => Next(c, Tick(time), newId).0
    case Datagram(resp, local) => Deliver(c, resp, local)
  }

  function Run(c: Client, es: seq<Event>): Client
    decreases |es|
  {
    if es == [] then c else Run(Step(c, es[0]), es[1..])
  }

  /** The times at which a run sends a request of the test number `k`. */
  function SendTimes(c: Client, es: seq<Event>, k: nat): seq<nat>
    decreases |es|
  {
    if es == [] then [] else
      var c1 := Step(c, es[0]);
      (if es[0].Poll? && Next(c, Tick(es[0].time), es[0].newId).1.Send? && c1.index == k then [es[0].time] else [])
      + SendTimes(c1, es[1..], k)
  }

  function SendCount(c: Client, es: seq<Event>): nat
    decreases |es|
  {
    if es == [] then 0 else
      (if es[0].Poll? && Next(c, Tick(es[0].time), es[0].newId).1.Send? then 1 else 0)
        + SendCount(Step(c, es[0]), es[1..])
  }

  /** The messages the client may still send. */
  function Budget(c: Client): int {
    if c.Done() then 0
    else (|c.tests| - c.index - 1) * c.config.uMaxAttempts + c.config.uMaxAttempts - c.sendCount
  }

  /** What a loop turn, and then a whole call, does to the counters. */
  ghost predicate Counted(c: Client, now: u32, c1: Client, sent: bool) {
    && c1.Ok() && c1.config == c.config && |c1.tests| == |c.tests| && c1.index >= c.index
    && Budget(c1) + (if sent then 1 else 0) <= Budget(c)
    && (c1.index == c.index ==> c1.sendCount == c.sendCount + if sent then 1 else 0)
    && (c1.index == c.index && sent && c.sendCount > 0 ==> Waited(c, now) >= c.config.timeoutSeconds)
    && (sent ==> c1.lastSent == now && !c1.Done() && 0 < c1.sendCount)
    && (!sent ==> c1.lastSent == c.lastSent && (c1.index > c.index ==> c1.sendCount == 0))
  }

  lemma TurnCounts(c: Client, now: u32, newId: TransactionId)
    requires c.Ok()
    ensures var (c1, o) := Turn(c, now, newId); Counted(c, now, c1, o.Some? && o.value.Send?)
  {
    if !c.Done() && Turn(c, now, newId).0.index > c.index {
      assert (|c.tests| - c.index - 1) * c.config.uMaxAttempts
             == (|c.tests| - (c.index + 1) - 1) * c.config.uMaxAttempts + c.config.uMaxAttempts;
    }
  }

  lemma {:induction false} NextCounts(c: Client, now: u32, newId: TransactionId)
    requires c.Ok()
    ensures var (c1, o) := Next(c, now, newId); Counted(c, now, c1, o.Send?)
    decreases Remaining(c)
  {
    TurnCounts(c, now, newId);
    TurnAdvances(c, now, newId);
    var (c1, o) := Turn(c, now, newId);
    if o.None? {
      NextCounts(c1, now, newId);
    }
  }

  /** Every run stays within its budget: from the start, at most five times the number of attempts. */
  lemma {:induction false} SendsAreBounded(c: Client, es: seq<Event>)
    requires c.Ok()
    ensures SendCount(c, es) <= Budget(c)
    decreases |es|
  {
    if es != [] {
      if es[0].Poll? {
        NextCounts(c, Tick(es[0].time), es[0].newId);
      }
      SendsAreBounded(Step(c, es[0]), es[1..]);
    } else if !c.Done() {
      assert (|c.tests| - c.index - 1) * c.config.uMaxAttempts >= 0;
    }
  }

  lemma TotalSends(config: Config, es: seq<Event>)
    ensures SendCount(Start(config), es) <= 5 * Effective(config).uMaxAttempts
  {
    var c := Start(config);
    SendsAreBounded(c, es);
    assert |c.tests| * c.config.uMaxAttempts <= 5 * c.config.uMaxAttempts;
    assert Budget(c) == |c.tests| * c.config.uMaxAttempts;
  }

  /** Consecutive times at least a gap apart. */
  predicate Spaced(ts: seq<nat>, gap: nat) {
    forall i | 0 < i < |ts| :: ts[i - 1] + gap <= ts[i]
  }

  predicate Ordered(es: seq<Event>, from: nat) {
    es == [] || ((es[0].Poll? ==> from <= es[0].time) && Ordered(es[1..], if es[0].Poll? then es[0].time else from))
  }

  /** A wrapping clock never makes a wait look longer than it was. */
  lemma WrapIsShort(last: nat, time: nat, seconds: nat)
    requires last <= time && (Tick(time) + 0x1_0000_0000 - Tick(last)) % 0x1_0000_0000 / 1000 >= seconds
    ensures last + 1000 * seconds <= time
  {
    var q0: int, q1: int, r0: int, r1: int := last / 0x1_0000_0000, time / 0x1_0000_0000, Tick(last), Tick(time);
    var waited := if r1 >= r0 then r1 - r0 else r1 + 0x1_0000_0000 - r0;
    assert (r1 + 0x1_0000_0000 - r0) % 0x1_0000_0000 == waited;
    assert q0 <= q1;
    assert waited <= time - last;
  }

  lemma SpacedCons(t: nat, ts: seq<nat>, gap: nat)
    requires Spaced(ts, gap) && (ts != [] ==> t + gap <= ts[0])
    ensures Spaced([t] + ts, gap)
  {
  }

  /** The sends of test number `k` still to come: few enough, far enough apart, and far enough from `last`, when the
      test was last sent if it is the one at hand. */
  ghost predicate WellSpaced(c: Client, ts: seq<nat>, k: nat, last: nat) {
    && |ts| <= (if k < c.index then 0 else if k == c.index then c.config.uMaxAttempts - c.sendCount
                else c.config.uMaxAttempts)
    && Spaced(ts, 1000 * c.config.timeoutSeconds)
    && (c.index == k && c.sendCount > 0 && ts != [] ==> last + 1000 * c.config.timeoutSeconds <= ts[0])
  }

  /** One more poll in front of a well-spaced future. */
  lemma PollSpaced(c: Client, now: nat, c1: Client, sent: bool, rest: seq<nat>, k: nat, last: nat)
    requires c.Ok() && Counted(c, Tick(now), c1, sent) && last <= now
    requires c.index == k && c.sendCount > 0 ==> c.lastSent == Tick(last)
    requires WellSpaced(c1, rest, k, if sent && c1.index == k then now else last)
    ensures WellSpaced(c, (if sent && c1.index == k then [now] else []) + rest, k, last)
  {
    if sent && c1.index == k {
      SpacedCons(now, rest, 1000 * c.config.timeoutSeconds);
      if c.index == k && c.sendCount > 0 {
        WrapIsShort(last, now, c.config.timeoutSeconds);
      }
    } else {
      assert [] + rest == rest;
    }
  }

  /** Over any run, a test is sent at most as often as configured, and two of its messages are at least the timeout
      apart in real time, although the client's clock wraps. */
  lemma {:induction false} SendsAreSpaced(c: Client, es: seq<Event>, k: nat, last: nat)
    requires c.Ok() && Ordered(es, last)
    requires c.index == k && c.sendCount > 0 ==> c.lastSent == Tick(last)
    ensures WellSpaced(c, SendTimes(c, es, k), k, last)
    decreases |es|
  {
    if es == [] {
    } else if es[0].Datagram? {
      SendsAreSpaced(Step(c, es[0]), es[1..], k, last);
    } else {
      var now := es[0].time;
      NextCounts(c, Tick(now), es[0].newId);
      var (c1, o) := Next(c, Tick(now), es[0].newId);
      var last1 := if o.Send? && c1.index == k then now else last;
      OrderedWeaker(es[1..], last1, now);
      SendsAreSpaced(c1, es[1..], k, last1);
      PollSpaced(c, now, c1, o.Send?, SendTimes(c1, es[1..], k), k, last);
    }
  }

  lemma OrderedWeaker(es: seq<Event>, lo: nat, hi: nat)
    requires lo <= hi && Ordered(es, hi)
    ensures Ordered(es, lo)
  {
  }

  lemma EachTestSends(config: Config, es: seq<Event>, k: nat)
    requires Ordered(es, 0)
    ensures var ts := SendTimes(Start(config), es, k);
            |ts| <= Effective(config).uMaxAttempts && Spaced(ts, 1000 * Effective(config).timeoutSeconds)
  {
    SendsAreSpaced(Start(config), es, k, 0);
  }

  // ---- what the outcomes mean ----

  /** RESULTS_READY is final: nothing the caller does makes the client send again. */
  lemma {:induction false} ReadyIsFinal(c: Client, es: seq<Event>)
    requires c.Done()
    ensures Run(c, es) == c && SendCount(c, es) == 0
    decreases |es|
  {
    if es != [] {
      ReadyIsFinal(c, es[1..]);
    }
  }
}
