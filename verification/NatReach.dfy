/** Which verdicts the discovery client can reach: runs that exist, beside the runs that NatVerdict quantifies over. */
module NatReachability {
  import opened Options
  import opened StunTypes
  import opened SocketAddresses
  import opened NatDiscovery
  import opened NatVerdict

  // ---- runs, one event at a time ----

  /** The polls happen in order, between two times. */
  predicate Within(es: seq<Event>, lo: nat, hi: nat) {
    if es == [] then lo <= hi
    else if es[0].Poll? then lo <= es[0].time && Within(es[1..], es[0].time, hi)
    else Within(es[1..], lo, hi)
  }

  ghost predicate RunsTo(net: Nat, config: Config, es: seq<Event>, w: World, t: nat) {
    PlausibleRun(net, Origin(config), es) && SpeaksFirst(es) && Within(es, 0, t) && AfterEvents(Origin(config), es) == w
  }

  /** A plausible run, with the polls in order, leads to `w` by the time `t`. */
  ghost predicate Reachable(net: Nat, config: Config, w: World, t: nat) {
    exists es :: RunsTo(net, config, es, w, t)
  }

  function Later(e: Event, t: nat): nat {
    if e.Poll? then e.time else t
  }

  lemma {:induction false} RunSnoc(net: Nat, w: World, es: seq<Event>, e: Event)
    requires PlausibleRun(net, w, es) && Plausible(net, AfterEvents(w, es), e)
    ensures PlausibleRun(net, w, es + [e]) && AfterEvents(w, es + [e]) == AfterEvent(AfterEvents(w, es), e)
    decreases |es|
  {
    if es == [] {
      assert ([] + [e])[1..] == [];
    } else {
      RunSnoc(net, AfterEvent(w, es[0]), es[1..], e);
      assert (es + [e])[1..] == es[1..] + [e];
    }
  }

  lemma {:induction false} OrderSnoc(es: seq<Event>, e: Event, lo: nat, t: nat)
    requires Within(es, lo, t) && SpeaksFirst(es) && !IsZeroAnswer(e) && (e.Poll? ==> t <= e.time)
    ensures Within(es + [e], lo, Later(e, t)) && SpeaksFirst(es + [e])
    decreases |es|
  {
    if es == [] {
      assert ([] + [e])[1..] == [];
    } else {
      if es[0].Datagram? {
        OrderSnoc(es[1..], e, lo, t);
      } else {
        TimeSnoc(es[1..], e, es[0].time, t);
      }
      assert (es + [e])[1..] == es[1..] + [e];
    }
  }

  lemma {:induction false} TimeSnoc(es: seq<Event>, e: Event, lo: nat, t: nat)
    requires Within(es, lo, t) && (e.Poll? ==> t <= e.time)
    ensures Within(es + [e], lo, Later(e, t))
    decreases |es|
  {
    if es == [] {
      assert ([] + [e])[1..] == [];
    } else {
      TimeSnoc(es[1..], e, if es[0].Poll? then es[0].time else lo, t);
      assert (es + [e])[1..] == es[1..] + [e];
    }
  }

  lemma Reach(net: Nat, config: Config, w: World, t: nat, e: Event)
    requires Reachable(net, config, w, t) && Plausible(net, w, e) && !IsZeroAnswer(e) && (e.Poll? ==> t <= e.time)
    ensures Reachable(net, config, AfterEvent(w, e), Later(e, t))
  {
    var es :| RunsTo(net, config, es, w, t);
    RunSnoc(net, Origin(config), es, e);
    OrderSnoc(es, e, 0, t);
    assert RunsTo(net, config, es + [e], AfterEvent(w, e), Later(e, t));
  }

  lemma AtOrigin(net: Nat, config: Config)
    ensures Reachable(net, config, Origin(config), 0)
  {
    assert RunsTo(net, config, [], Origin(config), 0);
  }

  lemma ReachableHolds(net: Nat, config: Config, w: World, t: nat)
    requires Reachable(net, config, w, t)
    ensures Inv(net, w) && w.client.config == Effective(config)
  {
    var es :| RunsTo(net, config, es, w, t);
    StartHolds(net, config);
    RunKeeps(net, Origin(config), es);
    ConfigStays(Origin(config), es);
  }

  lemma ReachableKinds(net: Nat, config: Config, w: World, t: nat)
    requires Reachable(net, config, w, t)
    ensures KindsOf(w.client) && w.client.config == Effective(config)
  {
    ReachableHolds(net, config, w, t);
  }

  // ---- one test ----

  function Id(k: nat): TransactionId
    requires k < 6
  {
    [k as byte + 1] + Zeros(15)
  }

  predicate Named(c: Client) {
    |c.tests| <= 5 && forall i | 0 <= i < |c.tests| :: c.tests[i].transid == Zeros(16) || c.tests[i].transid == Id(i)
  }

  lemma IdsDiffer(i: nat, k: nat)
    requires i < 6 && k < 6
    ensures Id(k) != Zeros(16) && (Id(i) == Id(k) <==> i == k)
  {
    assert Id(i)[0] == i as byte + 1 && Id(k)[0] == k as byte + 1 && Zeros(16)[0] == 0;
  }

  lemma NamedUnused(c: Client, k: nat)
    requires Named(c) && k < 6 && (k < |c.tests| ==> c.tests[k].transid == Zeros(16))
    ensures Unused(c, Id(k))
  {
    IdsDiffer(k, k);
    forall i | 0 <= i < |c.tests| ensures c.tests[i].transid != Id(k) {
      IdsDiffer(i, k);
    }
  }

  lemma NextTurns(c: Client, now: u32, newId: TransactionId)
    requires Turn(c, now, newId).1.None?
    ensures Next(c, now, newId) == Next(Turn(c, now, newId).0, now, newId)
  {
    TurnAdvances(c, now, newId);
  }

  ghost predicate NotStarted(c: Client, k: nat) {
    && k < |c.tests| <= 5 && c.index == k && c.sendCount == 0 && !c.preChecked && c.Ok() && Named(c)
    && forall i | k <= i < |c.tests| :: c.tests[i].transid == Zeros(16) && !c.tests[i].fCompleted
  }

  /** A client about to run test `k`: a poll at `time` finds it in the state `c`, with the test not yet started. */
  ghost predicate AboutTo(w: World, c: Client, k: nat, time: nat) {
    && NotStarted(c, k) && c.config == w.client.config && SameIds(w.client, c)
    && Next(w.client, Tick(time), Id(k)) == Next(c, Tick(time), Id(k))
  }

  /** A client that has sent test `k` at `time`, `s` being one of its requests. */
  ghost predicate Waiting(w: World, k: nat, s: Probe, time: nat) {
    var c := w.client;
    && k < |c.tests| <= 5 && c.index == k && 0 < c.sendCount && c.preChecked && Named(c) && c.lastSent == Tick(time)
    && c.tests[k].transid == Id(k) && !c.tests[k].fCompleted
    && (forall i | k < i < |c.tests| :: c.tests[i].transid == Zeros(16) && !c.tests[i].fCompleted)
    && s in w.sent && s.test == k && s.contacted <= Contacted(w)
  }

  /** Test `k` is over, and the next poll moves on. */
  ghost predicate Finished(c: Client, k: nat) {
    && c.index == k < |c.tests| <= 5 && c.Ok() && Named(c) && c.preChecked && c.tests[k].fCompleted
    && forall i | k < i < |c.tests| :: c.tests[i].transid == Zeros(16) && !c.tests[i].fCompleted
  }

  lemma SentWithId(c: Client, k: nat, time: nat)
    requires NotStarted(c, k)
    requires var p := PreCheck(c); !p.tests[k].fCompleted && ReadyToRun(p.tests[k], p.results)
    ensures Next(c, Tick(time), Id(k)) == Transmit(PreCheck(c), Tick(time), Id(k))
    ensures var p, c1 := PreCheck(c), Transmit(PreCheck(c), Tick(time), Id(k)).0;
            && p.tests == c.tests && p.config == c.config && p.index == k && p.preChecked && p.sendCount == 0
            && c1 == p.(tests := c.tests[k := c.tests[k].(transid := Id(k))], sendCount := 1, lastSent := Tick(time))
  {
    assert PreCheck(c).tests == c.tests by {
      assert c.tests[k := c.tests[k]] == c.tests;
    }
  }

  lemma Recorded(w: World, c1: Client, s: Probe)
    ensures Contacted(w) + {s.dest} <= Contacted(World(c1, w.sent + {s}))
  {
    forall a | a in Contacted(w) + {s.dest} ensures a in Contacted(World(c1, w.sent + {s})) {
      if a in Contacted(w) {
        var q :| q in w.sent && q.dest == a;
        assert q in w.sent + {s};
      } else {
        assert s in w.sent + {s};
      }
    }
  }

  /** The request goes out. */
  lemma Asking(net: Nat, config: Config, w: World, c: Client, k: nat, t: nat, time: nat) returns (w1: World, s: Probe)
    requires Reachable(net, config, w, t) && AboutTo(w, c, k, time) && t <= time
    requires var p := PreCheck(c); !p.tests[k].fCompleted && ReadyToRun(p.tests[k], p.results)
    ensures Reachable(net, config, w1, time) && Waiting(w1, k, s, time)
    ensures w1.client == Transmit(PreCheck(c), Tick(time), Id(k)).0 && PreCheck(c).tests == c.tests
  {
    var id := Id(k);
    NamedUnused(c, k);
    SentWithId(c, k, time);
    var p := PreCheck(c);
    w1 := Polled(net, config, w, t, time, id);
    IdsDiffer(k, k);
    var dest := Target(p.tests[k], p.results, p.config);
    s := Probe(k, id, dest, Change(c.tests[k].kind), Contacted(w) + {dest});
    Recorded(w, w1.client, s);
  }

  /** The answer that a correct server and the NAT make of a test. */
  function Truth(net: Nat, server: Address, kind: TestKind, id: TransactionId): Response {
    Response(id, Some(net.mapping(TrueTarget(net, server, kind))), net.other)
  }

  lemma TruthIsAnswer(net: Nat, w: World, s: Probe, kind: TestKind)
    requires Inv(net, w) && s in w.sent && kind == w.client.tests[s.test].kind && s.contacted <= Contacted(w)
    requires Heard(net, w.client.config.addrServer, kind)
    ensures Answered(net, w, Truth(net, w.client.config.addrServer, kind, s.transid))
  {
    assert ProbeTrue(net, w.client, s);
    assert net.passes(s.contacted, Source(w.client.config.addrServer, net.other, s.dest, s.change));
  }

  /** The answer comes in, if the NAT lets it. */
  lemma Hearing(net: Nat, config: Config, w: World, k: nat, s: Probe, t: nat) returns (w1: World)
    requires Reachable(net, config, w, t) && Waiting(w, k, s, t)
    requires Heard(net, config.addrServer, w.client.tests[k].kind)
    ensures Reachable(net, config, w1, t) && w1.client.config == w.client.config && Finished(w1.client, k)
    ensures var c := w.client; var kind := c.tests[k].kind;
            && w1.client == c.With((c.tests[k].(fCompleted := true), w1.client.results))
            && w1.client.results == AfterResponse(Test(kind, false, Id(k)), c.results, c.config,
                                                  Truth(net, config.addrServer, kind, Id(k)), net.local).1
  {
    ReachableHolds(net, config, w, t);
    var kind := w.client.tests[k].kind;
    var e := Datagram(Some(Truth(net, config.addrServer, kind, Id(k))), net.local);
    assert ProbeTrue(net, w.client, s);
    TruthIsAnswer(net, w, s, kind);
    IdsDiffer(k, k);
    Reach(net, config, w, t, e);
    w1 := AfterEvent(w, e);
    HeardIsFinished(w.client, w1.client, k);
  }

  lemma HeardIsFinished(c: Client, c1: Client, k: nat)
    requires c.index == k < |c.tests| <= 5 && c.Ok() && Named(c) && c.preChecked
    requires forall i | k < i < |c.tests| :: c.tests[i].transid == Zeros(16) && !c.tests[i].fCompleted
    requires c1 == c.With((c.tests[k].(fCompleted := true), c1.results))
    ensures Finished(c1, k)
  {
  }

  /** After an answer the next test is up. */
  lemma OnToNext(w: World, k: nat, time: nat)
    requires Finished(w.client, k) && k + 1 < |w.client.tests|
    ensures AboutTo(w, Skip(w.client), k + 1, time)
  {
    NextTurns(w.client, Tick(time), Id(k + 1));
  }

  function Gap(config: Config): nat {
    1000 * Effective(config).timeoutSeconds
  }

  lemma GapIsLongEnough(config: Config, c: Client, t: nat)
    requires TimesOut(config) && c.lastSent == Tick(t)
    ensures Waited(c, Tick(t + Gap(config))) == Effective(config).timeoutSeconds
  {
    var q: int, q1: int := t / 0x1_0000_0000, (t + Gap(config)) / 0x1_0000_0000;
    var r: int, r1: int := Tick(t), Tick(t + Gap(config));
    assert t == q * 0x1_0000_0000 + r && t + Gap(config) == q1 * 0x1_0000_0000 + r1;
    assert q1 == q || q1 == q + 1;
    assert r1 - r == Gap(config) || r1 - r + 0x1_0000_0000 == Gap(config);
    assert (r1 + 0x1_0000_0000 - r) % 0x1_0000_0000 == Gap(config);
  }

  lemma Pending(net: Nat, config: Config, w: World, k: nat, s: Probe, t: nat)
    requires Reachable(net, config, w, t) && Waiting(w, k, s, t)
    ensures w.client.Ok() && w.client.config == Effective(config)
    ensures ReadyToRun(w.client.tests[k], w.client.results) && PreCheck(w.client) == w.client
  {
    ReachableHolds(net, config, w, t);
    IdsDiffer(k, k);
  }

  lemma SentAgain(c: Client, k: nat, time: nat, id: TransactionId)
    requires k < |c.tests| <= 5 && c.index == k && c.preChecked && c.Ok() && 0 < c.sendCount < c.config.uMaxAttempts
    requires Waited(c, Tick(time)) >= c.config.timeoutSeconds && !c.tests[k].fCompleted
    requires ReadyToRun(c.tests[k], c.results) && IsTransactionIdValid(c.tests[k].transid)
    ensures Next(c, Tick(time), id).0 == c.(sendCount := c.sendCount + 1, lastSent := Tick(time))
  {
    assert c.tests[k := c.tests[k]] == c.tests;
  }

  /** One more attempt. */
  lemma AskingAgain(net: Nat, config: Config, w: World, k: nat, s: Probe, t: nat) returns (w1: World)
    requires Reachable(net, config, w, t) && Waiting(w, k, s, t) && TimesOut(config)
    requires w.client.sendCount < w.client.config.uMaxAttempts
    ensures Reachable(net, config, w1, t + Gap(config)) && Waiting(w1, k, s, t + Gap(config))
    ensures w1.client == w.client.(sendCount := w.client.sendCount + 1, lastSent := Tick(t + Gap(config)))
  {
    Pending(net, config, w, k, s, t);
    var c, time, id := w.client, t + Gap(config), Id(k + 1);
    NamedUnused(c, k + 1);
    IdsDiffer(k, k);
    GapIsLongEnough(config, w.client, t);
    SentAgain(c, k, time, id);
    w1 := Polled(net, config, w, t, time, id);
  }

  lemma Polled(net: Nat, config: Config, w: World, t: nat, time: nat, id: TransactionId) returns (w1: World)
    requires Reachable(net, config, w, t) && Unused(w.client, id) && t <= time
    ensures Reachable(net, config, w1, time) && w1 == AfterEvent(w, Poll(time, id))
    ensures w1.client == Next(w.client, Tick(time), id).0
    ensures w.sent <= w1.sent && Contacted(w) <= Contacted(w1)
  {
    w1 := AfterEvent(w, Poll(time, id));
    Reach(net, config, w, t, Poll(time, id));
    assert forall q | q in w.sent :: q in w1.sent;
  }

  /** All attempts are made and none is answered. */
  lemma {:induction false} Exhausting(net: Nat, config: Config, w: World, k: nat, s: Probe, t: nat)
    returns (w1: World, t1: nat)
    requires Reachable(net, config, w, t) && Waiting(w, k, s, t) && TimesOut(config)
    requires w.client.sendCount <= w.client.config.uMaxAttempts
    ensures Reachable(net, config, w1, t1) && Waiting(w1, k, s, t1)
    ensures w1.client == w.client.(sendCount := w.client.config.uMaxAttempts, lastSent := Tick(t1))
    decreases w.client.config.uMaxAttempts - w.client.sendCount
  {
    if w.client.sendCount == w.client.config.uMaxAttempts {
      w1, t1 := w, t;
    } else {
      var w2 := AskingAgain(net, config, w, k, s, t);
      w1, t1 := Exhausting(net, config, w2, k, s, t + Gap(config));
    }
  }

  /** The poll after that gives the test up and turns to the next one. */
  lemma OnAfterGivingUp(net: Nat, config: Config, w: World, k: nat, s: Probe, t: nat)
    requires Reachable(net, config, w, t) && Waiting(w, k, s, t) && TimesOut(config)
    requires w.client.sendCount == w.client.config.uMaxAttempts && k + 1 < |w.client.tests|
    ensures AboutTo(w, Skip(GiveUp(w.client)), k + 1, t + Gap(config))
  {
    Pending(net, config, w, k, s, t);
    GapIsLongEnough(config, w.client, t);
    GivenUp(w.client, k, t + Gap(config));
    NextIsFresh(w.client, GiveUp(w.client), k);
  }

  lemma NextIsFresh(c: Client, d: Client, k: nat)
    requires k + 1 < |c.tests| <= 5 && c.index == k && Named(c) && d.index == k && d.config == c.config && c.Ok()
    requires d.Ok()
    requires |d.tests| == |c.tests| && d.tests == c.tests[k := d.tests[k]]
    requires d.tests[k].kind == c.tests[k].kind && d.tests[k].transid == c.tests[k].transid
    requires forall i | k < i < |c.tests| :: c.tests[i].transid == Zeros(16) && !c.tests[i].fCompleted
    ensures NotStarted(Skip(d), k + 1) && SameIds(c, Skip(d))
  {
  }

  lemma GivenUp(c: Client, k: nat, time: nat)
    requires k + 1 < |c.tests| <= 5 && c.index == k && c.preChecked && c.Ok() && c.sendCount == c.config.uMaxAttempts
    requires Waited(c, Tick(time)) >= c.config.timeoutSeconds && !c.tests[k].fCompleted
    requires ReadyToRun(c.tests[k], c.results)
    ensures Next(c, Tick(time), Id(k + 1)) == Next(Skip(GiveUp(c)), Tick(time), Id(k + 1))
  {
    NextTurns(c, Tick(time), Id(k + 1));
    NextTurns(GiveUp(c), Tick(time), Id(k + 1));
  }

  // ---- from test to test ----

  /** What a successful binding test leaves behind, as long as nothing else has been settled. */
  ghost predicate BindingOnly(net: Nat, config: Config, r: Results) {
    && r.fBindingTestSuccess && (r.fIsDirect <==> IsDirect(net, config.addrServer))
      && (r.fHasOtherAddress <==> net.other.Some?)
    && !r.fBehaviorTestSuccess && r.addrMapped == net.mapping(config.addrServer)
  }

  ghost predicate Unfiltered(r: Results) {
    !r.fFilteringTestSuccess && !r.fGotTest2Response && !r.fGotTest3Response
  }

  lemma StartIsFresh(config: Config)
    ensures AboutTo(Origin(config), Start(config), 0, 0) && KindsOf(Start(config))
    ensures var p := PreCheck(Start(config));
            p.results == NO_RESULTS && ReadyToRun(p.tests[0], p.results) && !p.tests[0].fCompleted
  {
  }

  /** The binding test is answered. */
  lemma Binding(net: Nat, config: Config) returns (w: World)
    requires Heard(net, config.addrServer, BasicBinding)
    ensures Reachable(net, config, w, 0) && Finished(w.client, 0) && KindsOf(w.client)
    ensures w.client.config == Effective(config)
    ensures BindingOnly(net, config, w.client.results) && Unfiltered(w.client.results)
  {
    AtOrigin(net, config);
    StartIsFresh(config);
    var w1, s := Asking(net, config, Origin(config), Start(config), 0, 0, 0);
    w := Hearing(net, config, w1, 0, s, 0);
    ReachableHolds(net, config, w, 0);
    SamePortBytes(net.local, net.mapping(config.addrServer));
  }

  /** The behavior tests, from the first of them on. */
  lemma Behaving(net: Nat, config: Config, w: World, c: Client, k: nat, t: nat, time: nat) returns (w1: World)
    requires Reachable(net, config, w, t) && AboutTo(w, c, k, time) && t <= time && k + 2 == |c.tests|
    requires c.tests[k].kind == BehaviorTest(false) && c.tests[k + 1].kind == BehaviorTest(true)
    requires BindingOnly(net, config, c.results) && c.config == Effective(config)
    requires Settleable(net, config.addrServer) && !IsDirect(net, config.addrServer)
    ensures Reachable(net, config, w1, time) && w1.client.results.fBehaviorTestSuccess
  {
    var server := config.addrServer;
    var ap := net.mapping(AP(server, net.other.value));
    var w2, s := Asking(net, config, w, c, k, t, time);
    w1 := Hearing(net, config, w2, k, s, time);
    SamePortBytes(ap, net.mapping(server));
    if ap != net.mapping(server) {
      w1 := BehavingOn(net, config, w1, k, time);
    }
  }

  lemma BehavingOn(net: Nat, config: Config, w: World, k: nat, t: nat) returns (w1: World)
    requires Reachable(net, config, w, t) && Finished(w.client, k) && k + 2 == |w.client.tests|
    requires w.client.tests[k + 1].kind == BehaviorTest(true) && Heard(net, config.addrServer, BehaviorTest(true))
    requires var r := w.client.results;
             r.fBindingTestSuccess && r.fHasOtherAddress && !r.fBehaviorTestSuccess && !IsIPAddressZero(r.addrMappingAP)
    ensures Reachable(net, config, w1, t) && w1.client.results.fBehaviorTestSuccess
  {
    OnToNext(w, k, t);
    ReadyAsIs(Skip(w.client), k + 1);
    var w2, s := Asking(net, config, w, Skip(w.client), k + 1, t, t);
    w1 := Hearing(net, config, w2, k + 1, s, t);
  }

  /** The third tests have no early chance. */
  lemma ReadyAsIs(c: Client, k: nat)
    requires NotStarted(c, k) && c.tests[k].kind in {BehaviorTest(true), FilteringTest(true)}
    ensures PreCheck(c).results == c.results && PreCheck(c).tests[k] == c.tests[k]
  {
  }

  /** The first filtering test goes out, without an answer yet. */
  lemma Filtering(net: Nat, config: Config) returns (w: World, s: Probe)
    requires Heard(net, config.addrServer, BasicBinding) && config.fFilteringTest
    requires !IsDirect(net, config.addrServer) && net.other.Some?
    ensures Reachable(net, config, w, 0) && Waiting(w, 1, s, 0) && w.client.sendCount <= w.client.config.uMaxAttempts
    ensures KindsOf(w.client) && w.client.config == Effective(config)
    ensures BindingOnly(net, config, w.client.results) && Unfiltered(w.client.results)
  {
    var w1 := Binding(net, config);
    OnToNext(w1, 0, 0);
    w, s := Asking(net, config, w1, Skip(w1.client), 1, 0, 0);
  }

  /** The second filtering test goes out after the first was given up, whether or not the NAT would have let the answer
      in. */
  lemma FilteringOn(net: Nat, config: Config) returns (w: World, s: Probe, t: nat)
    requires Heard(net, config.addrServer, BasicBinding) && config.fFilteringTest && TimesOut(config)
    requires !IsDirect(net, config.addrServer) && net.other.Some?
    ensures Reachable(net, config, w, t) && Waiting(w, 2, s, t) && w.client.sendCount <= w.client.config.uMaxAttempts
    ensures KindsOf(w.client) && w.client.config == Effective(config)
    ensures BindingOnly(net, config, w.client.results) && Unfiltered(w.client.results)
  {
    var w1, s1 := Filtering(net, config);
    var w2, t2 := Exhausting(net, config, w1, 1, s1, 0);
    OnAfterGivingUp(net, config, w2, 1, s1, t2);
    t := t2 + Gap(config);
    w, s := Asking(net, config, w2, Skip(GiveUp(w2.client)), 2, t2, t);
  }

  lemma OnTwice(w: World, k: nat, time: nat)
    requires Finished(w.client, k) && k + 2 < |w.client.tests| && w.client.tests[k + 1].kind == FilteringTest(true)
    requires w.client.results.fFilteringTestSuccess
    ensures AboutTo(w, Skip(PreCheck(Skip(w.client))), k + 2, time)
    ensures Skip(PreCheck(Skip(w.client))).results == w.client.results
    ensures Skip(PreCheck(Skip(w.client))).tests == w.client.tests
  {
    var c, now, id := w.client, Tick(time), Id(k + 2);
    assert c.tests[k + 1 := c.tests[k + 1]] == c.tests;
    NextTurns(c, now, id);
    NextTurns(Skip(c), now, id);
  }

  /** A client past the filtering tests, about to run the behavior tests. */
  ghost predicate Past(net: Nat, config: Config, w: World, c: Client, t: nat, time: nat) {
    && Reachable(net, config, w, t) && AboutTo(w, c, 3, time) && t <= time && KindsOf(c)
      && c.config == Effective(config)
    && BindingOnly(net, config, c.results)
  }

  /** The first filtering test is answered. */
  lemma FirstIsAnswered(net: Nat, config: Config) returns (w: World)
    requires Heard(net, config.addrServer, BasicBinding) && config.fFilteringTest
    requires !IsDirect(net, config.addrServer) && net.other.Some? && Heard(net, config.addrServer, FilteringTest(false))
    ensures Reachable(net, config, w, 0) && Finished(w.client, 1) && w.client.config == Effective(config)
    ensures BindingOnly(net, config, w.client.results) && w.client.results.fFilteringTestSuccess
    ensures w.client.results.filtering == EndpointIndependentFiltering
  {
    var w1, s1 := Filtering(net, config);
    w := Hearing(net, config, w1, 1, s1, 0);
  }

  lemma PastByAnswer(net: Nat, config: Config) returns (w: World, c: Client)
    requires Heard(net, config.addrServer, BasicBinding) && config.fFilteringTest && config.fBehaviorTest
    requires !IsDirect(net, config.addrServer) && net.other.Some? && Heard(net, config.addrServer, FilteringTest(false))
    ensures Past(net, config, w, c, 0, 0)
  {
    w := FirstIsAnswered(net, config);
    ReachableKinds(net, config, w, 0);
    OnTwice(w, 1, 0);
    c := Skip(PreCheck(Skip(w.client)));
  }

  lemma PastByTimeout(net: Nat, config: Config) returns (w: World, c: Client, t: nat, time: nat)
    requires Heard(net, config.addrServer, BasicBinding) && config.fFilteringTest && config.fBehaviorTest
    requires !IsDirect(net, config.addrServer) && net.other.Some? && TimesOut(config)
    ensures Past(net, config, w, c, t, time)
  {
    var w1, s1, t1 := FilteringOn(net, config);
    w, t := Exhausting(net, config, w1, 2, s1, t1);
    OnAfterGivingUp(net, config, w, 2, s1, t);
    time := t + Gap(config);
    c := Skip(GiveUp(w.client));
  }

  // ---- what can be reached ----

  /** On a direct connection the next poll settles everything without sending. */
  lemma DirectFinishes(c: Client, now: u32, id: TransactionId)
    requires Finished(c, 0) && KindsOf(c) && c.results.fBindingTestSuccess && c.results.fIsDirect
    ensures var r := Next(c, now, id).0.results;
            && (c.config.fBehaviorTest ==> r.fBehaviorTestSuccess && r.behavior == DirectMapping)
            && (c.config.fFilteringTest ==> r.fFilteringTestSuccess && r.filtering == EndpointIndependentFiltering)
  {
    NextTurns(c, now, id);
    DirectTurns(Skip(c), now, id);
  }

  lemma {:induction false} DirectTurns(c: Client, now: u32, id: TransactionId)
    requires KindsOf(c) && c.results.fBindingTestSuccess && c.results.fIsDirect && !c.preChecked && 1 <= c.index
    requires c.index == 1 || (c.index == 3 && c.config.fFilteringTest) || c.index >= |c.tests|
    requires c.config.fBehaviorTest && c.index >= |c.tests| ==>
               c.results.fBehaviorTestSuccess && c.results.behavior == DirectMapping
    requires c.config.fFilteringTest && c.index > 1 ==>
               c.results.fFilteringTestSuccess && c.results.filtering == EndpointIndependentFiltering
    ensures var r := Next(c, now, id).0.results;
            && (c.config.fBehaviorTest ==> r.fBehaviorTestSuccess && r.behavior == DirectMapping)
            && (c.config.fFilteringTest ==> r.fFilteringTestSuccess && r.filtering == EndpointIndependentFiltering)
    decreases |c.tests| - c.index
  {
    if c.index < |c.tests| {
      NextTurns(c, now, id);
      var d := Turn(c, now, id).0;
      NextTurns(d, now, id);
      DirectTurns(Turn(d, now, id).0, now, id);
    }
  }

  lemma DirectIsReached(net: Nat, config: Config) returns (w: World)
    requires Heard(net, config.addrServer, BasicBinding) && IsDirect(net, config.addrServer)
    ensures Reachable(net, config, w, 0)
    ensures config.fBehaviorTest ==> w.client.results.fBehaviorTestSuccess
    ensures config.fFilteringTest ==>
              w.client.results.fFilteringTestSuccess && w.client.results.filtering == EndpointIndependentFiltering
  {
    var w1 := Binding(net, config);
    DirectFinishes(w1.client, Tick(0), Id(1));
    if |w1.client.tests| > 1 {
      NamedUnused(w1.client, 1);
    } else {
      NamedUnused(w1.client, 5);
    }
    w := Polled(net, config, w1, 0, 0, if |w1.client.tests| > 1 then Id(1) else Id(5));
  }

  lemma UnfilteredIsReached(net: Nat, config: Config) returns (w: World)
    requires config.fBehaviorTest && !config.fFilteringTest && Settleable(net, config.addrServer)
    requires !IsDirect(net, config.addrServer)
    ensures Reachable(net, config, w, 0) && w.client.results.fBehaviorTestSuccess
  {
    var w1 := Binding(net, config);
    OnToNext(w1, 0, 0);
    w := Behaving(net, config, w1, Skip(w1.client), 1, 0, 0);
  }

  lemma BehaviorIsReached(net: Nat, config: Config) returns (w: World, t: nat)
    requires config.fBehaviorTest && Settleable(net, config.addrServer) && GetsToBehavior(net, config)
    ensures Reachable(net, config, w, t) && w.client.results.fBehaviorTestSuccess
  {
    if IsDirect(net, config.addrServer) {
      w := DirectIsReached(net, config);
      t := 0;
    } else if !config.fFilteringTest {
      w := UnfilteredIsReached(net, config);
      t := 0;
    } else if Heard(net, config.addrServer, FilteringTest(false)) {
      var w1, c := PastByAnswer(net, config);
      w := Behaving(net, config, w1, c, 3, 0, 0);
      t := 0;
    } else {
      var w1, c, t1, time := PastByTimeout(net, config);
      w := Behaving(net, config, w1, c, 3, t1, time);
      t := time;
    }
  }

  /** Some run ends in a mapping verdict if and only if the behavior tests are on, the NAT can be settled and the
      filtering tests, when they are on, come to an end. By MappingVerdict the verdict is then the truth. */
  lemma VerdictIsReached(net: Nat, config: Config)
    ensures (exists w, t :: Reachable(net, config, w, t) && w.client.results.fBehaviorTestSuccess)
            <==> config.fBehaviorTest && Settleable(net, config.addrServer) && GetsToBehavior(net, config)
  {
    if w, t :| Reachable(net, config, w, t) && w.client.results.fBehaviorTestSuccess {
      var es :| RunsTo(net, config, es, w, t);
      MappingVerdict(net, config, es);
    }
    if config.fBehaviorTest && Settleable(net, config.addrServer) && GetsToBehavior(net, config) {
      var w, t := BehaviorIsReached(net, config);
    }
  }

  // ---- the filtering verdicts ----

  /** The NATs about which the filtering tests can come to a verdict. */
  predicate Filterable(net: Nat, config: Config) {
    var server := config.addrServer;
    && config.fFilteringTest && Heard(net, server, BasicBinding)
    && (IsDirect(net, server) || (net.other.Some? && (Heard(net, server, FilteringTest(false)) || TimesOut(config))))
  }

  lemma ThirdIsAnswered(net: Nat, config: Config) returns (w: World, t: nat)
    requires Heard(net, config.addrServer, BasicBinding) && config.fFilteringTest && TimesOut(config)
    requires !IsDirect(net, config.addrServer) && net.other.Some? && Heard(net, config.addrServer, FilteringTest(true))
    ensures Reachable(net, config, w, t)
    ensures w.client.results.fFilteringTestSuccess && w.client.results.filtering == AddressDependentFiltering
  {
    var w1, s1, t1 := FilteringOn(net, config);
    w := Hearing(net, config, w1, 2, s1, t1);
    t := t1;
  }

  lemma NothingIsAnswered(net: Nat, config: Config) returns (w: World, t: nat)
    requires Heard(net, config.addrServer, BasicBinding) && config.fFilteringTest && TimesOut(config)
    requires !IsDirect(net, config.addrServer) && net.other.Some?
    ensures Reachable(net, config, w, t)
    ensures w.client.results.fFilteringTestSuccess && w.client.results.filtering == AddressAndPortDependentFiltering
  {
    var w1, s1, t1 := FilteringOn(net, config);
    var w2, t2 := Exhausting(net, config, w1, 2, s1, t1);
    t := t2 + Gap(config);
    w := ThirdGivenUp(net, config, w2, s1, t2);
  }

  lemma ThirdGivenUp(net: Nat, config: Config, w: World, s: Probe, t: nat) returns (w1: World)
    requires Reachable(net, config, w, t) && Waiting(w, 2, s, t) && TimesOut(config) && config.fFilteringTest
    requires w.client.sendCount == w.client.config.uMaxAttempts
    ensures Reachable(net, config, w1, t + Gap(config))
    ensures w1.client.results.fFilteringTestSuccess && w1.client.results.filtering == AddressAndPortDependentFiltering
  {
    NamedUnused(w.client, 5);
    w1 := Polled(net, config, w, t, t + Gap(config), Id(5));
    ThirdTimesOut(net, config, w, s, t);
  }

  lemma ThirdTimesOut(net: Nat, config: Config, w: World, s: Probe, t: nat)
    requires Reachable(net, config, w, t) && Waiting(w, 2, s, t) && TimesOut(config) && config.fFilteringTest
    requires w.client.sendCount == w.client.config.uMaxAttempts
    ensures var r := Next(w.client, Tick(t + Gap(config)), Id(5)).0.results;
            r.fFilteringTestSuccess && r.filtering == AddressAndPortDependentFiltering
  {
    Pending(net, config, w, 2, s, t);
    GapIsLongEnough(config, w.client, t);
    ReachableKinds(net, config, w, t);
    LastGivenUp(w.client, Next(w.client, Tick(t + Gap(config)), Id(5)).0, Tick(t + Gap(config)), Id(5));
  }

  /** When the last filtering test is given up, the strictest verdict stands, whatever happens to the tests after it. */
  lemma LastGivenUp(c: Client, d: Client, now: u32, id: TransactionId)
    requires d == Next(c, now, id).0
    requires c.Ok() && c.preChecked && c.index == 2 < |c.tests| && c.tests[2].kind == FilteringTest(true)
    requires KindsOf(c) && c.config.fFilteringTest
    requires c.sendCount == c.config.uMaxAttempts && Waited(c, now) >= c.config.timeoutSeconds
    requires !c.tests[2].fCompleted && ReadyToRun(c.tests[2], c.results)
    ensures d.results.fFilteringTestSuccess && d.results.filtering == AddressAndPortDependentFiltering
  {
    NextTurns(c, now, id);
    NextTurns(GiveUp(c), now, id);
    FilteringStands(Skip(GiveUp(c)), now, id);
  }

  lemma {:induction false} FilteringStands(c: Client, now: u32, id: TransactionId)
    requires forall i | c.index <= i < |c.tests| :: c.tests[i].kind.BehaviorTest?
    ensures var r := Next(c, now, id).0.results;
            r.fFilteringTestSuccess == c.results.fFilteringTestSuccess && r.filtering == c.results.filtering
    decreases Remaining(c)
  {
    TurnAdvances(c, now, id);
    if Turn(c, now, id).1.None? {
      FilteringStands(Turn(c, now, id).0, now, id);
    }
  }

  lemma FilteringIsReached(net: Nat, config: Config) returns (w: World, t: nat)
    requires Filterable(net, config)
    ensures Reachable(net, config, w, t)
    ensures w.client.results.fFilteringTestSuccess
    ensures w.client.results.filtering == TrueFiltering(net, config.addrServer)
  {
    t := 0;
    if IsDirect(net, config.addrServer) {
      w := DirectIsReached(net, config);
    } else if Heard(net, config.addrServer, FilteringTest(false)) {
      w := FirstIsAnswered(net, config);
    } else if Heard(net, config.addrServer, FilteringTest(true)) {
      w, t := ThirdIsAnswered(net, config);
    } else {
      w, t := NothingIsAnswered(net, config);
    }
  }

  /** The filtering tests can come to a verdict, and to the true one, if and only if the server is heard, and the
      connection is direct or the server has another address and the first test is answered or times out. */
  lemma FilteringIsReachedIff(net: Nat, config: Config)
    ensures (exists w, t :: Reachable(net, config, w, t) && w.client.results.fFilteringTestSuccess)
            <==> Filterable(net, config)
    ensures Filterable(net, config) ==>
              exists w, t :: Reachable(net, config, w, t) && w.client.results.fFilteringTestSuccess
                             && w.client.results.filtering == TrueFiltering(net, config.addrServer)
  {
    if w, t :| Reachable(net, config, w, t) && w.client.results.fFilteringTestSuccess {
      ReachableHolds(net, config, w, t);
      assert FilteringTrue(net, w.client) && ResultsTrue(net, config.addrServer, w.client.results);
    }
    if Filterable(net, config) {
      var w, t := FilteringIsReached(net, config);
    }
  }

  // ---- how the verdicts go wrong ----

  /** Lost answers mislead the filtering tests: any NAT with endpoint-independent filtering can be reported as address
      dependent, and as address and port dependent. */
  lemma LostAnswersMislead(net: Nat, config: Config)
    requires Filterable(net, config) && TimesOut(config) && !IsDirect(net, config.addrServer)
    requires TrueFiltering(net, config.addrServer) == EndpointIndependentFiltering
    ensures Heard(net, config.addrServer, FilteringTest(true)) ==>
              exists w, t :: Reachable(net, config, w, t) && w.client.results.fFilteringTestSuccess
                             && w.client.results.filtering == AddressDependentFiltering
    ensures exists w, t :: Reachable(net, config, w, t) && w.client.results.fFilteringTestSuccess
                           && w.client.results.filtering == AddressAndPortDependentFiltering
  {
    if Heard(net, config.addrServer, FilteringTest(true)) {
      var w, t := ThirdIsAnswered(net, config);
    }
    var w, t := NothingIsAnswered(net, config);
  }

  /** A response with the all-zero id before the first poll misleads both tests: it makes any NAT look like a direct
      connection. */
  lemma EarlyZeroMisleads(net: Nat, config: Config)
    ensures var fake := Datagram(Some(Response(Zeros(16), Some(net.local), None)), net.local);
            var es := [fake, Poll(0, Id(1))];
            var r := AfterEvents(Origin(config), es).client.results;
            && PlausibleRun(net, Origin(config), es) && !SpeaksFirst(es)
            && (config.fBehaviorTest ==> r.fBehaviorTestSuccess && r.behavior == DirectMapping)
            && (config.fFilteringTest ==> r.fFilteringTestSuccess && r.filtering == EndpointIndependentFiltering)
  {
    var fake := Datagram(Some(Response(Zeros(16), Some(net.local), None)), net.local);
    var w := AfterEvent(Origin(config), fake);
    var c, id := w.client, Id(1);
    IdsDiffer(1, 1);
    SamePortBytes(net.local, net.local);
    assert [fake, Poll(0, id)][1..] == [Poll(0, id)] && [Poll(0, id)][1..] == [];
    assert AfterEvents(Origin(config), [fake, Poll(0, id)]) == AfterEvent(w, Poll(0, id)) by {
      assert AfterEvents(w, [Poll(0, id)]) == AfterEvent(w, Poll(0, id));
    }
    assert Plausible(net, w, Poll(0, id)) && PlausibleRun(net, w, [Poll(0, id)]);
    NextTurns(PreCheck(c), Tick(0), id);
    assert Next(c, Tick(0), id) == Next(PreCheck(c), Tick(0), id);
    DirectTurns(Skip(PreCheck(c)), Tick(0), id);
  }
}
