/** What the discovery client concludes about a NAT, whatever datagrams the network loses, delays or repeats. */
module NatVerdict {
  import opened Options
  import opened StunTypes
  import opened SocketAddresses
  import opened StunReaders
  import opened NatDiscovery

  /** A client address behind a NAT: the mapping is a fixed function of the destination, and the filter decides by the
      destinations the client has sent to so far and the source of a packet. `other` is the alternate address of the
      server, if it has one. */
  datatype Nat = Nat(local: Address, mapping: Address -> Address, passes: (set<Address>, Address) -> bool,
                     other: Option<Address>)

  /** The server's other two addresses (section 3 of RFC 5780): alternate IP with primary port, and the reverse. */
  function AP(server: Address, other: Address): Address {
    WithPort(other, GetPort(server))
  }

  function PA(server: Address, other: Address): Address {
    WithPort(server, GetPort(other))
  }

  /** The address a correct server answers from. */
  function Source(server: Address, other: Option<Address>, dest: Address, change: ChangeRequest): Address {
    if other.None? || !change.fChangePort then dest
    else if change.fChangeIP then other.value
    else PA(server, other.value)
  }

  /** A request on the wire, with the number of the test that sent it and all destinations sent to by then. */
  datatype Probe = Probe(test: nat, transid: TransactionId, dest: Address, change: ChangeRequest,
                         contacted: set<Address>)

  datatype World = World(client: Client, sent: set<Probe>)

  function Contacted(w: World): set<Address> {
    set s | s in w.sent :: s.dest
  }

  /** A correct server's response to a request that reached it through the NAT. Only the binding test, which is the
      first, asks for the other address. */
  predicate IsAnswer(net: Nat, s: Probe, resp: Response) {
    && resp.transid == s.transid && resp.mapped == Some(net.mapping(s.dest))
    && (s.test == 0 ==> resp.other == net.other)
  }

  /** Some time between the request and now, the filter let the packet through. */
  ghost predicate LetThrough(net: Nat, w: World, s: Probe) {
    exists contacted | s.contacted <= contacted <= Contacted(w) ::
      net.passes(contacted, Source(w.client.config.addrServer, net.other, s.dest, s.change))
  }

  ghost predicate Answered(net: Nat, w: World, resp: Response) {
    exists s | s in w.sent :: IsAnswer(net, s, resp) && LetThrough(net, w, s)
  }

  ghost predicate Unused(c: Client, id: TransactionId) {
    IsTransactionIdValid(id) && forall i | 0 <= i < |c.tests| :: c.tests[i].transid != id
  }

  /** A datagram with an id that no request of the client carried. */
  ghost predicate Stray(w: World, resp: Response) {
    forall i | 0 <= i < |w.client.tests| && IsTransactionIdValid(w.client.tests[i].transid) ::
      w.client.tests[i].transid != resp.transid
  }

  /** Transaction ids are drawn fresh, and what arrives is an answer to some earlier request, a stray message, or
      nothing that parses. Losses, delays and repetitions need no mention: any answer may arrive at any time. */
  ghost predicate Plausible(net: Nat, w: World, e: Event) {
    match e
    case Poll(_, newId) => Unused(w.client, newId)
    case Datagram(resp, local) =>
      local == net.local && (resp.Some? ==> Answered(net, w, resp.value) || Stray(w, resp.value))
  }

  function AfterEvent(w: World, e: Event): World {
    var c1 := Step(w.client, e);
    match e
    case Datagram(_, _) => World(c1, w.sent)
    case Poll(time, newId) =>
      match Next(w.client, Tick(time), newId).1
      case Send(dest, transid, change) =>
        World(c1, w.sent + {Probe(c1.index, transid, dest, change, Contacted(w) + {dest})})
      case _ => World(c1, w.sent)
  }

  function AfterEvents(w: World, es: seq<Event>): World
    decreases |es|
  {
    if es == [] then w else AfterEvents(AfterEvent(w, es[0]), es[1..])
  }

  ghost predicate PlausibleRun(net: Nat, w: World, es: seq<Event>)
    decreases |es|
  {
    es == [] || (Plausible(net, w, es[0]) && PlausibleRun(net, AfterEvent(w, es[0]), es[1..]))
  }

  // ---- the all-zero transaction id ----

  /** A response with the id of a test that has not sent anything yet. */
  predicate IsZeroAnswer(e: Event) {
    e.Datagram? && e.resp.Some? && e.resp.value.transid == Zeros(16) && e.resp.value.mapped.Some?
  }

  /** No response with the all-zero id comes in before the client is first polled. */
  predicate SpeaksFirst(es: seq<Event>) {
    es == [] || es[0].Poll? || (!IsZeroAnswer(es[0]) && SpeaksFirst(es[1..]))
  }

  predicate NoPolls(es: seq<Event>) {
    forall e | e in es :: e.Datagram?
  }

  predicate ValidIds(es: seq<Event>) {
    forall e | e in es && e.Poll? :: IsTransactionIdValid(e.newId)
  }

  /** The test at hand has sent its request, if there is one at hand. */
  predicate Asked(c: Client) {
    c.Done() || IsTransactionIdValid(c.tests[c.index].transid)
  }

  predicate SentIsValid(c: Client) {
    !c.Done() && c.sendCount > 0 ==> IsTransactionIdValid(c.tests[c.index].transid)
  }

  lemma {:induction false} NextAsks(c: Client, now: u32, newId: TransactionId)
    requires SentIsValid(c) && IsTransactionIdValid(newId)
    ensures var c1 := Next(c, now, newId).0; Asked(c1) && SentIsValid(c1)
    decreases Remaining(c)
  {
    TurnAdvances(c, now, newId);
    if Turn(c, now, newId).1.None? {
      NextAsks(Turn(c, now, newId).0, now, newId);
    }
  }

  lemma {:induction false} AskedStays(c: Client, es: seq<Event>)
    requires Asked(c) && SentIsValid(c) && ValidIds(es)
    ensures Asked(Run(c, es)) && SentIsValid(Run(c, es))
    decreases |es|
  {
    if es != [] {
      if es[0].Poll? {
        NextAsks(c, Tick(es[0].time), es[0].newId);
      }
      AskedStays(Step(c, es[0]), es[1..]);
    }
  }

  lemma StepBeforePoll(c: Client, e: Event)
    requires !c.Done() && e.Datagram? && c.tests[c.index].transid == Zeros(16) && c.tests[c.index].kind == BasicBinding
    ensures Step(c, e).index == c.index && |Step(c, e).tests| == |c.tests|
    ensures Step(c, e).tests[c.index].transid == Zeros(16) && Step(c, e).tests[c.index].kind == BasicBinding
    ensures Step(c, e).tests[c.index].fCompleted <==> c.tests[c.index].fCompleted || IsZeroAnswer(e)
    ensures Step(c, e).sendCount == c.sendCount
  {
  }

  /** Before the first poll the client only waits, and the first response with the all-zero id completes its test. */
  lemma {:induction false} BeforeAndAfterPoll(c: Client, es: seq<Event>)
    requires !c.Done() && c.tests[c.index].transid == Zeros(16) && c.tests[c.index].kind == BasicBinding
    requires c.sendCount == 0 && ValidIds(es)
    ensures var d := Run(c, es);
            if NoPolls(es) then
              && !d.Done() && d.tests[d.index].transid == Zeros(16) && d.tests[d.index].kind == BasicBinding
              && (d.tests[d.index].fCompleted <==> c.tests[c.index].fCompleted || !SpeaksFirst(es))
            else Asked(d)
    decreases |es|
  {
    if es != [] {
      if es[0].Poll? {
        NextAsks(c, Tick(es[0].time), es[0].newId);
        AskedStays(Step(c, es[0]), es[1..]);
      } else {
        StepBeforePoll(c, es[0]);
        BeforeAndAfterPoll(Step(c, es[0]), es[1..]);
        assert NoPolls(es) <==> NoPolls(es[1..]) by {
          assert es == [es[0]] + es[1..];
        }
      }
    }
  }

  /** A response with the all-zero id is taken exactly when the client has not been polled yet, it is the first of its
      kind and it has a mapped address; at any other time it changes nothing. */
  lemma ZeroIdTakenIff(config: Config, es: seq<Event>, resp: Response, local: Address)
    requires ValidIds(es) && resp.transid == Zeros(16)
    ensures var c := Run(Start(config), es);
            && (Takes(c, Some(resp)) <==> NoPolls(es) && SpeaksFirst(es) && resp.mapped.Some?)
            && (!Takes(c, Some(resp)) ==> Deliver(c, Some(resp), local) == c)
  {
    BeforeAndAfterPoll(Start(config), es);
    var c := Run(Start(config), es);
    if !Takes(c, Some(resp)) {
      DropKeeps(c, Some(resp), local);
    }
  }

  // ---- the truth ----

  function TrueTarget(net: Nat, server: Address, kind: TestKind): Address {
    match kind
    case BehaviorTest(fIsTest3) =>
      if net.other.None? then server else if fIsTest3 then net.other.value else AP(server, net.other.value)
    case _ => server
  }

  /** The destinations the client has sent to once it has sent a test of this kind. */
  function ContactedFor(net: Nat, server: Address, kind: TestKind): set<Address> {
    match kind
    case BehaviorTest(fIsTest3) =>
      if net.other.None? then {server}
      else if fIsTest3 then {server, AP(server, net.other.value), net.other.value}
      else {server, AP(server, net.other.value)}
    case _ => {server}
  }

  /** The NAT lets the answer to a test in. For the filtering tests this is the NAT's filter towards an address, or an
      address and port, the client has not sent to: only the server has been contacted by then. */
  predicate Heard(net: Nat, server: Address, kind: TestKind) {
    net.passes(ContactedFor(net, server, kind), Source(server, net.other, TrueTarget(net, server, kind), Change(kind)))
  }

  predicate IsDirect(net: Nat, server: Address) {
    net.mapping(server) == net.local
  }

  function TrueBehavior(net: Nat, server: Address): NatBehavior {
    if IsDirect(net, server) then DirectMapping
    else if net.other.None? then UnknownBehavior
    else if net.mapping(AP(server, net.other.value)) == net.mapping(server) then EndpointIndependentMapping
    else if net.mapping(net.other.value) == net.mapping(AP(server, net.other.value)) then AddressDependentMapping
    else AddressAndPortDependentMapping
  }

  /** The NAT's filtering (section 5 of RFC 4787), by whether packets from the server's other address, and from the
      server's address with the other port, get in while the client has only sent to the server. */
  function TrueFiltering(net: Nat, server: Address): NatFiltering {
    if IsDirect(net, server) then EndpointIndependentFiltering
    else if net.other.None? then UnknownFiltering
    else if net.passes({server}, net.other.value) then EndpointIndependentFiltering
    else if net.passes({server}, PA(server, net.other.value)) then AddressDependentFiltering
    else AddressAndPortDependentFiltering
  }

  /** The NATs whose mapping the behavior tests can settle, once they are run: the answers they need get in, and the
      third test is not run on a mapping with a zero IP. */
  predicate Settleable(net: Nat, server: Address) {
    && Heard(net, server, BasicBinding)
    && (IsDirect(net, server)
        || (&& net.other.Some? && Heard(net, server, BehaviorTest(false))
            && var ap := net.mapping(AP(server, net.other.value));
               ap == net.mapping(server) || (!IsIPAddressZero(ap) && Heard(net, server, BehaviorTest(true)))))
  }

  /** The longest wait, in seconds, that a 32-bit millisecond clock can tell. */
  const LONGEST_WAIT: nat := 4294967

  predicate TimesOut(config: Config) {
    Effective(config).timeoutSeconds <= LONGEST_WAIT
  }

  /** A test that was sent and not answered is ever sent again or given up if and only if the timeout can be told by the
      clock. */
  lemma WaitingEndsIff(config: Config, c: Client)
    requires c.config == Effective(config) && !c.Done() && PreCheck(c) == c && c.sendCount > 0
    requires !c.tests[c.index].fCompleted && ReadyToRun(c.tests[c.index], c.results)
    ensures TimesOut(config) <==> exists now: u32, newId :: Turn(c, now, newId).1 != Some(StillWaiting)
  {
    var now, newId := (c.lastSent + 0xffff_ffff) % 0x1_0000_0000, Zeros(16);
    assert Waited(c, now) == LONGEST_WAIT;
    if TimesOut(config) {
      assert Turn(c, now, newId).1 != Some(StillWaiting);
    }
  }

  /** The behavior tests come after the filtering tests, so the first of these must be answered or time out. */
  predicate GetsToBehavior(net: Nat, config: Config) {
    var server := config.addrServer;
    !config.fFilteringTest || IsDirect(net, server) || Heard(net, server, FilteringTest(false)) || TimesOut(config)
  }

  // ---- the invariant ----

  ghost predicate BindingTrue(net: Nat, server: Address, r: Results) {
    r.fBindingTestSuccess ==>
      && Heard(net, server, BasicBinding)
      && r.addrMapped == net.mapping(server)
      && (r.fIsDirect <==> IsDirect(net, server))
      && (r.fHasOtherAddress <==> net.other.Some?)
      && r.addrLocal == net.local
      && (net.other.Some? ==>
            && r.addrAA == net.other.value && r.addrAP == AP(server, net.other.value)
            && r.addrPA == PA(server, net.other.value))
  }

  /** A mapping for the alternate IP is recorded only when it is the NAT's, and when it settles nothing by itself. */
  ghost predicate MappingTrue(net: Nat, server: Address, r: Results) {
    !IsIPAddressZero(r.addrMappingAP) ==>
      && r.fBindingTestSuccess && net.other.Some? && !IsDirect(net, server) && Heard(net, server, BehaviorTest(false))
      && r.addrMappingAP == net.mapping(AP(server, net.other.value))
      && (r.addrMappingAP == net.mapping(server) ==> r.fBehaviorTestSuccess)
  }

  /** Mappings are recorded with the verdicts that rest on them, and that for the other address is the NAT's. */
  ghost predicate OtherMappingTrue(net: Nat, server: Address, r: Results) {
    && (r.addrMappingAA == ZERO_ADDRESS || (net.other.Some? && r.addrMappingAA == net.mapping(net.other.value)))
    && (r.fBehaviorTestSuccess && r.behavior in {AddressDependentMapping, AddressAndPortDependentMapping} ==>
          net.other.Some? && r.addrMappingAA == net.mapping(net.other.value))
    && (r.fBehaviorTestSuccess && r.behavior != DirectMapping ==>
          net.other.Some? && r.addrMappingAP == net.mapping(AP(server, net.other.value)))
  }

  ghost predicate ResultsTrue(net: Nat, server: Address, r: Results) {
    && BindingTrue(net, server, r) && MappingTrue(net, server, r) && OtherMappingTrue(net, server, r)
    && (r.fBehaviorTestSuccess ==>
          r.fBindingTestSuccess && r.behavior == TrueBehavior(net, server) && Settleable(net, server))
  }

  /** What the filtering tests have come to say. */
  function Concluded(net: Nat, server: Address, r: Results): NatFiltering {
    if IsDirect(net, server) || r.fGotTest2Response then EndpointIndependentFiltering
    else if r.fGotTest3Response then AddressDependentFiltering
    else AddressAndPortDependentFiltering
  }

  ghost predicate FilteringTrue(net: Nat, c: Client)
    requires c.config.fFilteringTest ==> |c.tests| >= 3
  {
    var r, server, direct := c.results, c.config.addrServer, IsDirect(net, c.config.addrServer);
    if !c.config.fFilteringTest then !r.fFilteringTestSuccess && !r.fGotTest2Response && !r.fGotTest3Response else
      && (r.fFilteringTestSuccess ==>
            && r.fBindingTestSuccess && c.tests[1].fCompleted && r.filtering == Concluded(net, server, r)
            && (direct || (net.other.Some? && (r.fGotTest2Response || c.tests[2].fCompleted))))
      && (r.fGotTest2Response ==> r.fFilteringTestSuccess && !direct && Heard(net, server, FilteringTest(false)))
      && (r.fGotTest3Response ==>
            c.tests[2].fCompleted && Heard(net, server, FilteringTest(true)))
      && (c.tests[2].fCompleted ==> r.fFilteringTestSuccess && !direct && !r.fGotTest2Response)
      && (c.tests[1].fCompleted && !direct && !r.fGotTest2Response ==> TimesOut(c.config))
      && (c.index > 1 && r.fBindingTestSuccess && net.other.Some? ==> c.tests[1].fCompleted)
  }

  predicate KindsOf(c: Client) {
    |c.tests| == |TestsOf(c.config)| && forall i | 0 <= i < |c.tests| :: c.tests[i].kind == TestsOf(c.config)[i].kind
  }

  ghost predicate ProbeTrue(net: Nat, c: Client, s: Probe) {
    && s.test < |c.tests| && s.test <= c.index
    && s.transid == c.tests[s.test].transid && IsTransactionIdValid(s.transid)
    && var kind, server := c.tests[s.test].kind, c.config.addrServer;
       && s.dest == TrueTarget(net, server, kind) && s.change == Change(kind)
       && s.contacted == ContactedFor(net, server, kind)
  }

  ghost predicate IdsTrue(c: Client) {
    && (forall i | 0 <= i < |c.tests| ::
          i > c.index ==> !IsTransactionIdValid(c.tests[i].transid) && !c.tests[i].fCompleted)
    && (forall i, j | 0 <= i < j < |c.tests| ::
          IsTransactionIdValid(c.tests[j].transid) ==> c.tests[i].transid != c.tests[j].transid)
  }

  /** A test that is under way could still be started now. */
  ghost predicate Underway(c: Client) {
    && SentIsValid(c)
    && (!c.Done() && IsTransactionIdValid(c.tests[c.index].transid) && !c.tests[c.index].fCompleted ==>
          c.preChecked && ReadyToRun(c.tests[c.index], c.results))
  }

  /** Once a test has had its early chance, a direct connection has settled its question. */
  ghost predicate Settled(net: Nat, c: Client) {
    var r := c.results;
    && (r.fBindingTestSuccess ==> |c.tests| > 0 && c.tests[0].fCompleted)
    && (r.fBehaviorTestSuccess ==> c.config.fBehaviorTest && c.index + 2 >= |c.tests|)
    && (!c.Done() && r.fBindingTestSuccess && IsDirect(net, c.config.addrServer) ==>
          match c.tests[c.index].kind
          case FilteringTest(fIsTest3) => fIsTest3 || c.preChecked ==> r.fFilteringTestSuccess
          case BehaviorTest(fIsTest3) => fIsTest3 || c.preChecked ==> r.fBehaviorTestSuccess
          case BasicBinding => true)
  }

  ghost predicate CoreTrue(net: Nat, c: Client) {
    && c.Ok() && KindsOf(c) && IdsTrue(c) && Underway(c) && Settled(net, c) && c.config == Effective(c.config)
    && ResultsTrue(net, c.config.addrServer, c.results)
  }

  ghost predicate ClientTrue(net: Nat, c: Client) {
    CoreTrue(net, c) && FilteringTrue(net, c)
  }

  /** What has been learnt was learnt from destinations the client sent to. */
  ghost predicate LearntFrom(net: Nat, server: Address, r: Results, contacted: set<Address>) {
    && (r.fBindingTestSuccess ==> server in contacted)
    && (!IsIPAddressZero(r.addrMappingAP) && net.other.Some? ==> AP(server, net.other.value) in contacted)
  }

  ghost predicate Inv(net: Nat, w: World) {
    var c := w.client;
    && ClientTrue(net, c) && LearntFrom(net, c.config.addrServer, c.results, Contacted(w))
    && forall s | s in w.sent :: ProbeTrue(net, c, s)
  }

  /** Requests already sent stay attributable while the client moves on, and polling teaches it nothing. */
  ghost predicate KeepsIds(c: Client, c1: Client) {
    && c1.config == c.config && |c1.tests| == |c.tests| && c.index <= c1.index
    && forall i | 0 <= i < |c.tests| ::
         c1.tests[i].kind == c.tests[i].kind
         && (IsTransactionIdValid(c.tests[i].transid) ==> c1.tests[i].transid == c.tests[i].transid)
  }

  ghost predicate Unlearnt(r: Results, r1: Results) {
    r1.addrMappingAP == r.addrMappingAP && (r1.fBindingTestSuccess ==> r.fBindingTestSuccess)
  }

  /** The ids of all tests, as they are. */
  ghost predicate SameIds(c: Client, c1: Client) {
    KeepsIds(c, c1) && forall i | 0 <= i < |c.tests| :: c1.tests[i].transid == c.tests[i].transid
  }

  lemma PreCheckShape(c: Client)
    requires c.Ok() && KindsOf(c) && IdsTrue(c) && !c.Done()
    ensures var c1 := PreCheck(c); c1.Ok() && KindsOf(c1) && IdsTrue(c1) && SameIds(c, c1)
  {
    var c1 := PreCheck(c);
    assert forall i | 0 <= i < |c.tests| ::
        c1.tests[i].kind == c.tests[i].kind && c1.tests[i].transid == c.tests[i].transid;
  }

  lemma PreCheckCore(net: Nat, c: Client)
    requires CoreTrue(net, c) && !c.Done()
    ensures CoreTrue(net, PreCheck(c)) && SameIds(c, PreCheck(c)) && Unlearnt(c.results, PreCheck(c).results)
  {
    PreCheckShape(c);
  }

  lemma PreCheckFiltering(net: Nat, c: Client)
    requires CoreTrue(net, c) && FilteringTrue(net, c) && !c.Done()
    ensures var c1 := PreCheck(c); |c1.tests| == |c.tests| && c1.config == c.config && FilteringTrue(net, c1)
  {
    assert forall i | 0 <= i < |c.tests| && i != c.index :: PreCheck(c).tests[i] == c.tests[i];
  }

  lemma PreCheckKeeps(net: Nat, c: Client)
    requires ClientTrue(net, c) && !c.Done()
    ensures ClientTrue(net, PreCheck(c)) && SameIds(c, PreCheck(c)) && Unlearnt(c.results, PreCheck(c).results)
  {
    PreCheckCore(net, c);
    PreCheckFiltering(net, c);
  }

  lemma SkipKeeps(net: Nat, c: Client)
    requires ClientTrue(net, c) && !c.Done() && c.preChecked
    requires c.tests[c.index].fCompleted || !ReadyToRun(c.tests[c.index], c.results)
    ensures ClientTrue(net, Skip(c)) && SameIds(c, Skip(c))
  {
  }

  lemma GiveUpCore(net: Nat, c: Client)
    requires CoreTrue(net, c) && !c.Done() && c.preChecked && ReadyToRun(c.tests[c.index], c.results)
    ensures CoreTrue(net, GiveUp(c)) && SameIds(c, GiveUp(c)) && Unlearnt(c.results, GiveUp(c).results)
  {
    var c1 := GiveUp(c);
    assert forall i | 0 <= i < |c.tests| ::
        c1.tests[i].kind == c.tests[i].kind && c1.tests[i].transid == c.tests[i].transid;
  }

  lemma GiveUpFiltering(net: Nat, c: Client)
    requires CoreTrue(net, c) && FilteringTrue(net, c) && !c.Done() && c.preChecked
    requires ReadyToRun(c.tests[c.index], c.results) && TimesOut(c.config)
    ensures var c1 := GiveUp(c); |c1.tests| == |c.tests| && c1.config == c.config && FilteringTrue(net, c1)
  {
    assert forall i | 0 <= i < |c.tests| && i != c.index :: GiveUp(c).tests[i] == c.tests[i];
  }

  lemma GiveUpKeeps(net: Nat, c: Client)
    requires ClientTrue(net, c) && !c.Done() && c.preChecked && ReadyToRun(c.tests[c.index], c.results)
    requires TimesOut(c.config)
    ensures ClientTrue(net, GiveUp(c)) && SameIds(c, GiveUp(c)) && Unlearnt(c.results, GiveUp(c).results)
  {
    GiveUpCore(net, c);
    GiveUpFiltering(net, c);
  }

  lemma TransmitIds(c: Client, now: u32, newId: TransactionId)
    requires c.Ok() && KindsOf(c) && IdsTrue(c) && !c.Done() && Unused(c, newId)
    ensures var c1 := Transmit(c, now, newId).0; KindsOf(c1) && IdsTrue(c1) && KeepsIds(c, c1)
  {
    var c1 := Transmit(c, now, newId).0;
    assert forall i | 0 <= i < |c.tests| :: c1.tests[i].kind == c.tests[i].kind;
  }

  /** The request of the test at hand, recorded when only the destinations up to that test have been contacted. */
  function CurrentProbe(net: Nat, c: Client, o: Outcome): Probe
    requires !c.Done() && o.Send?
  {
    Probe(c.index, o.transid, o.dest, o.change, ContactedFor(net, c.config.addrServer, c.tests[c.index].kind))
  }

  lemma TransmitKeeps(net: Nat, c: Client, now: u32, newId: TransactionId)
    requires ClientTrue(net, c) && !c.Done() && c.preChecked && ReadyToRun(c.tests[c.index], c.results)
    requires c.sendCount < c.config.uMaxAttempts
    requires Unused(c, newId)
    ensures var (c1, o) := Transmit(c, now, newId);
            ClientTrue(net, c1) && o.Send? && KeepsIds(c, c1) && ProbeTrue(net, c1, CurrentProbe(net, c1, o))
  {
    TransmitIds(c, now, newId);
  }

  /** What a turn of the loop, and then a whole call, keeps. */
  ghost predicate TurnTrue(net: Nat, c: Client, c1: Client, o: Option<Outcome>) {
    && ClientTrue(net, c1) && KeepsIds(c, c1) && Unlearnt(c.results, c1.results)
    && (o.Some? && o.value.Send? ==>
          && !c1.Done() && Asked(c1) && !c1.tests[c1.index].fCompleted
          && ProbeTrue(net, c1, CurrentProbe(net, c1, o.value)))
  }

  lemma CheckedTurnKeeps(net: Nat, c: Client, now: u32, newId: TransactionId)
    requires ClientTrue(net, c) && Unused(c, newId) && !c.Done() && c.preChecked
    ensures var (c1, o) := Turn(c, now, newId); TurnTrue(net, c, c1, o) && (o.None? ==> Unused(c1, newId))
  {
    var t := c.tests[c.index];
    if t.fCompleted || !ReadyToRun(t, c.results) {
      SkipKeeps(net, c);
    } else if Waited(c, now) < c.config.timeoutSeconds && c.sendCount != 0 {
    } else if c.sendCount >= c.config.uMaxAttempts {
      GiveUpKeeps(net, c);
    } else {
      TransmitKeeps(net, c, now, newId);
    }
  }

  lemma TurnKeeps(net: Nat, c: Client, now: u32, newId: TransactionId)
    requires ClientTrue(net, c) && Unused(c, newId)
    ensures var (c1, o) := Turn(c, now, newId); TurnTrue(net, c, c1, o) && (o.None? ==> Unused(c1, newId))
  {
    if !c.Done() {
      PreCheckKeeps(net, c);
      CheckedTurnKeeps(net, PreCheck(c), now, newId);
      assert Turn(c, now, newId) == Turn(PreCheck(c), now, newId);
    }
  }

  lemma {:induction false} NextKeeps(net: Nat, c: Client, now: u32, newId: TransactionId)
    requires ClientTrue(net, c) && Unused(c, newId)
    ensures var (c1, o) := Next(c, now, newId); TurnTrue(net, c, c1, Some(o))
    decreases Remaining(c)
  {
    TurnKeeps(net, c, now, newId);
    TurnAdvances(c, now, newId);
    var (c1, o) := Turn(c, now, newId);
    if o.None? {
      NextKeeps(net, c1, now, newId);
    }
  }

  /** A response the current test accepts is what the NAT and a correct server make of its request, and the NAT lets it
      in. */
  ghost predicate TrueResponse(net: Nat, server: Address, kind: TestKind, resp: Response) {
    && resp.mapped == Some(net.mapping(TrueTarget(net, server, kind)))
    && (kind == BasicBinding ==> resp.other == net.other)
    && Heard(net, server, kind)
  }

  /** The tests contact new destinations one after the other. */
  lemma TargetsInOrder(net: Nat, c: Client, i: nat, k: nat)
    requires KindsOf(c) && i <= k < |c.tests|
    ensures TrueTarget(net, c.config.addrServer, c.tests[i].kind)
            in ContactedFor(net, c.config.addrServer, c.tests[k].kind)
  {
  }

  lemma ContactsAreFew(net: Nat, w: World, c: Client)
    requires Inv(net, w) && KindsOf(c) && KeepsIds(w.client, c) && !c.Done()
    ensures Contacted(w) <= ContactedFor(net, c.config.addrServer, c.tests[c.index].kind)
  {
    forall a | a in Contacted(w) ensures a in ContactedFor(net, c.config.addrServer, c.tests[c.index].kind) {
      var s :| s in w.sent && s.dest == a;
      assert ProbeTrue(net, w.client, s);
      TargetsInOrder(net, c, s.test, c.index);
    }
  }

  /** A response the current test accepts answers a request of that very test, and nothing new was contacted since. */
  lemma AnswersCurrent(net: Nat, w: World, resp: Response)
    requires Inv(net, w) && !w.client.Done() && resp.transid == w.client.tests[w.client.index].transid
    requires IsTransactionIdValid(resp.transid) && (Answered(net, w, resp) || Stray(w, resp))
    ensures var c := w.client; var t, server := c.tests[c.index], c.config.addrServer;
            TrueResponse(net, server, t.kind, resp) && TrueTarget(net, server, t.kind) in Contacted(w)
  {
    var c := w.client;
    var s := AnsweredProbe(net, w, resp);
    TestPlaces(c);
    ContactsAreFew(net, w, c);
    var contacted :| s.contacted <= contacted <= Contacted(w)
                     && net.passes(contacted, Source(c.config.addrServer, net.other, s.dest, s.change));
    assert contacted == s.contacted;
  }

  lemma AnsweredProbe(net: Nat, w: World, resp: Response) returns (s: Probe)
    requires Inv(net, w) && !w.client.Done() && resp.transid == w.client.tests[w.client.index].transid
    requires IsTransactionIdValid(resp.transid) && (Answered(net, w, resp) || Stray(w, resp))
    ensures s in w.sent && IsAnswer(net, s, resp) && LetThrough(net, w, s)
    ensures ProbeTrue(net, w.client, s) && s.test == w.client.index
  {
    var c := w.client;
    assert c.tests[c.index].transid == resp.transid;
    s :| s in w.sent && IsAnswer(net, s, resp) && LetThrough(net, w, s);
    assert ProbeTrue(net, c, s);
  }

  lemma AcceptedTrue(net: Nat, t: Test, r: Results, config: Config, resp: Response)
    requires ResultsTrue(net, config.addrServer, r) && ReadyToRun(t, r) && Accepts(t, resp)
    requires TrueResponse(net, config.addrServer, t.kind, resp)
    requires if t.kind == BasicBinding then !r.fBindingTestSuccess else !IsDirect(net, config.addrServer)
    ensures ResultsTrue(net, config.addrServer, AfterResponse(t, r, config, resp, net.local).1)
  {
    match t.kind
    case BasicBinding =>
      SamePortBytes(net.local, resp.mapped.value);
    case BehaviorTest(fIsTest3) =>
      SamePortBytes(resp.mapped.value, r.addrMappingAP);
      SamePortBytes(resp.mapped.value, r.addrMapped);
    case FilteringTest(_) =>
  }

  lemma AcceptedShape(c: Client, resp: Response, local: Address)
    requires c.Ok() && KindsOf(c) && IdsTrue(c) && !c.Done()
    ensures var c1 := Deliver(c, Some(resp), local); c1.Ok() && KindsOf(c1) && IdsTrue(c1) && KeepsIds(c, c1)
  {
    var c1 := Deliver(c, Some(resp), local);
    assert forall i | 0 <= i < |c.tests| ::
        c1.tests[i].kind == c.tests[i].kind && c1.tests[i].transid == c.tests[i].transid;
  }

  lemma AcceptedCore(net: Nat, c: Client, resp: Response)
    requires CoreTrue(net, c) && !c.Done() && !c.tests[c.index].fCompleted
    requires Accepts(c.tests[c.index], resp) && IsTransactionIdValid(c.tests[c.index].transid)
    requires TrueResponse(net, c.config.addrServer, c.tests[c.index].kind, resp)
    ensures CoreTrue(net, Deliver(c, Some(resp), net.local)) && KeepsIds(c, Deliver(c, Some(resp), net.local))
  {
    AcceptedShape(c, resp, net.local);
    AcceptedTrue(net, c.tests[c.index], c.results, c.config, resp);
  }

  /** Nothing about the filtering tests has changed. */
  ghost predicate FilteringSame(c: Client, c1: Client) {
    && c1.config == c.config && c1.index == c.index && |c1.tests| == |c.tests|
    && SameFiltering(c.results, c1.results)
    && (c.config.fFilteringTest ==> |c.tests| >= 3 && c1.tests[1] == c.tests[1] && c1.tests[2] == c.tests[2])
    && (c.results.fBindingTestSuccess ==> c1.results.fBindingTestSuccess)
    && (c.index == 0 || c1.results.fBindingTestSuccess == c.results.fBindingTestSuccess)
  }

  lemma FilteringStays(net: Nat, c: Client, c1: Client)
    requires FilteringSame(c, c1) && FilteringTrue(net, c)
    ensures FilteringTrue(net, c1)
  {
  }

  /** An answer to another test says nothing about filtering. */
  lemma TestPlaces(c: Client)
    requires KindsOf(c) && !c.Done()
    ensures c.tests[c.index].kind == BasicBinding ==> c.index == 0
    ensures c.config.fFilteringTest ==>
              |c.tests| >= 3 && (c.tests[c.index].kind.FilteringTest? <==> c.index == 1 || c.index == 2)
  {
  }

  lemma AcceptedElsewhere(c: Client, resp: Response, local: Address)
    requires !c.Done() && Accepts(c.tests[c.index], resp) && !c.tests[c.index].fCompleted
    requires !c.tests[c.index].kind.FilteringTest? && (c.tests[c.index].kind == BasicBinding ==> c.index == 0)
    requires c.config.fFilteringTest ==> |c.tests| >= 3 && c.index != 1 && c.index != 2
    ensures FilteringSame(c, Deliver(c, Some(resp), local))
  {
    var c1, t := Deliver(c, Some(resp), local), c.tests[c.index];
    ElsewhereResults(t, c.results, c.config, resp, local);
    assert c1.results == AfterResponse(t, c.results, c.config, resp, local).1;
    assert c1.tests == c.tests[c.index := t.(fCompleted := true)];
  }

  ghost predicate SameFiltering(r: Results, r1: Results) {
    && r1.fFilteringTestSuccess == r.fFilteringTestSuccess && r1.filtering == r.filtering
    && r1.fGotTest2Response == r.fGotTest2Response && r1.fGotTest3Response == r.fGotTest3Response
  }

  lemma BindingSaysNothing(r: Results, config: Config, mapped: Address, other: Option<Address>, local: Address)
    ensures SameFiltering(r, AfterBinding(r, config, mapped, other, local))
    ensures AfterBinding(r, config, mapped, other, local).fBindingTestSuccess
  {
  }

  lemma BehaviorSaysNothing(r: Results, fIsTest3: bool, mapped: Address, same: bool)
    ensures SameFiltering(r, BehaviorResults(r, fIsTest3, mapped, same))
    ensures BehaviorResults(r, fIsTest3, mapped, same).fBindingTestSuccess == r.fBindingTestSuccess
  {
  }

  lemma ElsewhereResults(t: Test, r: Results, config: Config, resp: Response, local: Address)
    requires Accepts(t, resp) && !t.kind.FilteringTest?
    ensures var r1 := AfterResponse(t, r, config, resp, local).1;
            && SameFiltering(r, r1)
            && (r.fBindingTestSuccess ==> r1.fBindingTestSuccess)
            && (t.kind != BasicBinding ==> r1.fBindingTestSuccess == r.fBindingTestSuccess)
  {
    match t.kind
    case BasicBinding => BindingSaysNothing(r, config, resp.mapped.value, resp.other, local);
    case BehaviorTest(fIsTest3) =>
      var before := if fIsTest3 then r.addrMappingAP else r.addrMapped;
      BehaviorSaysNothing(r, fIsTest3, resp.mapped.value, IsSameIPAndPort(resp.mapped.value, before));
  }

  lemma AcceptedFiltering(net: Nat, c: Client, resp: Response)
    requires CoreTrue(net, c) && !c.Done() && !c.tests[c.index].fCompleted
    requires Accepts(c.tests[c.index], resp) && IsTransactionIdValid(c.tests[c.index].transid)
    requires TrueResponse(net, c.config.addrServer, c.tests[c.index].kind, resp)
    requires FilteringTrue(net, c) && c.tests[c.index].kind.FilteringTest?
    ensures var c1 := Deliver(c, Some(resp), net.local);
            c1.config == c.config && |c1.tests| == |c.tests| && FilteringTrue(net, c1)
  {
    var c1, t := Deliver(c, Some(resp), net.local), c.tests[c.index];
    assert c1.tests == c.tests[c.index := t.(fCompleted := true)];
    assert c.config.fFilteringTest && c.index == if t.kind.fIsTest3 then 2 else 1;
    assert ReadyToRun(t, c.results);
  }

  lemma AcceptedKeeps(net: Nat, c: Client, resp: Response)
    requires ClientTrue(net, c) && !c.Done() && !c.tests[c.index].fCompleted
    requires Accepts(c.tests[c.index], resp) && IsTransactionIdValid(c.tests[c.index].transid)
    requires TrueResponse(net, c.config.addrServer, c.tests[c.index].kind, resp)
    ensures ClientTrue(net, Deliver(c, Some(resp), net.local)) && KeepsIds(c, Deliver(c, Some(resp), net.local))
  {
    AcceptedCore(net, c, resp);
    if c.tests[c.index].kind.FilteringTest? {
      AcceptedFiltering(net, c, resp);
    } else {
      TestPlaces(c);
      AcceptedElsewhere(c, resp, net.local);
      FilteringStays(net, c, Deliver(c, Some(resp), net.local));
    }
  }

  lemma KeptProbes(net: Nat, c: Client, c1: Client, sent: set<Probe>)
    requires KeepsIds(c, c1) && forall s | s in sent :: ProbeTrue(net, c, s)
    ensures forall s | s in sent :: ProbeTrue(net, c1, s)
  {
    forall s | s in sent ensures ProbeTrue(net, c1, s) {
      assert ProbeTrue(net, c, s);
    }
  }

  /** When a request goes out, the destinations contacted are those its test stands for. */
  lemma ContactsGrow(net: Nat, w: World, c1: Client)
    requires Inv(net, w) && ClientTrue(net, c1) && KeepsIds(w.client, c1) && Unlearnt(w.client.results, c1.results)
    requires !c1.Done() && IsTransactionIdValid(c1.tests[c1.index].transid) && !c1.tests[c1.index].fCompleted
    ensures var server, kind := c1.config.addrServer, c1.tests[c1.index].kind;
            Contacted(w) + {TrueTarget(net, server, kind)} == ContactedFor(net, server, kind)
  {
    ContactsAreFew(net, w, c1);
    assert ReadyToRun(c1.tests[c1.index], c1.results);
  }

  lemma PollKeeps(net: Nat, w: World, time: nat, newId: TransactionId)
    requires Inv(net, w) && Unused(w.client, newId)
    ensures Inv(net, AfterEvent(w, Poll(time, newId))) && Asked(AfterEvent(w, Poll(time, newId)).client)
  {
    var (c1, o) := Next(w.client, Tick(time), newId);
    NextKeeps(net, w.client, Tick(time), newId);
    NextAsks(w.client, Tick(time), newId);
    KeptProbes(net, w.client, c1, w.sent);
    SentMore(net, w, c1, o);
    Recorded(net, w, c1, AfterEvent(w, Poll(time, newId)).sent);
  }

  lemma Recorded(net: Nat, w: World, c1: Client, sent: set<Probe>)
    requires Inv(net, w) && ClientTrue(net, c1) && w.client.config == c1.config
    requires Unlearnt(w.client.results, c1.results)
    requires w.sent <= sent && forall s | s in sent :: ProbeTrue(net, c1, s)
    ensures Inv(net, World(c1, sent))
  {
    assert forall s | s in w.sent :: s in sent;
    assert Contacted(w) <= Contacted(World(c1, sent));
  }

  lemma SentMore(net: Nat, w: World, c1: Client, o: Outcome)
    requires Inv(net, w) && TurnTrue(net, w.client, c1, Some(o))
    ensures o.Send? ==>
              Probe(c1.index, o.transid, o.dest, o.change, Contacted(w) + {o.dest}) == CurrentProbe(net, c1, o)
  {
    if o.Send? {
      ContactsGrow(net, w, c1);
    }
  }

  lemma DropKeeps(c: Client, resp: Option<Response>, local: Address)
    requires !Takes(c, resp)
    ensures Deliver(c, resp, local) == c
  {
    if !c.Done() {
      assert c.tests[c.index := c.tests[c.index]] == c.tests;
    }
  }

  /** The client has sent its first request, or has not been given a response with the all-zero id before that. */
  predicate Unmisled(c: Client, es: seq<Event>) {
    Asked(c) || (c.tests[c.index].kind == BasicBinding && SpeaksFirst(es))
  }

  lemma DatagramKeeps(net: Nat, w: World, resp: Option<Response>, local: Address)
    requires Inv(net, w) && Plausible(net, w, Datagram(resp, local)) && Asked(w.client)
    ensures var c1 := Deliver(w.client, resp, local); Inv(net, World(c1, w.sent)) && Asked(c1)
  {
    var c := w.client;
    if !Takes(c, resp) {
      DropKeeps(c, resp, local);
    } else {
      AnswersCurrent(net, w, resp.value);
      AcceptedKeeps(net, c, resp.value);
      KeptProbes(net, c, Deliver(c, resp, local), w.sent);
    }
  }

  lemma EventKeeps(net: Nat, w: World, e: Event)
    requires Inv(net, w) && Plausible(net, w, e) && Unmisled(w.client, [e])
    ensures Inv(net, AfterEvent(w, e))
    ensures if Asked(w.client) || e.Poll? then Asked(AfterEvent(w, e).client) else AfterEvent(w, e) == w
  {
    match e
    case Poll(time, newId) => PollKeeps(net, w, time, newId);
    case Datagram(resp, local) =>
      if Asked(w.client) {
        DatagramKeeps(net, w, resp, local);
      } else {
        DropKeeps(w.client, resp, local);
      }
  }

  lemma {:induction false} RunKeeps(net: Nat, w: World, es: seq<Event>)
    requires Inv(net, w) && PlausibleRun(net, w, es) && Unmisled(w.client, es)
    ensures Inv(net, AfterEvents(w, es))
    decreases |es|
  {
    if es != [] {
      EventKeeps(net, w, es[0]);
      RunKeeps(net, AfterEvent(w, es[0]), es[1..]);
    }
  }

  function Origin(config: Config): World {
    World(Start(config), {})
  }

  lemma StartHolds(net: Nat, config: Config)
    ensures Inv(net, Origin(config))
  {
  }

  lemma {:induction false} ConfigStays(w: World, es: seq<Event>)
    requires w.client.Ok()
    ensures AfterEvents(w, es).client.config == w.client.config
    decreases |es|
  {
    if es != [] {
      if es[0].Poll? {
        NextCounts(w.client, Tick(es[0].time), es[0].newId);
      }
      ConfigStays(AfterEvent(w, es[0]), es[1..]);
    }
  }

  // ---- the verdicts ----

  /** Section 4.3 of RFC 5780: a behavior test that succeeds reports the truth about the NAT's mapping, whatever stray
      datagrams come in, unless one of them precedes the client's first poll and carries the all-zero id. */
  lemma MappingVerdict(net: Nat, config: Config, es: seq<Event>)
    requires PlausibleRun(net, Origin(config), es) && SpeaksFirst(es)
    ensures var r := AfterEvents(Origin(config), es).client.results;
            r.fBehaviorTestSuccess ==>
              && config.fBehaviorTest && Settleable(net, config.addrServer) && GetsToBehavior(net, config)
              && var server, m := config.addrServer, net.mapping;
                 && (r.behavior == DirectMapping <==> m(server) == net.local)
                 && (r.behavior != DirectMapping ==>
                       net.other.Some?
                       && var ap, aa := AP(server, net.other.value), net.other.value;
                          && (r.behavior == EndpointIndependentMapping <==> m(ap) == m(server))
                          && (r.behavior == AddressDependentMapping <==> m(ap) != m(server) && m(aa) == m(ap))
                          && (r.behavior == AddressAndPortDependentMapping <==> m(ap) != m(server) && m(aa) != m(ap)))
  {
    StartHolds(net, config);
    RunKeeps(net, Origin(config), es);
    ConfigStays(Origin(config), es);
    var c := AfterEvents(Origin(config), es).client;
    assert ClientTrue(net, c);
  }

  /** The addresses a client reports with its verdicts are the NAT's and the server's. */
  lemma ReportedAddresses(net: Nat, config: Config, es: seq<Event>)
    requires PlausibleRun(net, Origin(config), es) && SpeaksFirst(es)
    ensures var r, server := AfterEvents(Origin(config), es).client.results, config.addrServer;
            && (r.fBindingTestSuccess ==>
                  && r.addrLocal == net.local && r.addrMapped == net.mapping(server)
                  && (r.fHasOtherAddress <==> net.other.Some?)
                  && (net.other.Some? ==>
                        r.addrAA == net.other.value && r.addrAP == AP(server, net.other.value)
                        && r.addrPA == PA(server, net.other.value)))
            && (r.fBehaviorTestSuccess && r.behavior != DirectMapping ==>
                  net.other.Some? && r.addrMappingAP == net.mapping(AP(server, net.other.value)))
            && (r.fBehaviorTestSuccess && r.behavior in {AddressDependentMapping, AddressAndPortDependentMapping} ==>
                  net.other.Some? && r.addrMappingAA == net.mapping(net.other.value))
  {
    StartHolds(net, config);
    RunKeeps(net, Origin(config), es);
    ConfigStays(Origin(config), es);
    assert ClientTrue(net, AfterEvents(Origin(config), es).client);
  }

  /** A filtering test that is over although it was not answered. */
  predicate GaveUp(c: Client, k: nat)
    requires k < |c.tests|
  {
    c.tests[k].fCompleted && !c.results.fIsDirect
    && match c.tests[k].kind
       case FilteringTest(fIsTest3) => if fIsTest3 then !c.results.fGotTest3Response else !c.results.fGotTest2Response
       case _ => false
  }

  lemma PreCheckGivesUpNothing(net: Nat, c: Client, k: nat)
    requires ClientTrue(net, c) && !c.Done() && k < |c.tests| && !GaveUp(c, k)
    ensures !GaveUp(PreCheck(c), k)
  {
  }

  /** That comes from running out of attempts, and in no other turn of the loop; and no datagram does it. */
  lemma GivingUpIsTimingOut(net: Nat, c: Client, now: u32, newId: TransactionId, k: nat)
    requires ClientTrue(net, c) && k < |c.tests| && !GaveUp(c, k) && GaveUp(Turn(c, now, newId).0, k)
    ensures !c.Done() && k == c.index && c.sendCount >= c.config.uMaxAttempts
    ensures Turn(c, now, newId).0 == GiveUp(PreCheck(c))
  {
    PreCheckGivesUpNothing(net, c, k);
  }

  lemma DatagramsDoNotGiveUp(c: Client, resp: Option<Response>, local: Address, k: nat)
    requires KindsOf(c) && IdsTrue(c) && k < |c.tests| && !GaveUp(c, k)
    ensures !GaveUp(Deliver(c, resp, local), k)
  {
    if !Takes(c, resp) {
      DropKeeps(c, resp, local);
    } else {
      TestPlaces(c);
      AnsweredNotGivenUp(c, resp.value, local, k);
    }
  }

  lemma AnsweredNotGivenUp(c: Client, resp: Response, local: Address, k: nat)
    requires !c.Done() && k < |c.tests| && !GaveUp(c, k) && Accepts(c.tests[c.index], resp)
    requires !c.tests[c.index].fCompleted
    requires c.tests[c.index].kind == BasicBinding ==> k == c.index || !c.tests[k].fCompleted
    ensures !GaveUp(Deliver(c, Some(resp), local), k)
  {
    var d := Deliver(c, Some(resp), local);
    if k == c.index {
      assert d.tests[k].kind == c.tests[k].kind;
    } else {
      assert d.tests[k] == c.tests[k];
      GotIsKept(c.tests[c.index], c.results, c.config, resp, local);
    }
  }

  /** Which filtering tests were answered is not forgotten, nor is a direct connection, except by the binding test. */
  lemma GotIsKept(t: Test, r: Results, config: Config, resp: Response, local: Address)
    ensures var r1 := AfterResponse(t, r, config, resp, local).1;
            && (r.fGotTest2Response ==> r1.fGotTest2Response) && (r.fGotTest3Response ==> r1.fGotTest3Response)
            && (t.kind != BasicBinding && r.fIsDirect ==> r1.fIsDirect)
  {
    if Accepts(t, resp) && t.kind.BehaviorTest? {
      BehaviorForgetsNothing(r, t.kind.fIsTest3, resp.mapped.value);
    }
  }

  lemma BehaviorForgetsNothing(r: Results, fIsTest3: bool, mapped: Address)
    ensures SameGot(r, AfterBehavior(r, fIsTest3, mapped))
  {
    BehaviorKeepsGot(r, fIsTest3, mapped, IsSameIPAndPort(mapped, if fIsTest3 then r.addrMappingAP else r.addrMapped));
  }

  predicate SameGot(r: Results, r1: Results) {
    r1.fGotTest2Response == r.fGotTest2Response && r1.fGotTest3Response == r.fGotTest3Response
    && r1.fIsDirect == r.fIsDirect
  }

  lemma BehaviorKeepsGot(r: Results, fIsTest3: bool, mapped: Address, same: bool)
    ensures SameGot(r, BehaviorResults(r, fIsTest3, mapped, same))
  {
  }

  /** No filtering test was given up although the NAT would have let its answer in. */
  predicate NothingMissed(net: Nat, c: Client) {
    forall k | 0 <= k < |c.tests| && GaveUp(c, k) :: !Heard(net, c.config.addrServer, c.tests[k].kind)
  }

  /** Section 4.4 of RFC 5780: a filtering verdict is the NAT's filtering if and only if no filtering test was given up
      whose answer the NAT would have let in. Each verdict but the strictest rests on a packet that the filter let
      through while the client had only sent to the server. */
  lemma FilteringVerdict(net: Nat, config: Config, es: seq<Event>)
    requires PlausibleRun(net, Origin(config), es) && SpeaksFirst(es)
    ensures var c, server := AfterEvents(Origin(config), es).client, config.addrServer;
            var r := c.results;
            r.fFilteringTestSuccess ==>
              && config.fFilteringTest && r.fBindingTestSuccess
              && (r.filtering == TrueFiltering(net, server) <==> NothingMissed(net, c))
              && (net.mapping(server) == net.local ==> r.filtering == EndpointIndependentFiltering)
              && (net.mapping(server) != net.local ==>
                    && net.other.Some?
                    && (r.filtering == EndpointIndependentFiltering ==> net.passes({server}, net.other.value))
                    && (r.filtering == AddressDependentFiltering ==> net.passes({server}, PA(server, net.other.value)))
                    && r.filtering in {EndpointIndependentFiltering, AddressDependentFiltering,
                                       AddressAndPortDependentFiltering})
  {
    StartHolds(net, config);
    RunKeeps(net, Origin(config), es);
    ConfigStays(Origin(config), es);
    if AfterEvents(Origin(config), es).client.results.fFilteringTestSuccess {
      FilteringExact(net, AfterEvents(Origin(config), es).client);
    }
  }

  lemma FilteringExact(net: Nat, c: Client)
    requires ClientTrue(net, c) && c.results.fFilteringTestSuccess
    ensures var r, server := c.results, c.config.addrServer;
            && (r.filtering == TrueFiltering(net, server) <==> NothingMissed(net, c))
            && (!IsDirect(net, server) ==> net.other.Some?)
  {
    assert c.tests[1].kind == FilteringTest(false) && c.tests[2].kind == FilteringTest(true);
    assert forall k | 0 <= k < |c.tests| && k != 1 && k != 2 :: !c.tests[k].kind.FilteringTest?;
    if c.tests[2].fCompleted && !IsDirect(net, c.config.addrServer) {
      assert GaveUp(c, 1);
      assert !c.results.fGotTest3Response ==> GaveUp(c, 2);
    }
  }
}
