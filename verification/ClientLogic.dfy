/** The discovery client as the objects of stuncore/stunclientlogic.cpp and stuncore/stunclienttests.cpp, proved to take
    the transitions of NatDiscovery. */
module ClientLogic {
  import opened Options
  import opened StunTypes
  import opened StunWire
  import opened StunIntegrity
  import opened SocketAddresses
  import opened DataStreams
  import opened StunBuilders
  import opened StunReaders
  import opened NatDiscovery
  import opened ClientWire

  /** The results all tests write to. */
  class StunClientResults {
    var r: Results

    constructor ()
      ensures r == NO_RESULTS
    {
      r := NO_RESULTS;
    }
  }

  /** CBasicBindingTest, CBehaviorTest and CFilteringTest, told apart by `kind`. */
  class CStunClientTest {
    const kind: TestKind
    const config: Config
    const results: StunClientResults
    var fCompleted: bool
    var transid: TransactionId

    constructor (kind: TestKind, config: Config, results: StunClientResults)
      ensures Value() == FreshTest(kind) && this.config == config && this.results == results
    {
      this.kind := kind;
      this.config := config;
      this.results := results;
      fCompleted := false;
      transid := Zeros(16);
    }

    function Value(): Test
      reads this
    {
      Test(kind, fCompleted, transid)
    }

    method PreRunCheck()
      modifies `fCompleted, results
      ensures (Value(), results.r) == AfterPreRunCheck(old(Value()), old(results.r))
    {
      match kind
      case BehaviorTest(fIsTest3) =>
        if !fIsTest3 && results.r.fBindingTestSuccess && results.r.fIsDirect {
          fCompleted := true;
          results.r := results.r.(behavior := DirectMapping, fBehaviorTestSuccess := true);
        }
      case FilteringTest(fIsTest3) =>
        if !fIsTest3 && results.r.fBindingTestSuccess && results.r.fIsDirect {
          fCompleted := true;
          results.r := results.r.(filtering := EndpointIndependentFiltering, fFilteringTestSuccess := true);
        }
      case BasicBinding =>
    }

    method IsReadyToRun() returns (ready: bool)
      ensures ready == ReadyToRun(Value(), results.r)
    {
      match kind
      case BasicBinding => ready := !fCompleted;
      case BehaviorTest(fIsTest3) =>
        ready := !fCompleted && results.r.fBindingTestSuccess && results.r.fHasOtherAddress
          && !results.r.fBehaviorTestSuccess;
        if fIsTest3 {
          ready := ready && !IsIPAddressZero(results.r.addrMappingAP);
        }
      case FilteringTest(_) =>
        ready := !fCompleted && results.r.fBindingTestSuccess && results.r.fHasOtherAddress
          && !results.r.fFilteringTestSuccess
                 && !results.r.fGotTest2Response;
    }

    /** The request goes into the caller's buffer; the transaction id is drawn on the first call only. */
    method GetMessage(buffer: Buffer, newId: TransactionId, crypto: Crypto) returns (dest: Address)
      requires buffer.size <= buffer.data.Length && MAX_STUN_MESSAGE_SIZE <= buffer.data.Length
      modifies `transid, buffer, buffer.data
      ensures transid == if IsTransactionIdValid(old(transid)) then old(transid) else newId
      ensures dest == Target(old(Value()), results.r, config)
      ensures buffer.size <= buffer.data.Length && buffer.data[..buffer.size] == RequestBytes(transid, Change(kind))
    {
      if !IsTransactionIdValid(transid) {
        transid := newId;
      }
      WriteRequest(buffer, crypto);
      match kind
      case BasicBinding => dest := config.addrServer;
      case FilteringTest(_) => dest := config.addrServer;
      case BehaviorTest(fIsTest3) => dest := if fIsTest3 then results.r.addrAA else results.r.addrAP;
    }

    method StartBindingRequest(buffer: Buffer, crypto: Crypto) returns (builder: CStunMessageBuilder)
      requires buffer.size <= buffer.data.Length && MAX_STUN_MESSAGE_SIZE <= buffer.data.Length
      modifies buffer, buffer.data
      ensures fresh(builder) && fresh(builder.stream) && builder.Valid() && !builder.fLegacyMode
      ensures builder.stream.buffer == buffer
      ensures builder.Contents() == Draft(StunMsgTypeBinding, StunMessageClass.Request, 0, transid, [])
    {
      builder := new CStunMessageBuilder(buffer, crypto, false);
      builder.AddHeader(StunMsgTypeBinding, StunMessageClass.Request);
      builder.AddTransactionId(transid);
      RequestStart(transid);
    }

    method WriteRequest(buffer: Buffer, crypto: Crypto)
      requires buffer.size <= buffer.data.Length && MAX_STUN_MESSAGE_SIZE <= buffer.data.Length
      modifies buffer, buffer.data
      ensures buffer.size <= buffer.data.Length && buffer.data[..buffer.size] == RequestBytes(transid, Change(kind))
    {
      var builder := StartBindingRequest(buffer, crypto);
      var change := Change(kind);
      builder.AddChangeRequest(change.fChangeIP, change.fChangePort);
      RequestDraft(transid, change);
      FixedIsMessage(StunMsgTypeBinding, StunMessageClass.Request, 0, transid, Body([ChangeWire(change)]));
      var ok := builder.FixLengthField();
    }

    /** Reads a datagram with a reader of its own; only a binding test looks for the other address. */
    method ReadResponse(data: seq<byte>, crypto: Crypto, hash: u16 -> nat) returns (resp: Option<Response>)
      ensures resp == Parse(data)
    {
      var reader := new CStunMessageReader(crypto, hash);
      var state := reader.AddBytes(data);
      assert [] + data == data;
      if state == BodyValidated {
        var r := ReadFields(reader);
        resp := Some(r);
      } else {
        resp := None;
      }
    }

    method ReadFields(reader: CStunMessageReader) returns (resp: Response)
      requires reader.Valid() && reader.fAllowLegacyFormat && reader.state == BodyValidated
      ensures Parse(reader.fed) == Some(resp)
    {
      var other := reader.GetOtherAddress();
      var plain := reader.GetAddressHelper(STUN_ATTRIBUTE_MAPPEDADDRESS);
      var mapped := reader.GetXorMappedAddress();
      if mapped.None? {
        mapped := plain;
      }
      resp := Response(reader.transactionid, mapped, other);
    }

    method ProcessResponse(data: seq<byte>, addrLocal: Address, crypto: Crypto, hash: u16 -> nat) returns (ok: bool)
      modifies `fCompleted, results
      ensures ok <==> Parse(data).Some? && Accepts(old(Value()), Parse(data).value)
      ensures var resp := Parse(data);
              (Value(), results.r) == if resp.None? then (old(Value()), old(results.r))
                                      else AfterResponse(old(Value()), old(results.r), config, resp.value, addrLocal)
    {
      var resp := ReadResponse(data, crypto, hash);
      ok := resp.Some? && resp.value.transid == transid && (kind.FilteringTest? || resp.value.mapped.Some?);
      if ok {
        fCompleted := true;
        Conclude(resp.value, addrLocal);
      }
    }

    method Conclude(resp: Response, addrLocal: Address)
      requires kind.FilteringTest? || resp.mapped.Some?
      modifies results
      ensures results.r == match kind
                           case BasicBinding => AfterBinding(old(results.r), config, resp.mapped.value, resp.other,
                                                             addrLocal)
                           case BehaviorTest(fIsTest3) => AfterBehavior(old(results.r), fIsTest3, resp.mapped.value)
                           case FilteringTest(fIsTest3) => AfterFiltering(old(results.r), fIsTest3)
    {
      match kind
      case BasicBinding =>
        var mapped := resp.mapped.value;
        results.r := results.r.(fBindingTestSuccess := true, fIsDirect := IsSameIPAndPort(addrLocal, mapped),
                                addrLocal := addrLocal, addrMapped := mapped, fHasOtherAddress := resp.other.Some?);
        if resp.other.Some? {
          var other := resp.other.value;
          results.r := results.r.(addrAA := other, addrPA := WithPort(config.addrServer, GetPort(other)),
                                  addrAP := WithPort(other, GetPort(config.addrServer)));
        }
      case BehaviorTest(fIsTest3) =>
        var mapped := resp.mapped.value;
        if fIsTest3 {
          results.r := results.r.(addrMappingAA := mapped, fBehaviorTestSuccess := true);
          results.r := results.r.(behavior := if IsSameIPAndPort(mapped, results.r.addrMappingAP)
                                              then AddressDependentMapping else AddressAndPortDependentMapping);
        } else {
          results.r := results.r.(addrMappingAP := mapped);
          if IsSameIPAndPort(mapped, results.r.addrMapped) {
            results.r := results.r.(fBehaviorTestSuccess := true, behavior := EndpointIndependentMapping);
          }
        }
      case FilteringTest(fIsTest3) =>
        if fIsTest3 {
          results.r := results.r.(fGotTest3Response := true, filtering := AddressDependentFiltering);
        } else {
          results.r := results.r.(fGotTest2Response := true, filtering := EndpointIndependentFiltering);
        }
        results.r := results.r.(fFilteringTestSuccess := true);
    }

    method NotifyTimeout()
      modifies `fCompleted, results
      ensures (Value(), results.r) == AfterTimeout(old(Value()), old(results.r))
    {
      fCompleted := true;
      match kind
      case BasicBinding => results.r := results.r.(fBindingTestSuccess := false);
      case BehaviorTest(_) => results.r := results.r.(fBehaviorTestSuccess := false);
      case FilteringTest(fIsTest3) =>
        if fIsTest3 {
          results.r := results.r.(fFilteringTestSuccess := true, filtering := AddressAndPortDependentFiltering);
        }
    }
  }

  lemma RequestStart(transid: TransactionId)
    ensures [] + BE16(MsgTypeField(StunMsgTypeBinding, StunMessageClass.Request) as int) + BE16(0) + transid
            == Draft(StunMsgTypeBinding, StunMessageClass.Request, 0, transid, [])
  {
  }

  lemma RequestDraft(transid: TransactionId, change: ChangeRequest)
    ensures Draft(StunMsgTypeBinding, StunMessageClass.Request, 0, transid, []) + WireBytes(ChangeWire(change))
            == Draft(StunMsgTypeBinding, StunMessageClass.Request, 0, transid, Body([ChangeWire(change)]))
    ensures |Body([ChangeWire(change)])| == 8
  {
    RequestFits(change);
    BodyOne(ChangeWire(change));
  }

  /** CStunClientLogic: the tests in order, and how far they have come. */
  class CStunClientLogic {
    const results: StunClientResults
    const crypto: Crypto
    const hash: u16 -> nat
    var config: Config
    var fInitialized: bool
    var timeLastMessageSent: u32
    var sendCount: nat
    var fPreCheckRunOnTest: bool
    var testlist: seq<CStunClientTest>
    var nTestIndex: nat

    ghost function TestValues(): (ts: seq<Test>)
      reads this, testlist
      ensures |ts| == |testlist| && forall i | 0 <= i < |ts| :: ts[i] == testlist[i].Value()
    {
      seq(|testlist|, i requires 0 <= i < |testlist| reads this, testlist => testlist[i].Value())
    }

    ghost function State(): Client
      reads this, results, testlist
    {
      Client(config, results.r, TestValues(), nTestIndex, sendCount, fPreCheckRunOnTest, timeLastMessageSent)
    }

    ghost predicate Valid()
      reads this, results, testlist
    {
      && TestsDistinct()
      && (if fInitialized then State().Ok() else results.r == NO_RESULTS && sendCount == 0 && testlist == [])
    }

    ghost function Repr(): set<object>
      reads this
    {
      {this, results} + set t | t in testlist
    }

    constructor (crypto: Crypto, hash: u16 -> nat)
      ensures Valid() && !fInitialized && results.r == NO_RESULTS && fresh(Repr())
      ensures this.crypto == crypto && this.hash == hash
    {
      results := new StunClientResults();
      this.crypto := crypto;
      this.hash := hash;
      config := Config(ZERO_ADDRESS, false, 0, 0, false, false);
      fInitialized := false;
      timeLastMessageSent := 0;
      sendCount := 0;
      fPreCheckRunOnTest := false;
      testlist := [];
      nTestIndex := 0;
    }

    /** Once, and only with a server to talk to. */
    method Initialize(config: Config) returns (ok: bool)
      requires Valid()
      modifies this
      ensures Valid() && fresh(Repr() - old(Repr()))
      ensures ok <==> !old(fInitialized) && Usable(config)
      ensures if ok then fInitialized && State() == Start(config)
              else fInitialized == old(fInitialized) && State() == old(State())
    {
      ok := !fInitialized && !IsIPAddressZero(config.addrServer) && GetPort(config.addrServer) != 0;
      if ok {
        var effective := ApplyDefaults(config);
        CreateTests(effective);
        nTestIndex := 0;
        fPreCheckRunOnTest := false;
        timeLastMessageSent := 0;
        fInitialized := true;
      }
    }

    method ApplyDefaults(config: Config) returns (effective: Config)
      ensures effective == Effective(config)
    {
      effective := config;
      if effective.fTimeoutIsInstant {
        effective := effective.(timeoutSeconds := 0);
      } else if effective.timeoutSeconds == 0 {
        effective := effective.(timeoutSeconds := 3);
      }
      if effective.uMaxAttempts <= 0 {
        effective := effective.(uMaxAttempts := 2);
      }
    }

    ghost predicate TestsDistinct()
      reads this, testlist
    {
      && (forall i, j | 0 <= i < j < |testlist| :: testlist[i] != testlist[j])
      && (forall t | t in testlist :: t.results == results && t.config == config)
    }

    method PushTest(kind: TestKind)
      requires TestsDistinct()
      modifies `testlist
      ensures TestsDistinct() && TestValues() == old(TestValues()) + [FreshTest(kind)]
      ensures fresh((set t | t in testlist) - (set t | t in old(testlist)))
    {
      var test := new CStunClientTest(kind, config, results);
      testlist := testlist + [test];
    }

    method CreateTests(effective: Config)
      requires Valid() && !fInitialized
      modifies `config, `testlist
      ensures config == effective && TestsDistinct() && TestValues() == TestsOf(effective)
      ensures fresh(set t | t in testlist)
    {
      config := effective;
      PushTest(BasicBinding);
      if config.fFilteringTest {
        PushTest(FilteringTest(false));
        PushTest(FilteringTest(true));
      }
      if config.fBehaviorTest {
        PushTest(BehaviorTest(false));
        PushTest(BehaviorTest(true));
      }
    }

    // ---- one turn of the loop ----

    ghost predicate Running()
      reads this, results, testlist
    {
      Valid() && fInitialized && nTestIndex < |testlist|
    }

    function Current(): CStunClientTest
      requires nTestIndex < |testlist|
      reads this
    {
      testlist[nTestIndex]
    }

    method PreCheckCurrent()
      requires Running()
      modifies `fPreCheckRunOnTest, Current()`fCompleted, results
      ensures Running() && State() == PreCheck(old(State()))
    {
      if !fPreCheckRunOnTest {
        testlist[nTestIndex].PreRunCheck();
        fPreCheckRunOnTest := true;
        assert TestValues() == old(TestValues())[nTestIndex := testlist[nTestIndex].Value()];
      }
    }

    method NotifyCurrent()
      requires Running()
      modifies Current()`fCompleted, results
      ensures Running() && State() == GiveUp(old(State()))
    {
      testlist[nTestIndex].NotifyTimeout();
      assert TestValues() == old(TestValues())[nTestIndex := testlist[nTestIndex].Value()];
    }

    method SendCurrent(buffer: Buffer, now: u32, newId: TransactionId) returns (o: Outcome)
      requires Running() && sendCount < config.uMaxAttempts
      requires buffer.size <= buffer.data.Length && MAX_STUN_MESSAGE_SIZE <= buffer.data.Length
      modifies `sendCount, `timeLastMessageSent, Current()`transid, buffer, buffer.data
      ensures Running() && (State(), o) == Transmit(old(State()), now, newId)
      ensures buffer.size <= buffer.data.Length && buffer.data[..buffer.size] == RequestBytes(o.transid, o.change)
    {
      var t := testlist[nTestIndex];
      var dest := t.GetMessage(buffer, newId, crypto);
      sendCount := sendCount + 1;
      timeLastMessageSent := now;
      o := Send(dest, t.transid, Change(t.kind));
      assert TestValues() == old(TestValues())[nTestIndex := t.Value()];
    }

    method SkipCurrent()
      requires Running()
      modifies `nTestIndex, `sendCount, `fPreCheckRunOnTest
      ensures Valid() && State() == Skip(old(State()))
    {
      nTestIndex := nTestIndex + 1;
      sendCount := 0;
      fPreCheckRunOnTest := false;
    }

    /** Waits, gives up or sends, for a test that can run. */
    method Proceed(buffer: Buffer, now: u32, newId: TransactionId) returns (o: Option<Outcome>)
      requires Running() && fPreCheckRunOnTest && !Current().fCompleted && ReadyToRun(Current().Value(), results.r)
      requires buffer.size <= buffer.data.Length && MAX_STUN_MESSAGE_SIZE <= buffer.data.Length
      modifies `sendCount, `timeLastMessageSent, results, Current(), buffer, buffer.data
      ensures Valid() && (State(), o) == Turn(old(State()), now, newId)
      ensures buffer.size <= buffer.data.Length
      ensures o.Some? && o.value.Send? ==> buffer.data[..buffer.size] == RequestBytes(o.value.transid, o.value.change)
    {
      var diff := (now + 0x1_0000_0000 - timeLastMessageSent) % 0x1_0000_0000 / 1000;
      if diff < config.timeoutSeconds && sendCount != 0 {
        o := Some(StillWaiting);
      } else if sendCount >= config.uMaxAttempts {
        NotifyCurrent();
        o := None;
      } else {
        var sent := SendCurrent(buffer, now, newId);
        o := Some(sent);
      }
    }

    lemma PreCheckThenTurn(c: Client, now: u32, newId: TransactionId)
      requires !c.Done()
      ensures Turn(c, now, newId) == Turn(PreCheck(c), now, newId)
    {
    }

    method OneTurn(buffer: Buffer, now: u32, newId: TransactionId) returns (o: Option<Outcome>)
      requires Valid() && fInitialized
      requires buffer.size <= buffer.data.Length && MAX_STUN_MESSAGE_SIZE <= buffer.data.Length
      modifies `nTestIndex, `sendCount, `timeLastMessageSent, `fPreCheckRunOnTest, results, testlist, buffer,
               buffer.data
      ensures Valid() && (State(), o) == Turn(old(State()), now, newId)
      ensures buffer.size <= buffer.data.Length
      ensures o.Some? && o.value.Send? ==> buffer.data[..buffer.size] == RequestBytes(o.value.transid, o.value.change)
    {
      if nTestIndex >= |testlist| {
        o := Some(ResultsReady);
      } else {
        PreCheckThenTurn(State(), now, newId);
        PreCheckCurrent();
        var pCurrentTest := testlist[nTestIndex];
        var ready := pCurrentTest.IsReadyToRun();
        if pCurrentTest.fCompleted || !ready {
          SkipCurrent();
          o := None;
        } else {
          o := Proceed(buffer, now, newId);
        }
      }
    }

    /** A buffer that is too small, or a client not yet initialized, is an error of the caller. */
    method GetNextMessage(buffer: Buffer, now: u32, newId: TransactionId) returns (r: Option<Outcome>)
      requires Valid() && buffer.size <= buffer.data.Length
      modifies this, results, testlist, buffer, buffer.data
      ensures Valid() && buffer.size <= buffer.data.Length
      ensures r.Some? <==> old(fInitialized) && MAX_STUN_MESSAGE_SIZE <= buffer.data.Length
      ensures r.None? ==> State() == old(State())
      ensures r.Some? ==> (State(), r.value) == Next(old(State()), now, newId)
      ensures r.Some? && r.value.Send? ==> buffer.data[..buffer.size] == RequestBytes(r.value.transid, r.value.change)
    {
      if !fInitialized || buffer.data.Length < MAX_STUN_MESSAGE_SIZE {
        return None;
      }
      r := None;
      while r.None?
        invariant Valid() && fInitialized && testlist == old(testlist) && buffer.size <= buffer.data.Length
        invariant r.None? ==> Next(State(), now, newId) == Next(old(State()), now, newId)
        invariant r.Some? ==> (State(), r.value) == Next(old(State()), now, newId)
        invariant r.Some? && r.value.Send? ==>
                    buffer.data[..buffer.size] == RequestBytes(r.value.transid, r.value.change)
        decreases r.None?, Remaining(State())
      {
        TurnAdvances(State(), now, newId);
        r := OneTurn(buffer, now, newId);
      }
    }

    /** The datagram goes to the test at hand, if it is still waiting for one; it is an error otherwise, and when the
        test does not take it. */
    method ProcessResponse(data: seq<byte>, addrLocal: Address) returns (ok: bool)
      requires Valid()
      modifies results, testlist
      ensures Valid()
      ensures State() == if fInitialized then Deliver(old(State()), Parse(data), addrLocal) else old(State())
      ensures ok <==> fInitialized && Takes(old(State()), Parse(data))
    {
      ok := false;
      if fInitialized && data != [] && nTestIndex < |testlist| {
        var pCurrentTest := testlist[nTestIndex];
        if !pCurrentTest.fCompleted {
          ok := pCurrentTest.ProcessResponse(data, addrLocal, crypto, hash);
          assert TestValues() == old(TestValues())[nTestIndex := pCurrentTest.Value()];
        }
      }
    }

    method GetResults() returns (r: Results)
      ensures r == State().results
    {
      r := results.r;
    }
  }
}
