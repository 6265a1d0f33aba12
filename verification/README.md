# Stuntman server and client: verification model

Stuntman is a STUN server and client (RFC 5389, RFC 5780, with the RFC 3489 "legacy" mode). This project models its
stateful core in Dafny and proves it correct, from the hash table at the bottom to whole runs of server and client at
the top. `dafny verify dfyconfig.toml` checks everything.

The modules stack as the program does:

- `Options`, `Collections`: optional values, and facts about sequences and sets.
- `EntryList`, `NodeChain`, `PrimeSearch`, `FastHashTable`: the chained hash table with its lazy circular index. Read
  from outside it is a list of entries, newest first: a stack of values for every key.
- `PollSet`, `Polling`: the descriptor array of `CPoll`, first as a state machine over its operations, then as the class.
- `RateLimit`: the per-address rate limiter, how many packets of an address it lets through and which it must.
- `DataStreams`, `StunTypes`, `SocketAddresses`: byte streams, constants and addresses.
- `StunWire`, `StunIntegrity`, `StunValidation`: the wire format as functions of byte sequences. `Verdict` says what state
  a reader must be in after any bytes; `Walk` is the attribute loop; `Rebuilt` and `Draft` are the two sides of the integrity
  hash; the last module says exactly which messages validate.
- `StunBuilders`, `StunReaders`: the two classes that print and parse. The reader's invariant says that its state is the
  `Verdict` on all bytes it was ever fed, which is chunk invariance.
- `StunReplies`, `StunReplyProofs`, `StunDecisions`, `MessageHandlers`: what a request is answered with, what a client reads
  out of the answer, when exactly a request is accepted or refused and how, and the handler class that writes that answer.
- `StunSamples`: the sample request of RFC 5769 and other published values, read and written by the functions above.
- `NatDiscovery`, `NatVerdict`, `NatReachability`, `ClientWire`, `ClientLogic`: the discovery client as a transition
  system, its verdicts about an abstract NAT under loss, delay, repetition and stray datagrams, which verdicts can be
  reached at all, its messages end to end with the server, and its classes. A NAT has one mapping for every destination,
  and a filter that depends on the destinations the client has already sent to.
- `TcpConnections`, `ConnectionLimits`, `ConnectionReplies`, `ConnectionAnswers`, `ConnectionPools`, `TcpServers`: the
  connection thread. The first module states the invariant and what each step does to it on values, the second how many
  connections there can be, the third what the clients at the other end receive from the real request handler, the fourth
  what must come of an event given what the system, the poller and the rate limiter answered; the others are the objects.
  Kernel calls answer arbitrarily within what the system promises: fresh descriptors, a clock that does not go back,
  sends and receives of at least one byte. The poller may hand out events for descriptors that were taken off it since
  they were fetched, may refuse to watch a descriptor, and refuses one it watches already. The answers are recorded, so
  that what the thread does can be told from them: a connection is closed only for an answer that calls for it.

HMAC-SHA1, MD5 and CRC-32 are arbitrary functions, and so are the hash of the table and the auth provider. Transaction
ids are parameters, and the rate limiter's answer to the connection thread is arbitrary but recorded.

What the proofs found in the code:

- `CPoll::WaitForNextEvent` asserts that no events are unread before it calls poll() (`stunserver/networkutils/polling.cpp:456`).
  Removing a descriptor whose event is still undelivered does not lower the count, so the assertion can fail
  (`PollSet.AssertionCanFail`); it holds exactly when no such removal happened since the last poll
  (`PollSet.AssertionHoldsIff`). No event is lost or repeated either way.
- The handler checks that the role it answers from has an address only when the request asks for a change. Otherwise it
  answers from the receiving role unchecked (`StunReplyProofs.RoleMayLackAddress`, `StunReplyProofs.RoleHasAddressIff`).
  This is a gap in ProcessRequest alone: both servers build the address set from the sockets they receive on, so none of
  them reaches it.
- The third behavior test is not run when the mapping seen from the alternate IP is a zero address. Which NATs get a mapping
  verdict is stated exactly: `NatVerdict.Settleable` says which answers the filter must let in, `NatVerdict.GetsToBehavior`
  that the filtering tests before must come to an end. `NatReachability.VerdictIsReached` proves that some run ends in a
  verdict if and only if both hold, with the filtering tests on or off; `NatVerdict.MappingVerdict` that it is the truth.
- A test that has not sent anything yet holds the all-zero transaction id, so a legacy response with that id that comes in
  before the client is first polled is taken for an answer, and makes any NAT look like a direct connection
  (`NatReachability.EarlyZeroMisleads`). It is taken at no other time (`NatVerdict.ZeroIdTakenIff`), so the verdicts hold
  under every stray datagram once the client has been polled; the loop at `stunserver/client/clientmain.cpp:527` polls first.
- Filtering verdicts trust silence. An endpoint-independent filter is reported as a stricter one when answers are lost
  (`NatReachability.LostAnswersMislead`). A verdict is the NAT's filtering if and only if no filtering test was given up
  whose answer the filter would have let in (`NatVerdict.FilteringVerdict`).
- Time is measured on a 32-bit millisecond clock, so a configured timeout of more than 4294967 seconds never expires: an
  unanswered test is sent again or given up at some time if and only if the timeout is no longer than that
  (`NatVerdict.WaitingEndsIff`). With a longer one the tests after it are never run, which is why the timeout is part of
  the exact conditions of `NatReachability.VerdictIsReached` and `NatReachability.FilteringIsReachedIff`.
- With the epoll poller the connection limit can be exceeded. Events are fetched in batches, so an event for a second
  listening socket is still handed out after the first one brought the count to the limit and the listening sockets were
  taken off the poller. Either the new table is full: the insertion fails after the connection was told its table, and
  the assertion of CloseConnection at `stunserver/server/tcpserver.cpp:726-733` fails
  (`ConnectionLimits.StaleEventFindsTableFull`). Or it is not, and the count exceeds the limit
  (`ConnectionLimits.StaleEventExceedsLimit`). The invariant of the connections survives both, the count stays below the
  limit plus the number of listening sockets, and only such an event takes it beyond the limit, unless listening sockets
  are left watched as told next (`TcpServers.CTCPStunThread.RunOnce`).
- If the poller refuses a listening socket when the thread starts to listen again, those before it stay watched although
  the thread records that none is. That happens if and only if some listening socket precedes the refused one
  (`ConnectionLimits.RefusalLeaves`), so never to a thread with one listening socket; and it is for good, because the
  poller then refuses the first socket as watched already on every later attempt, while nothing takes it off: those before
  are watched at any count, the others never again. Such a socket accepts beyond the limit on ordinary events, up to twice
  the limit (`ConnectionLimits.LeftWatchedOverruns` is a run with two sockets). `TcpServers.CTCPStunThread.RunOnce` says
  when this begins, that it does not end, and that all other turns keep the bounds above.
- The comment at `stunserver/server/tcpserver.cpp:422` speaks of connections that were not heard from; the sweep closes
  connections by age alone, active or not (`TcpConnections.SweepIgnoresActivity`). `GetTimeoutSeconds` is passed to a
  parameter in milliseconds, so the thread wakes every 60 milliseconds while connections are open, which is harmless.
- `CPoll::Add` ignores the result of the table insertion. With a full table the descriptor gets a slot that no later call
  can find (`Polling.CPoll.Add`).

## Model

| member | source | states |
|---|---|---|
| EntryList.InsertPushes | stunserver/common/fasthash.h:284-313 | Insertion pushes one value on the stack of its own key and leaves every other key's stack alone |
| EntryList.RemovePops | stunserver/common/fasthash.h:316-348 | Removal pops exactly the newest value of its key, uncovering the older one, and touches no other key |
| EntryList.LookupIsTop | stunserver/common/fasthash.h:351-361 | Lookup sees the top of the key's stack, and nothing exactly when the stack is empty |
| EntryList.ReplaceTop | stunserver/common/fasthash.h:351-361 | A write through the pointer Lookup returns replaces the top of one stack |
| EntryList.LookupFrame | stunserver/common/fasthash.h:284-361 | What is done under one key is invisible under every other key |
| FastHashTable.InsertKeepsInv | stunserver/common/fasthash.h:284-313 | Taking a node off the free list and putting it at the head of its chain keeps the partition of all nodes into one free list and acyclic chains, and the circular index, for any hash function |
| FastHashTable.RemoveKeepsInv | stunserver/common/fasthash.h:316-348 | So does unlinking a node, with the index shifted at the front, truncated at the back or given up |
| FastHashTable.ReIndexKeepsInv | stunserver/common/fasthash.h:128-150 | A rebuilt index lists every live node once |
| FastHashTable.FastHash.IndexIsComplete | stunserver/common/fasthash.h:128-204 | While valid, the index lists every live entry exactly once (equal multisets) |
| FastHashTable.FastHash.constructor | stunserver/common/fasthash.h:221-262 | A new table is empty with a valid empty index |
| FastHashTable.FastHash.Reset | stunserver/common/fasthash.h:239-262 | Reset empties the table from any earlier state |
| FastHashTable.FastHash.Find | stunserver/common/fasthash.h:99-125 | The walk down one chain finds the newest node under the key anywhere in the table, and its predecessor |
| FastHashTable.FastHash.Lookup | stunserver/common/fasthash.h:351-361 | Lookup is the lookup of the entry list |
| FastHashTable.FastHash.Exists | stunserver/common/fasthash.h:363-366 | True exactly when the key's stack is not empty |
| FastHashTable.FastHash.Insert | stunserver/common/fasthash.h:284-313 | Fails exactly when all fsize nodes are live, and otherwise puts the new entry before all others |
| FastHashTable.FastHash.Remove | stunserver/common/fasthash.h:316-348 | Removes exactly the newest entry of the key; the index loses its first or last item or becomes invalid |
| FastHashTable.FastHash.UpdateIndexWithAdd | stunserver/common/fasthash.h:152-164 | Writes the node behind the window of a valid index |
| FastHashTable.FastHash.UpdateIndexWithRemove | stunserver/common/fasthash.h:166-204 | Shifts, truncates, resets or invalidates the index according to where the node stood |
| FastHashTable.FastHash.ReIndex | stunserver/common/fasthash.h:128-150 | Rebuilds a valid index for any non-empty table, terminating on every chain |
| FastHashTable.FastHash.LookupByIndex | stunserver/common/fasthash.h:368-390 | Item number `index` of a complete index, for every index below the size, rebuilding it first when it is invalid |
| FastHashTable.FastHash.Enumerate | stunserver/testcode/testfasthash.cpp:135-180 | LookupByIndex for 0 to Size()-1 yields every live entry exactly once, whatever history led to the table |
| FastHashTable.InitTable | stunserver/common/fasthash.h:471-499 | A table of requested capacity, with the least prime not below it as width when none is given |
| PrimeSearch.FindPrime | stunserver/common/fasthash.cpp:22-62 | Returns the least prime not below its argument, 2 for 0 and 1; the search ends |
| PrimeSearch.TrialDivide | stunserver/common/fasthash.cpp:30-57 | Trial division up to floor(sqrt)+1 decides primality of an odd candidate |
| PrimeSearch.TrialDivision | stunserver/common/fasthash.cpp:38-57 | An odd number without an odd divisor up to floor(sqrt)+1 is prime, and only such a number is |
| PrimeSearch.PrimeAbove | stunserver/common/fasthash.cpp:22-62 | Euclid: there is a prime above every number, which bounds the search |
| PollSet.RefinesSet | stunserver/networkutils/polling.cpp:347-434 | Add, swap-with-last Remove and ChangeEventSet act as on a set of descriptors, with flags and pending events of all others unchanged |
| PollSet.StepConserves | stunserver/networkutils/polling.cpp:347-515 | Each operation keeps: what was pending plus what poll() reported equals what is pending plus what was delivered or dropped; poll() is called only when nothing is pending |
| PollSet.WaitConserves | stunserver/networkutils/polling.cpp:436-515 | WaitForNextEvent hands over exactly one pending or reported event whenever there is one, from any rotation value |
| PollSet.NextIsNearest | stunserver/networkutils/polling.cpp:479-515 | The event handed over is the first pending one from the rotation on, in circular order |
| PollSet.EventsConserved | stunserver/networkutils/polling.cpp:347-515 | Over any run, reported events are the delivered, the pending and those dropped with their descriptor, and the unread count overstates the pending ones by those dropped since the last poll |
| PollSet.AssertionHoldsIff | stunserver/networkutils/polling.cpp:448-460 | The assertion that the unread count is 0 before poll() holds exactly when no pending event was removed with its descriptor since the last poll |
| PollSet.AssertionCanFail | stunserver/networkutils/polling.cpp:448-460 | A concrete run in which that assertion fails |
| PollSet.FlagsRoundTrip | stunserver/networkutils/polling.cpp:292-324 | Translating event flags to poll() and back loses the edge-trigger flag and unknown bits, nothing else |
| PollSet.FlagByFlag | stunserver/networkutils/polling.cpp:292-324 | Each event flag becomes the flag of poll() for the same event, and no others are set |
| Polling.CPoll.constructor | stunserver/networkutils/polling.cpp:326-337 | An initialized, empty poller |
| Polling.CPoll.Close | stunserver/networkutils/polling.cpp:339-345 | Empties the array and marks the poller uninitialized |
| Polling.CPoll.Add | stunserver/networkutils/polling.cpp:347-364 | Takes the step of the state machine. The hash table maps each descriptor to exactly its slot afterwards, if and only if it had room or nothing was added; otherwise it does not know the new descriptor |
| Polling.CPoll.Remove | stunserver/networkutils/polling.cpp:366-411 | Takes the step of the state machine; the moved slot's table entry follows it |
| Polling.CPoll.ChangeEventSet | stunserver/networkutils/polling.cpp:413-434 | Takes the step of the state machine |
| Polling.CPoll.FindNextEvent | stunserver/networkutils/polling.cpp:479-515 | The scan loop finds the first pending slot in circular order, clears it and moves on |
| Polling.CPoll.WaitForNextEvent | stunserver/networkutils/polling.cpp:436-477 | Takes the step of the state machine for any answer of the kernel |
| RateLimit.SlowMeansFew | stunserver/networkutils/ratelimiter.cpp:25-42 | A rate below 3600 an hour means a count below 60 or below the seconds the entry has lived |
| RateLimit.CheckKeepsBound | stunserver/networkutils/ratelimiter.cpp:62-144 | One check keeps the bound on what one address was let through, across removal, re-creation and dumps of the table |
| RateLimit.RateBound | stunserver/networkutils/ratelimiter.cpp:62-144 | Over any run with a nondecreasing clock one address gets at most 59 (D + 1) packets plus the seconds since its first one, D being the number of dumps |
| RateLimit.PenaltyHolds | stunserver/networkutils/ratelimiter.cpp:62-144 | An address in the penalty box stays blocked until its time is up or the table is dumped |
| RateLimit.FewAreAdmitted | stunserver/networkutils/ratelimiter.cpp:62-144 | An address that sends fewer than 60 packets has all of them admitted, whatever the others send and however often the table is dumped |
| RateLimit.UnhurriedAreAdmitted | stunserver/networkutils/ratelimiter.cpp:62-144 | An address whose packets are at least two seconds apart has all of them admitted, however many they are |
| RateLimit.RefusedIsPenalized | stunserver/networkutils/ratelimiter.cpp:62-144 | A refused packet puts a known address in the penalty box for an hour, unless it is in there |
| RateLimit.PenaltyEnds | stunserver/networkutils/ratelimiter.cpp:62-144 | When the time is up, the next packet is admitted if and only if the address has sent fewer than 60 packets, or fewer than the seconds it has been known |
| RateLimit.EnoughRoom | stunserver/networkutils/ratelimiter.cpp:62-144 | The table is never dumped while no more addresses have sent than it has room for |
| RateLimit.DumpsAreRare | stunserver/networkutils/ratelimiter.cpp:62-144 | Every dump takes as many packets as the table has room for |
| RateLimit.ForgottenIff | stunserver/networkutils/ratelimiter.cpp:62-144 | A packet makes the limiter forget its address if and only if it is admitted, there was no penalty and the address has been known for more than 120 seconds |
| RateLimit.ForgottenStartsAfresh | stunserver/networkutils/ratelimiter.cpp:62-144 | After an address is forgotten its next 59 packets are admitted |
| RateLimit.RateLimiter.RateCheck | stunserver/networkutils/ratelimiter.cpp:44-60 | The answer is that of the specification after all packets so far |
| RateLimit.RateLimiter.RateCheckImpl | stunserver/networkutils/ratelimiter.cpp:62-144 | The hash table holds exactly the trackers of the specification afterwards |
| RateLimit.RateLimiter.constructor | stunserver/networkutils/ratelimiter.cpp:7-12 | A limiter with an empty table |
| DataStreams.DataStream.Grow | stunserver/stuncore/datastream.cpp:84-131 | Growing changes neither contents nor cursor; over a life the bytes copied stay below the capacity gained and, once grown, the capacity is at most twice the largest request |
| DataStreams.DataStream.Write | stunserver/stuncore/datastream.cpp:138-169 | Overwrites and extends the byte sequence at the cursor, failing exactly without data or without room in no-grow mode |
| DataStreams.DataStream.Read | stunserver/stuncore/datastream.cpp:67-82 | Reads exactly the next bytes or fails without moving |
| DataStreams.DataStream.SeekDirect | stunserver/stuncore/datastream.cpp:187-205 | Moves within 0 to size, else fails |
| DataStreams.DataStream.SeekRelative | stunserver/stuncore/datastream.cpp:207-211 | Moves by an offset within 0 to size, else fails |
| DataStreams.DataStream.Attach | stunserver/stuncore/datastream.cpp:55-65 | Continues on a caller's buffer, emptied for writing |
| SocketAddresses.CSocketAddress.ApplyStunXorMap | stunserver/stuncore/socketaddress.cpp:180-209 | In place, port and address are masked with cookie and transaction id |
| SocketAddresses.XorMappedTwice | stunserver/stuncore/socketaddress.cpp:180-209 | Mapping twice with one transaction id gives the address back, IPv4 and IPv6 |
| StunTypes.XorBit | stunserver/stuncore/socketaddress.cpp:180-209 | A bit of the masked value is set if and only if the bits of value and mask differ; with StunTypes.SameBits that determines the value |
| StunTypes.SameBits | stunserver/stuncore/socketaddress.cpp:180-209 | Two numbers with the same bits are equal |
| StunTypes.FingerprintBit | stunserver/stuncore/stunbuilder.cpp:420-458 | A bit of the written fingerprint is set if and only if the checksum and 0x5354554e differ in it |
| SocketAddresses.CSocketAddress.SetPort | stunserver/stuncore/socketaddress.cpp:84-94 | Changes the port and nothing else |
| SocketAddresses.SamePortBytes | stunserver/stuncore/socketaddress.cpp:229-259 | IsSameIP_and_Port is equality of addresses |
| SocketAddresses.GetMappedAddress | stunserver/stuncore/stunutils.cpp:33-71 | Parses an address value through a stream cursor, for every byte string |
| SocketAddresses.AddressRoundTrip | stunserver/stuncore/stunbuilder.cpp:373-398 | Parsing what the builder writes for an address gives the address |
| StunTypes.TypeFieldRoundTrip | stunserver/stuncore/stunbuilder.cpp:55-74 | Method and class survive being interleaved and read back |
| StunTypes.FieldTypeRoundTrip | stunserver/stuncore/stunreader.cpp:603-669 | A read type field can be written again unchanged |
| StunWire.WalkSound | stunserver/stuncore/stunreader.cpp:671-765 | What the attribute loop accepts tiles the rest of the body, with at most 30 small attributes |
| StunWire.WalkComplete | stunserver/stuncore/stunreader.cpp:671-765 | And every such tiling is what the loop finds |
| StunWire.AcceptedIffTiled | stunserver/stuncore/stunreader.cpp:603-835 | BodyValidated exactly when the header is valid, the length exact and the body tiled by at most 30 attributes of at most 780 bytes |
| StunWire.IndexedIsTiling | stunserver/stuncore/stunreader.cpp:671-765 | The recorded types, sizes and offsets are the only tiling |
| StunWire.ErrorIsFinal | stunserver/stuncore/stunreader.cpp:767-780 | After an error no further bytes help |
| StunWire.TrailingBytesAreErrors | stunserver/stuncore/stunreader.cpp:815-830 | Any byte after a complete message is an error |
| StunWire.NeverTooMany | stunserver/stuncore/stunreader.cpp:76-91 | A caller that offers at most HowManyBytesNeeded() bytes never causes the too-many-bytes error |
| StunWire.NeededEndsStage | stunserver/stuncore/stunreader.cpp:76-91 | The bytes asked for are exactly those that end the stage: fewer leave the state as it is, as many change it, and more are too many for the body |
| StunWire.CodecRoundTrip | stunserver/stuncore/stunbuilder.cpp:55-203 | Parsing built bytes reaches BodyValidated and gives back method, class, transaction id and, index by index, each attribute's type, length and bytes |
| StunWire.AcceptedIffBuilt | stunserver/stuncore/stunreader.cpp:603-835 | A byte string is accepted if and only if it is what the builder writes for some method, class, transaction id and at most 30 attributes within the limits |
| StunWire.AcceptedIsBuilt | stunserver/stuncore/stunreader.cpp:603-835 | And the attributes read from it are those it is written from |
| StunIntegrity.IntegrityIsWire | stunserver/stuncore/stunbuilder.cpp:476-520 | Patching the hash into the buffer gives the message with the hash as its last attribute |
| StunIntegrity.RebuiltIsHashed | stunserver/stuncore/stunreader.cpp:145-292 | The bytes the reader rebuilds are the bytes the builder hashed, with or without a fingerprint behind them |
| StunIntegrity.IntegrityRoundTrip | stunserver/stuncore/stunreader.cpp:145-292 | For every key and message within the limits, a built MESSAGE-INTEGRITY validates, for any HMAC |
| StunIntegrity.IntegrityAndFingerprintRoundTrip | stunserver/stuncore/stunreader.cpp:99-292 | So do integrity and fingerprint together, although the length field was smaller when the integrity was computed |
| StunIntegrity.FingerprintRoundTrip | stunserver/stuncore/stunreader.cpp:99-138 | A fingerprint alone validates, for any CRC |
| StunValidation.IntegrityHoldsIff | stunserver/stuncore/stunreader.cpp:145-292 | A message validates under a key if and only if the key is not empty and its last attribute, or the last but one before a fingerprint, is a MESSAGE-INTEGRITY with the hash of all bytes before it, the declared length being without the fingerprint |
| StunValidation.FingerprintHoldsIff | stunserver/stuncore/stunreader.cpp:99-138 | A message that ends in a fingerprint attribute has a valid one if and only if it holds the masked checksum of all bytes before it |
| StunIntegrity.PlacedSnoc | stunserver/stuncore/stunreader.cpp:671-765 | An attribute added at the end lands right behind the others and moves none of them |
| StunBuilders.CStunMessageBuilder.constructor | stunserver/stuncore/stunbuilder.cpp:42-53 | Attaches an emptied buffer of the caller |
| StunBuilders.CStunMessageBuilder.AddHeader | stunserver/stuncore/stunbuilder.cpp:55-74 | Appends type field and a zero length |
| StunBuilders.CStunMessageBuilder.AddTransactionId | stunserver/stuncore/stunbuilder.cpp:86-91 | Appends and remembers the id |
| StunBuilders.CStunMessageBuilder.AddAttribute | stunserver/stuncore/stunbuilder.cpp:165-203 | Appends header, value and padding; in legacy mode the header counts the padding; a null pointer leaves a header that declares bytes which do not follow |
| StunBuilders.CStunMessageBuilder.AddStringAttribute | stunserver/stuncore/stunbuilder.cpp:205-217 | Appends a non-empty string, refuses an empty one |
| StunBuilders.CStunMessageBuilder.AddErrorCode | stunserver/stuncore/stunbuilder.cpp:219-270 | Appends class, number and reason, refusing codes outside 300 to 600 and long reasons |
| StunBuilders.CStunMessageBuilder.AddMappedAddressImpl | stunserver/stuncore/stunbuilder.cpp:373-398 | Appends an address attribute of either family |
| StunBuilders.CStunMessageBuilder.AddXorMappedAddress | stunserver/stuncore/stunbuilder.cpp:309-317 | Appends the address masked with the remembered id, under the type of the mode |
| StunBuilders.CStunMessageBuilder.AddChangeRequest | stunserver/stuncore/stunbuilder.cpp:400-416 | Appends the two change flags |
| StunBuilders.CStunMessageBuilder.FixLengthField | stunserver/stuncore/stunbuilder.cpp:588-611 | Writes the body length into the header and nothing else, failing on less than a header |
| StunBuilders.CStunMessageBuilder.AddMessageIntegrityImpl | stunserver/stuncore/stunbuilder.cpp:476-520 | On any stream: appends a blank attribute, fixes the length, hashes what precedes it and patches the hash in |
| StunBuilders.CStunMessageBuilder.AddFingerprintAttribute | stunserver/stuncore/stunbuilder.cpp:420-458 | The same for the CRC, on a stream that is as long as a header once the attribute is on it; on a shorter one the blank attribute stays and the call fails |
| StunReaders.LookupIsLast | stunserver/stuncore/stunreader.cpp:379-394 | Lookup by type in the attribute table gives the last attribute of that type on the wire |
| StunReaders.LastOfFits | stunserver/stuncore/stunreader.cpp:671-765 | The attributes of an accepted message are aligned and inside it |
| StunReaders.CStunMessageReader.constructor | stunserver/stuncore/stunreader.cpp:42-63 | A fresh reader has read nothing |
| StunReaders.CStunMessageReader.HowManyBytesNeeded | stunserver/stuncore/stunreader.cpp:76-91 | The bytes missing for the next state, from all bytes fed so far |
| StunReaders.CStunMessageReader.ReadHeader | stunserver/stuncore/stunreader.cpp:603-669 | Accepts exactly the valid headers and sets the header fields |
| StunReaders.CStunMessageReader.ReadBody | stunserver/stuncore/stunreader.cpp:671-765 | Accepts exactly the bodies the specification walks, indexing every attribute; each turn consumes bytes |
| StunReaders.CStunMessageReader.AddBytes | stunserver/stuncore/stunreader.cpp:767-835 | The state is the verdict on all bytes ever fed |
| StunReaders.AddChunks | stunserver/stuncore/stunreader.cpp:767-835 | Chunk invariance: any way of cutting the bytes ends in the same state, with the same attributes |
| StunReaders.CStunMessageReader.GetAttributeByIndex | stunserver/stuncore/stunreader.cpp:363-377 | Attributes by index come in wire order; there are none before the message is validated |
| StunReaders.CStunMessageReader.GetAttributeByType | stunserver/stuncore/stunreader.cpp:379-394 | The last attribute of the type |
| StunReaders.CStunMessageReader.GetResponsePort | stunserver/stuncore/stunreader.cpp:401-422 | The port of a two-byte RESPONSE-PORT, else nothing |
| StunReaders.CStunMessageReader.GetChangeRequest | stunserver/stuncore/stunreader.cpp:424-457 | The flags of a four-byte CHANGE-REQUEST, else nothing |
| StunReaders.CStunMessageReader.GetStringAttributeByType | stunserver/stuncore/stunreader.cpp:582-601 | The value when it fits the caller's buffer with its terminator |
| StunReaders.CStunMessageReader.GetXorMappedAddress | stunserver/stuncore/stunreader.cpp:546-563 | The unmasked address of either XOR-MAPPED-ADDRESS type |
| StunReaders.CStunMessageReader.GetOtherAddress | stunserver/stuncore/stunreader.cpp:530-544 | OTHER-ADDRESS or else CHANGED-ADDRESS |
| StunReaders.CStunMessageReader.ValidateMessageIntegrity | stunserver/stuncore/stunreader.cpp:145-292 | True exactly when the integrity attribute stands where it may and carries the hash of the rebuilt bytes |
| StunReaders.CStunMessageReader.IsFingerprintAttributeValid | stunserver/stuncore/stunreader.cpp:99-138 | True exactly when the last fingerprint carries the masked CRC of all but the last eight bytes |
| StunReplies.SwapsAreBits | stunserver/stuncore/messagehandler.cpp:243-258 | Swapping port or IP flips one bit of the role number |
| StunReplyProofs.DecisionIsSound | stunserver/stuncore/messagehandler.cpp:77-363 | A non-request is ignored; a refusal has code 400, 401 or 438; an acceptance is for a binding request, flips exactly the requested bits, has an address and a datagram transport when it flips any, and is signed only with a key the request validated under |
| StunReplyProofs.RoleHasAddressIff | stunserver/stuncore/messagehandler.cpp:236-259 | The answering role has an address exactly when a change was requested or the receiving role has one |
| StunReplyProofs.RoleMayLackAddress | stunserver/stuncore/messagehandler.cpp:202-363 | A concrete request accepted on a role without address, when ProcessRequest is called with a set that lacks it |
| StunReplyProofs.WrittenValue | stunserver/stuncore/stunreader.cpp:379-394 | Under each type a reader finds the value of the last attribute written with it |
| StunReplyProofs.RefusalReply | stunserver/stuncore/messagehandler.cpp:159-199 | An error response parses within 800 bytes, echoes method and transaction id, carries the code and, with 401 and 438, exactly the provider's NONCE and REALM, with any other code neither, legacy or not |
| StunReplyProofs.AcceptReply | stunserver/stuncore/messagehandler.cpp:311-360 | A success response parses, both mapped addresses decode to the sender's address, under the types of the dialect, the origin and the other address to the server's, and a signature validates |
| StunReplyProofs.EveryRequestIsAnswered | stunserver/stuncore/messagehandler.cpp:39-157 | End to end: every accepted message is no request, or gets a reply that the same kind of reader accepts, with its transaction id: an error response with the code and the challenge that goes with it, or a success response that tells the addresses |
| StunDecisions.AcceptedIff | stunserver/stuncore/messagehandler.cpp:77-452 | A request is accepted if and only if it is a binding request that can be done and the provider allows it, or allows it on condition that it is signed and it is; the reply is signed exactly in the last case |
| StunDecisions.RefusedWith | stunserver/stuncore/messagehandler.cpp:77-452 | 438 exactly for a stale nonce, 401 exactly when the provider wants credentials or the signature is wrong, both with the provider's nonce and realm, and 400 otherwise |
| StunDecisions.OtherIsOpposite | stunserver/stuncore/messagehandler.cpp:288-301 | The other address is that of the role with other IP and other port, told if and only if all four roles have one and it is no zero address |
| StunDecisions.OriginIsSource | stunserver/stuncore/messagehandler.cpp:303-314 | The origin is the address the reply leaves from, never a zero address |
| StunDecisions.ResponsePortIsUsed | stunserver/stuncore/messagehandler.cpp:117-157 | A RESPONSE-PORT other than zero is where a datagram reply goes, at the sender's address |
| StunDecisions.CredentialsAreRead | stunserver/stuncore/messagehandler.cpp:366-452 | The provider is asked about exactly the user name, realm, nonce and password that were written |
| StunDecisions.SignedRequestIsAcceptedIff | stunserver/stuncore/messagehandler.cpp:366-452 | End to end, with a provider that allows conditionally: a request that ends in an integrity attribute is accepted if and only if that is the hash of what precedes it under the provider's key |
| StunSamples.RequestIsMessage | stunserver/testcode/testreader.cpp:25-45 | The sample request of RFC 5769 is what the builder writes for its attributes |
| StunSamples.RequestIsRead | stunserver/testcode/testreader.cpp:25-45 | It is accepted without the legacy format, and read with its method, class, transaction id, software and user name |
| StunSamples.RequestValidatesIff | stunserver/testcode/testreader.cpp:25-45 | It validates if and only if the HMAC of the 76 bytes before the hash, with a declared length of 0x50, is the one in it, and the masked CRC of its first 100 bytes the one at its end |
| StunSamples.AddressValues | stunserver/stuncore/socketaddress.cpp:180-209 | 192.0.2.1 and port 32853 are written as a1 47 e1 12 a6 43 under the sample's id, and unmasked as 80 55 c0 00 02 01 |
| StunSamples.ChangeRequestValues | stunserver/stuncore/stunbuilder.cpp:400-416 | The flags of RFC 5780 for another address and another port, written and read |
| StunSamples.ErrorValues | stunserver/stuncore/stunbuilder.cpp:219-270 | The values of ERROR-CODE for 401 and 438, written and read |
| StunSamples.LongTermKeyOfExample | stunserver/stuncore/stunbuilder.cpp:527-580 | The example key of RFC 5389 is the MD5 of user:realm:pass |
| MessageHandlers.CStunRequestHandler.ValidateAuth | stunserver/stuncore/messagehandler.cpp:366-452 | Error code, challenge and signing key are those of the specification, for any auth provider |
| MessageHandlers.CStunRequestHandler.PlanBinding | stunserver/stuncore/messagehandler.cpp:202-307 | Role, origin and other address, or refusal, of the specification |
| MessageHandlers.CStunRequestHandler.ProcessBindingRequest | stunserver/stuncore/messagehandler.cpp:202-363 | The buffer holds exactly the specified reply, or the error code is set and the role kept |
| MessageHandlers.CStunRequestHandler.BuildErrorResponse | stunserver/stuncore/messagehandler.cpp:159-199 | The buffer holds exactly the specified error response |
| MessageHandlers.CStunRequestHandler.ProcessRequestImpl | stunserver/stuncore/messagehandler.cpp:77-157 | Fails exactly for non-requests; otherwise buffer, role and destination are those of the decision |
| MessageHandlers.ProcessRequest | stunserver/stuncore/messagehandler.cpp:39-75 | Fails on a short buffer or a message not validated; otherwise does what the decision says, in the caller's own buffer |
| NatDiscovery.TurnAdvances | stunserver/stuncore/stunclientlogic.cpp:154-213 | Every turn of the loop that does not return settles part of a test, so GetNextMessage terminates |
| NatDiscovery.TotalSends | stunserver/stuncore/stunclientlogic.cpp:139-217 | Any run sends at most five times the configured attempts |
| NatDiscovery.EachTestSends | stunserver/stuncore/stunclientlogic.cpp:181-212 | No test sends more than uMaxAttempts messages, and two of its messages are at least the timeout apart in real time, although the millisecond clock wraps |
| NatDiscovery.SendsAreSpaced | stunserver/stuncore/stunclientlogic.cpp:181-212 | The same from any state of a run |
| NatDiscovery.ReadyIsFinal | stunserver/stuncore/stunclientlogic.cpp:156-160 | After RESULTS_READY nothing is ever sent again and the results stand |
| NatVerdict.EventKeeps | stunserver/stuncore/stunclienttests.cpp:69-331 | Every poll and every answered, repeated, delayed or stray datagram keeps the results true of the NAT, whatever id a stray one carries, except an all-zero id before the first poll |
| NatVerdict.ZeroIdTakenIff | stunserver/stuncore/stunclienttests.cpp:69-104 | A response with the all-zero id is acted on if and only if the client has not been polled, it is the first such one and it has a mapped address; otherwise it changes nothing |
| NatVerdict.MappingVerdict | stunserver/stuncore/stunclienttests.cpp:214-326 | A successful behavior test reports the NAT's mapping exactly, for any mapping, filter and network, and only for a NAT that can be settled |
| NatVerdict.ReportedAddresses | stunserver/stuncore/stunclienttests.cpp:147-326 | The addresses reported with the verdicts are the client's own, the NAT's mappings and the server's: local, mapped, other, and those of the mapping tests that decide the verdict |
| NatVerdict.GivingUpIsTimingOut | stunserver/stuncore/stunclientlogic.cpp:181-192 | A filtering test is given up only when its attempts are used up |
| NatVerdict.WaitingEndsIff | stunserver/stuncore/stunclientlogic.cpp:181-192 | An unanswered test is sent again or given up at some time if and only if the timeout is within the range of the clock |
| NatVerdict.DatagramsDoNotGiveUp | stunserver/stuncore/stunclienttests.cpp:401-445 | No datagram, answer or not, makes a test one that was given up |
| NatVerdict.FilteringVerdict | stunserver/stuncore/stunclienttests.cpp:344-445 | A filtering verdict is the NAT's filtering if and only if no filtering test was given up whose answer the filter would have let in; each verdict but the strictest rests on a packet let through while only the server had been contacted |
| NatReachability.VerdictIsReached | stunserver/stuncore/stunclientlogic.cpp:139-239 | Some run ends in a mapping verdict if and only if the behavior tests are on, the NAT can be settled and the filtering tests, on or off, come to an end |
| NatReachability.FilteringIsReachedIff | stunserver/stuncore/stunclientlogic.cpp:139-239 | Some run ends in a filtering verdict, and some in the true one, if and only if the server is heard and the connection is direct or there is another address and the first test is answered or times out |
| NatReachability.LostAnswersMislead | stunserver/stuncore/stunclienttests.cpp:433-445 | For every endpoint-independent filter there are runs with lost answers that report the stricter verdicts |
| NatReachability.EarlyZeroMisleads | stunserver/stuncore/stunclienttests.cpp:69-104 | One response with the all-zero id before the first poll makes any NAT look like a direct connection |
| ClientWire.RequestIsHeard | stunserver/stuncore/stunclienttests.cpp:54-67 | A server reads the client's request as it was meant |
| ClientWire.RequestIsAnswered | stunserver/stuncore/stunclienttests.cpp:147-196 | Client and server together: the reply parses to the client's mapped address and the server's other address |
| ClientWire.AnyResponseIsParsed | stunserver/stuncore/stunclienttests.cpp:147-196 | From a message of any server the mapped address is the unmasked XOR-MAPPED-ADDRESS of type 0x0020, else of 0x8020, whatever MAPPED-ADDRESS says; without either it is MAPPED-ADDRESS, and none without that. The other address is OTHER-ADDRESS, else CHANGED-ADDRESS |
| ClientWire.MaskedAddressIsUnderstood | stunserver/stuncore/stunclienttests.cpp:157-168 | A server that writes only a masked address, of either type and in either mode, is understood |
| ClientWire.ServerIsCorrect | stunserver/stuncore/messagehandler.cpp:202-363 | For every test the modelled server's reply is an answer the verdicts assume, and it leaves from the very address and port that the test asks the filter about |
| ClientLogic.CStunClientTest.PreRunCheck | stunserver/stuncore/stunclienttests.cpp:214-227 | Takes the transition of the model for either test |
| ClientLogic.CStunClientTest.IsReadyToRun | stunserver/stuncore/stunclienttests.cpp:229-242 | Decides as the model |
| ClientLogic.CStunClientTest.GetMessage | stunserver/stuncore/stunclienttests.cpp:244-272 | Writes the request bytes and keeps the transaction id of the first call |
| ClientLogic.CStunClientTest.ReadResponse | stunserver/stuncore/stunclienttests.cpp:69-95 | Takes from any datagram what the specification parses |
| ClientLogic.CStunClientTest.ProcessResponse | stunserver/stuncore/stunclienttests.cpp:274-319 | Takes the transition of the model for any datagram, and succeeds exactly when the test acts on it |
| ClientLogic.CStunClientTest.NotifyTimeout | stunserver/stuncore/stunclienttests.cpp:433-445 | Takes the transition of the model |
| ClientLogic.CStunClientLogic.Initialize | stunserver/stuncore/stunclientlogic.cpp:68-137 | Works once, with a usable server address, and reaches the start state with defaults filled in |
| ClientLogic.CStunClientLogic.GetNextMessage | stunserver/stuncore/stunclientlogic.cpp:139-217 | Returns the outcome and reaches the state of the model; a sent message is in the caller's buffer |
| ClientLogic.CStunClientLogic.ProcessResponse | stunserver/stuncore/stunclientlogic.cpp:219-239 | Takes the model's transition for any bytes; completed tests and the end of the list ignore them, and the result code says whether the test acted |
| ConnectionPools.CConnectionPool.Grow | stunserver/server/stunconnection.cpp:27-55 | Fifty new closed connections on top of the linked free list |
| ConnectionPools.CConnectionPool.Pop | stunserver/server/stunconnection.cpp:57-85 | The top of the list, reset for a new socket |
| ConnectionPools.CConnectionPool.ReleaseConnection | stunserver/server/stunconnection.cpp:87-93 | A closed connection goes on top of the list |
| ConnectionPools.CConnectionPool.ResetConnection | stunserver/server/stunconnection.cpp:95-101 | Ready for the next message on the same socket |
| TcpConnections.ClosedKeeps | stunserver/server/tcpserver.cpp:714-741 | Closing a connection, filed or not, keeps placement, watch set, streams and ages of all others |
| TcpConnections.AcceptanceKeeps | stunserver/server/tcpserver.cpp:485-554 | Every end of accepting keeps the invariant: the connection filed and watched, closed again at once, or closed after it was told a table that had no room |
| TcpConnections.SentMoreKeeps | stunserver/server/tcpserver.cpp:664-703 | A partial send keeps what was sent a beginning of the replies |
| TcpConnections.RestartedKeeps | stunserver/server/tcpserver.cpp:691-701 | After a whole reply the connection reads again, and all replies have gone out |
| TcpConnections.ReceivedMoreKeeps | stunserver/server/tcpserver.cpp:568-600 | Bytes received are the messages served and the one being read |
| TcpConnections.ReadingAdvances | stunserver/server/tcpserver.cpp:568-635 | Asking only for what is needed, the read loop ends |
| TcpConnections.AnsweringKeeps | stunserver/server/tcpserver.cpp:599-622 | The handler's reply to a complete message, for the role and addresses of its connection, is what is sent next |
| TcpConnections.SwappedKeeps | stunserver/server/tcpserver.cpp:768-776 | Swapping the tables after emptying the old one keeps the ages right |
| TcpConnections.OldAreDue | stunserver/server/tcpserver.cpp:754-777 | When a sweep is due, every connection it closes is at least 60 seconds old |
| TcpConnections.SecondSweepCloses | stunserver/server/tcpserver.cpp:754-777 | An open connection has seen at most one sweep since it was accepted |
| TcpConnections.SentAreReplies | stunserver/server/tcpserver.cpp:556-712 | Every byte sent on an open connection at rest is, in order, a byte of the replies to the complete messages received on it, made for its own role and addresses, and all replies are out when it reads |
| TcpConnections.TouchedFair | stunserver/server/tcpserver.cpp:556-712 | Work on a connection, whether or not it fails, keeps what its client was sent a beginning of replies to complete messages it sent first |
| TcpConnections.SweepIgnoresActivity | stunserver/server/tcpserver.cpp:754-777 | A sweep leaves every connection of the old table closed and back in the pool, whatever it is doing at the time |
| ConnectionReplies.HandlerAnswers | stunserver/stuncore/messagehandler.cpp:39-75 | The request handler never answers with an empty message, which is what the connection thread relies on |
| ConnectionReplies.AnsweredIff | stunserver/stuncore/messagehandler.cpp:39-157 | On a connection the handler has a reply to exactly the complete requests |
| ConnectionReplies.Reply | stunserver/server/tcpserver.cpp:599-617 | The handler object, given a complete message with the role and addresses of its connection, writes the reply the streams are about |
| ConnectionReplies.ClientsGetTheirReplies | stunserver/server/tcpserver.cpp:556-712 | At every moment, the last client on every descriptor, its connection open, at work, failing or closed, has been sent, in order and from the beginning, replies to its own requests that its reader accepts, with their transaction ids and its own address, and nothing else |
| ConnectionReplies.OpenClientsAreAnswered | stunserver/server/tcpserver.cpp:556-712 | On an open connection every complete message but the last has its reply sent, and the last one too while the next request is awaited |
| ConnectionAnswers.RequestsAreNotRefused | stunserver/server/tcpserver.cpp:599-617 | Work on a connection whose client the limiter allows does not end at a complete request |
| ConnectionAnswers.WorkSpares | stunserver/server/tcpserver.cpp:431-462 | Work on one connection, even if it ends in closing it, leaves all others as they were |
| ConnectionAnswers.NewSpares | stunserver/server/tcpserver.cpp:485-554 | So does accepting one and reading from it at once |
| ConnectionAnswers.SweptSpares | stunserver/server/tcpserver.cpp:754-777 | A sweep closes the connections of the old table, and leaves the others as they were and in their table |
| ConnectionAnswers.TurnCloses | stunserver/server/tcpserver.cpp:371-424 | An event and a sweep together: a connection that was open is closed if and only if the event was its own and ended so, or it was in the old table when that was swept; it stays as it was if the event was not its own; no connection joins but an accepted one, and a connection worked on is left as the work left it |
| ConnectionLimits.TurnKeepsBound | stunserver/server/tcpserver.cpp:371-424 | With events handed out late, a turn keeps the count below the limit plus the number of listening sockets, if none is watched at the limit |
| ConnectionLimits.EventKeepsLoop | stunserver/server/tcpserver.cpp:371-424 | An event keeps what holds at the top of the loop: what is listened on, the pipe on the poller, and the bound unless sockets are left watched; an event on a watched descriptor does not take the count beyond the limit |
| ConnectionLimits.QuietIsSane | stunserver/server/tcpserver.cpp:231-296 | The start of the concrete runs satisfies both invariants |
| ConnectionLimits.FirstIsAccepted | stunserver/server/tcpserver.cpp:371-424 | A concrete turn, with a limit of one and two listening sockets ready: the first is accepted and leads to the state at the limit |
| ConnectionLimits.LimitIsReached | stunserver/networkutils/polling.cpp:209-245 | A concrete state at the limit, with the listening sockets off the poller and an event for one of them still to be handed out |
| ConnectionLimits.StaleEventFindsTableFull | stunserver/server/tcpserver.cpp:485-554 | From there the insertion fails, and CloseConnection is called on a connection that names a table it is not in |
| ConnectionLimits.StaleEventExceedsLimit | stunserver/server/tcpserver.cpp:485-554 | From there, with a sweep in between, the limit is exceeded |
| ConnectionLimits.RefusalLeaves | stunserver/server/tcpserver.cpp:139-169 | After a refusal, listening sockets are left watched if and only if they were before or one precedes the refused one; once some are left watched, enabling changes nothing |
| ConnectionLimits.RelistenOutcome | stunserver/server/tcpserver.cpp:139-169 | The same for every call, with what it means for the flag and the limit |
| ConnectionLimits.SecondIsRefused | stunserver/server/tcpserver.cpp:371-380 | A concrete state with two listening sockets: below the limit again, the first is watched and the second refused |
| ConnectionLimits.LeftWatchedOverruns | stunserver/server/tcpserver.cpp:371-424 | From there a fresh event is accepted at the limit: the table is full and CloseConnection's assertion fails, or after a sweep there are twice as many connections as allowed |
| TcpConnections.LocatedAtRest | stunserver/server/tcpserver.cpp:431-462 | A socket is in at most one table, under its own connection, which is reading or writing |
| TcpConnections.NothingLeft | stunserver/server/tcpserver.cpp:780-784 | With empty tables all connections are in the pool and only the listeners' descriptors are open |
| TcpServers.CTCPStunThread.constructor | stunserver/server/tcpserver.cpp:231-288 | Empty tables and an empty pool satisfy the invariant of the connections |
| TcpServers.CTCPStunThread.Init | stunserver/server/tcpserver.cpp:264-275 | When the listening sockets and the pipe are accepted by the poller, all of them are watched and the invariant of the loop holds; it fails only if the poller has refused one |
| TcpServers.CTCPStunThread.CloseConnection | stunserver/server/tcpserver.cpp:714-741 | Unwatches and closes the socket, removes the entry from the table named by the connection and gives the connection back; the table has the entry, unless the connection is one whose insertion failed |
| TcpServers.CTCPStunThread.CloseAllConnections | stunserver/server/tcpserver.cpp:744-752 | Terminates with an empty table and leaves the other table alone |
| TcpServers.CTCPStunThread.SweepDeadConnections | stunserver/server/tcpserver.cpp:754-777 | Sweeps exactly when 60 seconds have passed, closing exactly the connections of the old table and no others, and turns the new table into the old one |
| TcpServers.CTCPStunThread.ReceiveBytesForConnection | stunserver/server/tcpserver.cpp:556-644 | Works on one connection only, ends, and leaves it at rest or closed. What ended it is the last answer since the call: it is closed exactly on end of input, on bytes that are no message, when the limiter refuses, when the handler has no reply, when the poller refuses and when sending fails, and stays open exactly when recv() or send() would block and when a whole reply is out and the poller lets it read again |
| TcpServers.CTCPStunThread.AnswerMessage | stunserver/server/tcpserver.cpp:599-622 | A complete message: it fails if and only if the limiter refuses, the handler has no reply or the poller refuses; otherwise the connection transmits the handler's reply |
| TcpServers.CTCPStunThread.WriteBytesForConnection | stunserver/server/tcpserver.cpp:646-712 | The same for writing |
| TcpServers.CTCPStunThread.AcceptConnection | stunserver/server/tcpserver.cpp:485-554 | At any connection count: a connection for the role of the listening socket and the addresses told by accept(), in the new table and reading, if and only if accept() has one, the limiter allows it, the socket can be made non-blocking, the poller takes it and the new table has room; all others as they were; CloseConnection's assertion fails exactly if only the room is missing |
| TcpServers.CTCPStunThread.FileNew | stunserver/server/tcpserver.cpp:525-537 | The insertion succeeds if and only if the new table has fewer entries than the limit |
| TcpServers.CTCPStunThread.GetListenSocket | stunserver/server/tcpserver.cpp:212-227 | Finds the role of a listening socket, and nothing for any other descriptor |
| TcpServers.CTCPStunThread.ProcessConnectionEvent | stunserver/server/tcpserver.cpp:431-462 | An event reaches exactly the connection filed under its socket, and the work on it goes on until an answer ends it |
| TcpServers.CTCPStunThread.Dispatch | stunserver/server/tcpserver.cpp:382-462 | An event on a listening socket accepts a client of its role, as the answers say, and reads from it at once until an answer ends that; an event on a connection works on it; any other does nothing, and no other connection changes |
| TcpServers.CTCPStunThread.SetListenSocketsOnEpoll | stunserver/server/tcpserver.cpp:139-169 | All listening sockets are put on the poller or taken off it, and nothing else changes; if and only if the poller refuses the socket of a role it fails, those before it are watched, those from it on are as they were, and the flag stays off |
| TcpServers.CTCPStunThread.RunOnce | stunserver/server/tcpserver.cpp:371-424 | One turn keeps both invariants, whatever the kernel answers and whatever events are handed out. Listening sockets are left watched after it if and only if they were before or the poller refused one that another precedes, and then the same ones stay watched. Otherwise the count stays below the limit plus the listening sockets, and within the limit when the event's descriptor is still watched; it is always at most twice the limit. The event the poller hands out is dispatched so, the pipe's event alone ends the loop, the sweep follows if and only if 60 seconds have passed, and the connections closed are those of ConnectionAnswers.TurnCloses |
| TcpServers.CTCPStunThread.ThreadCleanup | stunserver/server/tcpserver.cpp:780-784 | Both tables end empty, every connection closed and back in the pool, only the listeners' descriptors open |
| TcpServers.CTCPStunThread.Run | stunserver/server/tcpserver.cpp:363-429 | The invariants hold over any number of turns, and the cleanup succeeds from any of them |

## Left out

- FastHash: node pointers are node numbers and an item's place in the array is its node number; tables used before InitTable and null arrays are not modelled. A write through the pointer that Lookup returns is the method Assign.
- PrimeSearch.FindPrime: integers are unbounded and the square root is the integer one, so neither 32-bit wrap-around nor rounding is modelled; table sizes are far below the limit.
- RateLimit.RateLimiter.RateCheckImpl: counts do not wrap at 64 bits, an address is a pair of words, the tracker is stored back once instead of field by field, and the lock is left out.
- Polling.CPoll.WaitForNextEvent: the kernel's answer is a function from descriptors to flags with the flag values of Linux.
- CEpoll: a wrapper over kernel state. The connection thread is proved against a poller that hands out batches as it does; the event property is not claimed for it.
- DataStreams.DataStream.Grow: running out of memory is not modelled, and setting a buffer's size beyond its allocation is excluded.
- StunReaders.CStunMessageReader.GetAttributeByIndex: not stated after a parse error, where the source still lists what the table holds of the refused message, possibly spans outside the stream.
- StunReaders.CStunMessageReader.GetAttributeByType: says nothing after a parse error, for the same reason.
- StunReaders.CStunMessageReader.GetResponsePort: not stated after a parse error, for the same reason.
- StunReaders.CStunMessageReader.GetChangeRequest: not stated after a parse error, for the same reason.
- StunReaders.CStunMessageReader.GetStringAttributeByType: not stated after a parse error, for the same reason.
- StunReaders.CStunMessageReader.GetXorMappedAddress: not stated after a parse error, for the same reason.
- StunReaders.CStunMessageReader.GetOtherAddress: not stated after a parse error, for the same reason.
- AddUnknownAttributes, AddPaddingAttribute, AddResponsePort: the first writes host byte order without padding for odd counts and is never reached by the handler, the others are like AddAttribute.
- AddRandomTransactionId: entropy is out of scope, ids are parameters.
- Legacy exact-length round trip: legacy attribute headers count the padding, so for legacy replies the results are well-formedness and the addresses.
- MessageHandlers.CStunRequestHandler.ValidateAuth: C strings are byte sequences cut at the first zero byte and at 64 bytes.
- ClientLogic.CStunClientTest.ReadResponse: reads the addresses for every kind of test, where the source reads them only for the tests that use them; the results are the same.
- ClientLogic.CStunClientLogic.GetNextMessage: the three test classes are one class with a kind, since their shared interface is virtual.
- TcpServers.CTCPStunThread.ReceiveBytesForConnection: a connection's reader and output buffer are represented by the bytes they hold; the reply to a message comes from a reader that is fed the whole message at once, which by chunk invariance is in the state of the connection's own reader. The rate limiter's answer is arbitrary; that every message is put to it is stated for AnswerMessage, where the messages are.
- ConnectionReplies.ClientsGetTheirReplies: when a descriptor is given to a new client its record starts again; what the client before it was sent is what held until then.
- TcpServers.CTCPStunThread.Run: the number of turns is a parameter, so it covers every finite run; listening-socket creation, thread start and stop are left out.
- The UDP socket threads, DNS, adapters, command line, configuration, logging and everything under `src/`: input, output and plumbing.
