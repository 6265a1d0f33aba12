/** MESSAGE-INTEGRITY and FINGERPRINT (sections 15.4 and 15.5 of RFC 5389): the bytes the builder hashes, the
    bytes the reader rebuilds, and their agreement for arbitrary hash functions. */
module StunIntegrity {
  import opened Options
  import opened StunTypes
  import opened StunWire

  // ---- the reader's side ----

  /** Index of the last attribute of a type, or -1. */
  function LastIndex(spans: seq<StunAttribute>, t: u16): (i: int)
    ensures -1 <= i < |spans|
    ensures i >= 0 ==> spans[i].attributeType == t
    ensures forall j | i < j < |spans| :: spans[j].attributeType != t
  {
    if spans == [] then -1
    else if spans[|spans| - 1].attributeType == t then |spans| - 1
    else LastIndex(spans[..|spans| - 1], t)
  }

  function LastOf(spans: seq<StunAttribute>, t: u16): (r: Option<StunAttribute>) {
    var i := LastIndex(spans, t);
    if i >= 0 then Some(spans[i]) else None
  }

  /** The bytes ValidateMessageIntegrity feeds to the HMAC: everything before the integrity attribute, with the
      length reduced by the eight bytes of a fingerprint when one follows. */
  function Rebuilt(bytes: seq<byte>, integrity: StunAttribute, fAdjust: bool): seq<byte>
    requires STUN_HEADER_SIZE <= |bytes| && 8 <= integrity.offset <= |bytes|
  {
    bytes[..2]
    + (if fAdjust then BE16((DeclaredLength(bytes) + 0x1_0000 - 8) % 0x1_0000) else bytes[2..4])
    + bytes[4..integrity.offset - 4]
  }

  ghost predicate IntegrityHolds(bytes: seq<byte>, spans: seq<StunAttribute>, key: seq<byte>, crypto: Crypto)
    requires STUN_HEADER_SIZE <= |bytes|
  {
    var last, mi := |spans| - 1, LastIndex(spans, STUN_ATTRIBUTE_MESSAGEINTEGRITY);
    && key != [] && mi >= 0 && spans[mi].size == 20
    && (mi == last || (mi == last - 1 && LastIndex(spans, STUN_ATTRIBUTE_FINGERPRINT) == last))
    && 8 <= spans[mi].offset && spans[mi].offset + 20 <= |bytes|
    && crypto.hmac(key, Rebuilt(bytes, spans[mi], mi == last - 1)) == bytes[spans[mi].offset..spans[mi].offset + 20]
  }

  ghost predicate FingerprintHolds(bytes: seq<byte>, spans: seq<StunAttribute>, crypto: Crypto)
    requires STUN_HEADER_SIZE <= |bytes|
  {
    var fp := LastIndex(spans, STUN_ATTRIBUTE_FINGERPRINT);
    && fp >= 0 && spans[fp].size == 4
    && spans[fp].offset + 4 <= |bytes|
    && XorFingerprint(crypto.crc32(bytes[..|bytes| - 8])) == Read32(bytes, spans[fp].offset)
  }

  /** Attributes of a tiling are aligned, so the reader may hash four bytes at a time. */
  lemma {:induction false} OffsetsAligned(bytes: seq<byte>, spans: seq<StunAttribute>, i: nat)
    requires Tiles(bytes, STUN_HEADER_SIZE, spans) && i < |spans|
    ensures spans[i].offset % 4 == 0 && spans[i].offset >= 24 && End(spans[i]) <= |bytes|
  {
    assert TileAt(bytes, STUN_HEADER_SIZE, spans, i);
    if i > 0 {
      OffsetsAligned(bytes, spans, i - 1);
    }
  }

  // ---- the builder's side ----

  /** A message whose length field holds `len`, right or wrong. */
  function Draft(msgType: bv16, c: StunMessageClass, len: nat, transid: TransactionId, body: seq<byte>): (s: seq<byte>)
    ensures |s| == STUN_HEADER_SIZE + |body|
  {
    BE16(MsgTypeField(msgType, c) as int) + BE16(len) + transid + body
  }

  /** FixLengthField. */
  function WithLength(m: seq<byte>): (r: seq<byte>)
    requires |m| >= STUN_HEADER_SIZE
    ensures |r| == |m|
  {
    m[..2] + BE16((|m| - STUN_HEADER_SIZE) % 0x1_0000) + m[4..]
  }

  /** AddMessageIntegrityImpl. */
  function WithIntegrity(m: seq<byte>, key: seq<byte>, crypto: Crypto): seq<byte> {
    var m1 := WithLength(m + WireBytes(Wire(STUN_ATTRIBUTE_MESSAGEINTEGRITY, 20, Zeros(20))));
    m1[..|m1| - 20] + crypto.hmac(key, m1[..|m1| - 24])
  }

  /** AddFingerprintAttribute, on a stream that is as long as a header once the attribute is appended. */
  function WithFingerprint(m: seq<byte>, crypto: Crypto): seq<byte>
    requires |m| + 8 >= STUN_HEADER_SIZE
  {
    var m1 := WithLength(m + WireBytes(Wire(STUN_ATTRIBUTE_FINGERPRINT, 4, BE32(0))));
    m1[..|m1| - 4] + BE32(XorFingerprint(crypto.crc32(m1[..|m1| - 8])))
  }

  function IntegrityWire(msgType: bv16, c: StunMessageClass, transid: TransactionId, body: seq<byte>,
                         key: seq<byte>, crypto: Crypto): Wire {
    Wire(STUN_ATTRIBUTE_MESSAGEINTEGRITY, 20,
         crypto.hmac(key, Draft(msgType, c, (|body| + 24) % 0x1_0000, transid, body)))
  }

  function FingerprintWire(msgType: bv16, c: StunMessageClass, transid: TransactionId, body: seq<byte>,
                           crypto: Crypto): Wire {
    Wire(STUN_ATTRIBUTE_FINGERPRINT, 4,
         BE32(XorFingerprint(crypto.crc32(Draft(msgType, c, (|body| + 8) % 0x1_0000, transid, body)))))
  }

  lemma DraftFixed(msgType: bv16, c: StunMessageClass, len: nat, transid: TransactionId, body: seq<byte>,
                   more: seq<byte>)
    ensures WithLength(Draft(msgType, c, len, transid, body) + more)
            == Draft(msgType, c, (|body| + |more|) % 0x1_0000, transid, body + more)
  {
    DraftJoin(msgType, c, len, transid, body, more);
    var n := (|body| + |more|) % 0x1_0000;
    ReplaceSecond(BE16(MsgTypeField(msgType, c) as int), BE16(len), BE16(n), transid, body + more);
  }

  lemma ReplaceSecond<T>(a: seq<T>, b: seq<T>, b1: seq<T>, c: seq<T>, d: seq<T>)
    ensures var m := a + b + c + d; m[..|a|] + b1 + m[|a| + |b|..] == a + b1 + c + d
  {
    var m := a + b + c + d;
    assert m[..|a|] == a;
    assert m[|a| + |b|..] == c + d;
  }

  lemma DraftJoin(msgType: bv16, c: StunMessageClass, len: nat, transid: TransactionId, body: seq<byte>,
                  more: seq<byte>)
    ensures Draft(msgType, c, len, transid, body + more) == Draft(msgType, c, len, transid, body) + more
  {
  }

  lemma DraftSplit(msgType: bv16, c: StunMessageClass, len: nat, transid: TransactionId, body: seq<byte>,
                   more: seq<byte>)
    ensures var d := Draft(msgType, c, len, transid, body + more);
            && d[..|d| - |more|] == Draft(msgType, c, len, transid, body)
            && d == Draft(msgType, c, len, transid, body) + more
  {
    DraftJoin(msgType, c, len, transid, body, more);
  }

  /** Fixing the length of a draft makes it a message. */
  lemma FixedIsMessage(msgType: bv16, c: StunMessageClass, len: nat, transid: TransactionId, body: seq<byte>)
    ensures WithLength(Draft(msgType, c, len, transid, body)) == Message(msgType, c, transid, body)
  {
    DraftFixed(msgType, c, len, transid, body, []);
    assert Draft(msgType, c, len, transid, body) + [] == Draft(msgType, c, len, transid, body);
    assert body + [] == body;
  }

  /** The back-patched message carries the HMAC of itself as it stood when the length already counted the
      integrity attribute. */
  lemma IntegrityIsWire(msgType: bv16, c: StunMessageClass, len: nat, transid: TransactionId, body: seq<byte>,
                        key: seq<byte>, crypto: Crypto)
    ensures WithIntegrity(Draft(msgType, c, len, transid, body), key, crypto)
            == Message(msgType, c, transid, body + WireBytes(IntegrityWire(msgType, c, transid, body, key, crypto)))
  {
    var blank := WireBytes(Wire(STUN_ATTRIBUTE_MESSAGEINTEGRITY, 20, Zeros(20)));
    var w := IntegrityWire(msgType, c, transid, body, key, crypto);
    var n := (|body| + 24) % 0x1_0000;
    DraftFixed(msgType, c, len, transid, body, blank);
    var m1 := Draft(msgType, c, n, transid, body + blank);
    DraftSplit(msgType, c, n, transid, body, blank);
    BackPatch(Draft(msgType, c, n, transid, body), STUN_ATTRIBUTE_MESSAGEINTEGRITY, Zeros(20), w.data);
    DraftSplit(msgType, c, n, transid, body, WireBytes(w));
  }

  lemma FingerprintIsWire(msgType: bv16, c: StunMessageClass, len: nat, transid: TransactionId, body: seq<byte>,
                          crypto: Crypto)
    ensures WithFingerprint(Draft(msgType, c, len, transid, body), crypto)
            == Message(msgType, c, transid, body + WireBytes(FingerprintWire(msgType, c, transid, body, crypto)))
  {
    var blank := WireBytes(Wire(STUN_ATTRIBUTE_FINGERPRINT, 4, BE32(0)));
    var w := FingerprintWire(msgType, c, transid, body, crypto);
    var n := (|body| + 8) % 0x1_0000;
    DraftFixed(msgType, c, len, transid, body, blank);
    DraftSplit(msgType, c, n, transid, body, blank);
    BackPatch(Draft(msgType, c, n, transid, body), STUN_ATTRIBUTE_FINGERPRINT, BE32(0), w.data);
    DraftSplit(msgType, c, n, transid, body, WireBytes(w));
  }

  /** Overwriting the value of the last attribute. */
  lemma BackPatch(m: seq<byte>, atype: u16, dummy: seq<byte>, value: seq<byte>)
    requires |dummy| == |value|
    ensures var m1 := m + WireBytes(Wire(atype, |dummy|, dummy));
            m1[..|m1| - |dummy|] + value == m + WireBytes(Wire(atype, |dummy|, value))
  {
    var m1 := m + WireBytes(Wire(atype, |dummy|, dummy));
    assert m1[..|m1| - |dummy|] == m + (BE16(atype) + BE16(|dummy|));
  }

  // ---- agreement ----

  lemma PlacedFirst(w: Wire, ws: seq<Wire>, pos: nat)
    requires Formed(w) && AllFormed(ws) && pos + 4 + |w.data| + |Body(ws)| < 0x1_0000
    ensures AllFormed([w] + ws) && Body([w] + ws) == WireBytes(w) + Body(ws)
    ensures Placed([w] + ws, pos) == [StunAttribute(w.atype, w.len, pos + 4)] + Placed(ws, pos + 4 + |w.data|)
  {
    assert ([w] + ws)[1..] == ws;
  }

  ghost predicate SnocHolds(ws: seq<Wire>, w: Wire, pos: nat)
    requires AllFormed(ws) && Formed(w) && pos + |Body(ws)| + 4 + |w.data| < 0x1_0000
  {
    && AllFormed(ws + [w]) && Body(ws + [w]) == Body(ws) + WireBytes(w)
    && Placed(ws + [w], pos) == Placed(ws, pos) + [StunAttribute(w.atype, w.len, pos + |Body(ws)| + 4)]
  }

  lemma SnocChain(x: Wire, rest: seq<Wire>, w: Wire)
    ensures [x] + (rest + [w]) == ([x] + rest) + [w]
    ensures WireBytes(x) + (Body(rest) + WireBytes(w)) == (WireBytes(x) + Body(rest)) + WireBytes(w)
  {
  }

  lemma SnocUnderFirst(x: Wire, rest: seq<Wire>, w: Wire, pos: nat)
    requires Formed(x) && AllFormed(rest) && Formed(w)
    requires pos + 4 + |x.data| + |Body(rest)| + 4 + |w.data| < 0x1_0000
    requires SnocHolds(rest, w, pos + 4 + |x.data|)
    ensures AllFormed([x] + rest) && |Body([x] + rest)| == 4 + |x.data| + |Body(rest)|
    ensures SnocHolds([x] + rest, w, pos)
  {
    SnocChain(x, rest, w);
    PlacedFirst(x, rest, pos);
    PlacedFirst(x, rest + [w], pos);
  }

  /** An attribute added at the end lands right behind the others and moves none of them. */
  lemma {:induction false} PlacedSnoc(ws: seq<Wire>, w: Wire, pos: nat)
    requires AllFormed(ws) && Formed(w) && pos + |Body(ws)| + 4 + |w.data| < 0x1_0000
    ensures SnocHolds(ws, w, pos)
    decreases |ws|
  {
    if ws == [] {
      PlacedFirst(w, [], pos);
      assert [] + [w] == [w] + [];
    } else {
      assert Formed(ws[0]);
      PlacedSnoc(ws[1..], w, pos + 4 + |ws[0].data|);
      SnocUnderFirst(ws[0], ws[1..], w, pos);
      assert [ws[0]] + ws[1..] == ws;
    }
  }

  lemma LastIndexSnoc(spans: seq<StunAttribute>, a: StunAttribute, t: u16)
    ensures LastIndex(spans + [a], t) == if a.attributeType == t then |spans| else LastIndex(spans, t)
  {
    assert (spans + [a])[..|spans|] == spans;
  }

  /** A written message within the limits, as the reader sees it. */
  lemma BuiltIsAccepted(msgType: bv16, c: StunMessageClass, transid: TransactionId, ws: seq<Wire>, fAllowLegacy: bool)
    requires msgType & 0xf000 == 0 && (fAllowLegacy || !IsLegacy(transid))
    requires AllFormed(ws) && |ws| <= MAX_NUM_ATTRIBUTES && |Body(ws)| <= MAX_STUN_MESSAGE_SIZE
    ensures var m := Message(msgType, c, transid, Body(ws));
            && Verdict(m, fAllowLegacy) == BodyValidated
            && Attributes(m) == Some(Placed(ws, STUN_HEADER_SIZE))
            && Tiles(m, STUN_HEADER_SIZE, Placed(ws, STUN_HEADER_SIZE))
  {
    CodecRoundTrip(msgType, c, transid, ws, fAllowLegacy);
    WalkSound(Message(msgType, c, transid, Body(ws)), STUN_HEADER_SIZE, 0);
  }

  lemma MiddleSlice<T>(x: seq<T>, y: seq<T>, z: seq<T>)
    ensures (x + y + z)[|x|..|x| + |y|] == y
  {
  }

  lemma RegroupBody<T>(x: seq<T>, t: seq<T>, b: seq<T>, r: seq<T>)
    ensures x + t + (b + r) == x + (t + b) + r
  {
  }

  lemma RegroupValue<T>(x: seq<T>, b: seq<T>, h: seq<T>, d: seq<T>, r: seq<T>)
    ensures x + (b + (h + d) + r) == (x + b + h) + d + r
  {
  }

  lemma FirstSlices<T>(a: seq<T>, b: seq<T>, c: seq<T>, d: seq<T>)
    ensures (a + b + c + d)[..|a|] == a && (a + b + c + d)[|a|..|a| + |b|] == b
  {
  }

  lemma HeaderSlices(msgType: bv16, c: StunMessageClass, transid: TransactionId, all: seq<byte>)
    ensures var m := Message(msgType, c, transid, all);
            m[..2] == BE16(MsgTypeField(msgType, c) as int) && m[2..4] == BE16(|all| % 0x1_0000)
  {
    FirstSlices(BE16(MsgTypeField(msgType, c) as int), BE16(|all| % 0x1_0000), transid, all);
  }

  lemma BodySlice(msgType: bv16, c: StunMessageClass, transid: TransactionId, body: seq<byte>, rest: seq<byte>)
    ensures Message(msgType, c, transid, body + rest)[4..STUN_HEADER_SIZE + |body|] == transid + body
  {
    var head := BE16(MsgTypeField(msgType, c) as int) + BE16(|body + rest| % 0x1_0000);
    RegroupBody(head, transid, body, rest);
    MiddleSlice(head, transid + body, rest);
  }

  lemma ValueSlice(msgType: bv16, c: StunMessageClass, transid: TransactionId, body: seq<byte>, w: Wire,
                   tail: seq<byte>)
    ensures var m := Message(msgType, c, transid, body + WireBytes(w) + tail); var at := STUN_HEADER_SIZE + |body| + 4;
            m[at..at + |w.data|] == w.data
  {
    var all := body + WireBytes(w) + tail;
    var head := BE16(MsgTypeField(msgType, c) as int) + BE16(|all| % 0x1_0000) + transid;
    var h := BE16(w.atype) + BE16(w.len);
    RegroupValue(head, body, h, w.data, tail);
    MiddleSlice(head + body + h, w.data, tail);
  }

  lemma MessageSlices(msgType: bv16, c: StunMessageClass, transid: TransactionId, body: seq<byte>, w: Wire,
                      tail: seq<byte>)
    requires |w.data| == 20
    ensures var all := body + WireBytes(w) + tail;
            var m, offset := Message(msgType, c, transid, all), STUN_HEADER_SIZE + |body| + 4;
            && m[..2] == BE16(MsgTypeField(msgType, c) as int) && m[2..4] == BE16(|all| % 0x1_0000)
            && m[4..offset - 4] == transid + body && m[offset..offset + 20] == w.data
  {
    HeaderSlices(msgType, c, transid, body + WireBytes(w) + tail);
    BodySlice(msgType, c, transid, body, WireBytes(w) + tail);
    assert body + (WireBytes(w) + tail) == body + WireBytes(w) + tail;
    ValueSlice(msgType, c, transid, body, w, tail);
  }

  /** The reader, meeting an integrity attribute right after `body`, rebuilds the draft the builder hashed,
      whether or not eight bytes of fingerprint follow. */
  lemma RebuiltIsHashed(msgType: bv16, c: StunMessageClass, transid: TransactionId, body: seq<byte>,
                        w: Wire, tail: seq<byte>)
    requires |w.data| == 20 && (|tail| == 0 || |tail| == 8) && |body| + 24 + |tail| < 0x1_0000
    ensures var m := Message(msgType, c, transid, body + WireBytes(w) + tail);
            var a := StunAttribute(w.atype, 20, STUN_HEADER_SIZE + |body| + 4);
            && Rebuilt(m, a, |tail| == 8) == Draft(msgType, c, |body| + 24, transid, body)
            && m[a.offset..a.offset + 20] == w.data
  {
    var all := body + WireBytes(w) + tail;
    var m := Message(msgType, c, transid, all);
    MessageSlices(msgType, c, transid, body, w, tail);
    var a := StunAttribute(w.atype, 20, STUN_HEADER_SIZE + |body| + 4);
    RebuiltFrom(m, a, |tail| == 8, |all|);
    Associate(m[..2], BE16(|body| + 24), transid, body);
  }

  lemma Associate<T>(a: seq<T>, b: seq<T>, c: seq<T>, d: seq<T>)
    ensures a + b + (c + d) == a + b + c + d
  {
  }

  /** What is rebuilt from a message that declares the length `n`. */
  lemma RebuiltFrom(m: seq<byte>, a: StunAttribute, fAdjust: bool, n: u16)
    requires STUN_HEADER_SIZE <= |m| && 8 <= a.offset <= |m| && m[2..4] == BE16(n) && (fAdjust ==> n >= 8)
    ensures Rebuilt(m, a, fAdjust) == m[..2] + BE16(if fAdjust then n - 8 else n) + m[4..a.offset - 4]
  {
    BE16RoundTrip(m, 2, n);
    assert fAdjust ==> (n + 0x1_0000 - 8) % 0x1_0000 == n - 8;
  }

  /** The hash of what is rebuilt stands at `a`. */
  ghost predicate HashesAt(m: seq<byte>, a: StunAttribute, fAdjust: bool, key: seq<byte>, crypto: Crypto) {
    && STUN_HEADER_SIZE <= |m| && 8 <= a.offset && a.offset + 20 <= |m|
    && crypto.hmac(key, Rebuilt(m, a, fAdjust)) == m[a.offset..a.offset + 20]
  }

  /** The masked checksum of all but the last eight bytes stands at `at`. */
  ghost predicate MatchesAt(m: seq<byte>, at: nat, crypto: Crypto) {
    && STUN_HEADER_SIZE <= |m| && at + 4 <= |m|
    && XorFingerprint(crypto.crc32(m[..|m| - 8])) == Read32(m, at)
  }

  /** The integrity attribute of a message carries the hash of what the reader rebuilds. */
  lemma CarriesHash(m: seq<byte>, msgType: bv16, c: StunMessageClass, transid: TransactionId, body: seq<byte>,
                    tail: seq<byte>, key: seq<byte>, crypto: Crypto)
    requires (|tail| == 0 || |tail| == 8) && |body| + 24 + |tail| < 0x1_0000
    requires var w := IntegrityWire(msgType, c, transid, body, key, crypto);
             m == Message(msgType, c, transid, body + WireBytes(w) + tail)
    ensures var a := StunAttribute(STUN_ATTRIBUTE_MESSAGEINTEGRITY, 20, STUN_HEADER_SIZE + |body| + 4);
            HashesAt(m, a, |tail| == 8, key, crypto)
  {
    var w := IntegrityWire(msgType, c, transid, body, key, crypto);
    assert (|body| + 24) % 0x1_0000 == |body| + 24;
    RebuiltIsHashed(msgType, c, transid, body, w, tail);
  }

  /** Where the integrity attribute may stand: last, or before a last fingerprint. */
  lemma IntegrityFrom(m: seq<byte>, spans: seq<StunAttribute>, mi: nat, fAdjust: bool, key: seq<byte>, crypto: Crypto)
    requires STUN_HEADER_SIZE <= |m| && key != [] && mi < |spans|
    requires LastIndex(spans, STUN_ATTRIBUTE_MESSAGEINTEGRITY) == mi && spans[mi].size == 20
    requires if fAdjust then mi == |spans| - 2 && LastIndex(spans, STUN_ATTRIBUTE_FINGERPRINT) == |spans| - 1
             else mi == |spans| - 1
    requires HashesAt(m, spans[mi], fAdjust, key, crypto)
    ensures IntegrityHolds(m, spans, key, crypto)
  {
  }

  ghost predicate Fits(ws: seq<Wire>) {
    AllFormed(ws) && |ws| <= MAX_NUM_ATTRIBUTES && |Body(ws)| <= MAX_STUN_MESSAGE_SIZE
  }

  lemma FitsSnoc(ws: seq<Wire>, w: Wire)
    requires AllFormed(ws) && Formed(w)
    requires |ws| + 1 <= MAX_NUM_ATTRIBUTES && |Body(ws)| + 4 + |w.data| <= MAX_STUN_MESSAGE_SIZE
    ensures Fits(ws + [w]) && Fits(ws) && Body(ws + [w]) == Body(ws) + WireBytes(w)
    ensures Placed(ws + [w], STUN_HEADER_SIZE)
            == Placed(ws, STUN_HEADER_SIZE) + [StunAttribute(w.atype, w.len, STUN_HEADER_SIZE + |Body(ws)| + 4)]
  {
    PlacedSnoc(ws, w, STUN_HEADER_SIZE);
  }

  lemma LastPlaced(ws: seq<Wire>, w: Wire) returns (a: StunAttribute)
    requires AllFormed(ws) && w.len == |w.data| && (w.len == 4 || w.len == 20)
    requires |ws| + 1 <= MAX_NUM_ATTRIBUTES && |Body(ws)| + 4 + w.len <= MAX_STUN_MESSAGE_SIZE
    ensures Fits(ws + [w]) && Body(ws + [w]) == Body(ws) + WireBytes(w)
    ensures Placed(ws + [w], STUN_HEADER_SIZE) == Placed(ws, STUN_HEADER_SIZE) + [a]
    ensures a == StunAttribute(w.atype, w.len, STUN_HEADER_SIZE + |Body(ws)| + 4)
  {
    FitsSnoc(ws, w);
    a := StunAttribute(w.atype, w.len, STUN_HEADER_SIZE + |Body(ws)| + 4);
  }

  lemma IntegrityLast(msgType: bv16, c: StunMessageClass, transid: TransactionId, ws: seq<Wire>,
                      key: seq<byte>, crypto: Crypto)
    requires key != [] && AllFormed(ws)
    requires |ws| + 1 <= MAX_NUM_ATTRIBUTES && |Body(ws)| + 24 <= MAX_STUN_MESSAGE_SIZE
    ensures var all := ws + [IntegrityWire(msgType, c, transid, Body(ws), key, crypto)];
            Fits(all) && Body(all) == Body(ws) + WireBytes(all[|ws|])
            && IntegrityHolds(Message(msgType, c, transid, Body(all)), Placed(all, STUN_HEADER_SIZE), key, crypto)
  {
    var body := Body(ws);
    var w := IntegrityWire(msgType, c, transid, body, key, crypto);
    var mi := LastPlaced(ws, w);
    var spans := Placed(ws, STUN_HEADER_SIZE);
    LastIndexSnoc(spans, mi, STUN_ATTRIBUTE_MESSAGEINTEGRITY);
    var m := Message(msgType, c, transid, body + WireBytes(w));
    assert body + WireBytes(w) + [] == body + WireBytes(w);
    CarriesHash(m, msgType, c, transid, body, [], key, crypto);
    IntegrityFrom(m, spans + [mi], |ws|, false, key, crypto);
  }

  lemma TwoLast(m: seq<byte>, spans: seq<StunAttribute>, mi: StunAttribute, fp: StunAttribute, key: seq<byte>,
                crypto: Crypto)
    requires mi.attributeType == STUN_ATTRIBUTE_MESSAGEINTEGRITY && fp.attributeType == STUN_ATTRIBUTE_FINGERPRINT
    requires STUN_HEADER_SIZE <= |m| && key != [] && mi.size == 20 && HashesAt(m, mi, true, key, crypto)
    ensures IntegrityHolds(m, spans + [mi] + [fp], key, crypto)
  {
    LastIndexSnoc(spans, mi, STUN_ATTRIBUTE_MESSAGEINTEGRITY);
    LastIndexSnoc(spans + [mi], fp, STUN_ATTRIBUTE_MESSAGEINTEGRITY);
    LastIndexSnoc(spans + [mi], fp, STUN_ATTRIBUTE_FINGERPRINT);
    IntegrityFrom(m, spans + [mi] + [fp], |spans|, true, key, crypto);
  }

  lemma IntegrityThenFingerprint(msgType: bv16, c: StunMessageClass, transid: TransactionId, ws: seq<Wire>,
                                 f: Wire, key: seq<byte>, crypto: Crypto)
    requires key != [] && AllFormed(ws) && f.atype == STUN_ATTRIBUTE_FINGERPRINT && f.len == |f.data| == 4
    requires |ws| + 2 <= MAX_NUM_ATTRIBUTES && |Body(ws)| + 32 <= MAX_STUN_MESSAGE_SIZE
    ensures var all := ws + [IntegrityWire(msgType, c, transid, Body(ws), key, crypto)] + [f];
            Fits(all)
            && IntegrityHolds(Message(msgType, c, transid, Body(all)), Placed(all, STUN_HEADER_SIZE), key, crypto)
  {
    var w := IntegrityWire(msgType, c, transid, Body(ws), key, crypto);
    var m := Message(msgType, c, transid, Body(ws) + WireBytes(w) + WireBytes(f));
    CarriesHash(m, msgType, c, transid, Body(ws), WireBytes(f), key, crypto);
    HashBeforeLast(msgType, c, transid, ws, w, f, key, crypto);
  }

  lemma HashBeforeLast(msgType: bv16, c: StunMessageClass, transid: TransactionId, ws: seq<Wire>, w: Wire, f: Wire,
                       key: seq<byte>, crypto: Crypto)
    requires key != [] && AllFormed(ws) && |ws| + 2 <= MAX_NUM_ATTRIBUTES && |Body(ws)| + 32 <= MAX_STUN_MESSAGE_SIZE
    requires w.atype == STUN_ATTRIBUTE_MESSAGEINTEGRITY && w.len == |w.data| == 20
    requires f.atype == STUN_ATTRIBUTE_FINGERPRINT && f.len == |f.data| == 4
    requires HashesAt(Message(msgType, c, transid, Body(ws) + WireBytes(w) + WireBytes(f)),
                      StunAttribute(STUN_ATTRIBUTE_MESSAGEINTEGRITY, 20, STUN_HEADER_SIZE + |Body(ws)| + 4),
                      true, key, crypto)
    ensures var all := ws + [w] + [f];
            Fits(all)
            && IntegrityHolds(Message(msgType, c, transid, Body(all)), Placed(all, STUN_HEADER_SIZE), key, crypto)
  {
    var mi, fp := BothPlaced(ws, w, f);
    var m := Message(msgType, c, transid, Body(ws) + WireBytes(w) + WireBytes(f));
    TwoLast(m, Placed(ws, STUN_HEADER_SIZE), mi, fp, key, crypto);
  }

  lemma BothPlaced(ws: seq<Wire>, w: Wire, f: Wire) returns (mi: StunAttribute, fp: StunAttribute)
    requires AllFormed(ws) && w.len == |w.data| == 20 && f.len == |f.data| == 4
    requires |ws| + 2 <= MAX_NUM_ATTRIBUTES && |Body(ws)| + 32 <= MAX_STUN_MESSAGE_SIZE
    ensures Fits(ws + [w] + [f]) && Body(ws + [w] + [f]) == Body(ws) + WireBytes(w) + WireBytes(f)
    ensures Placed(ws + [w] + [f], STUN_HEADER_SIZE) == Placed(ws, STUN_HEADER_SIZE) + [mi] + [fp]
    ensures mi == StunAttribute(w.atype, w.len, STUN_HEADER_SIZE + |Body(ws)| + 4) && fp.attributeType == f.atype
  {
    mi := LastPlaced(ws, w);
    fp := LastPlaced(ws + [w], f);
  }

  /** A fingerprint that was added last and matches. */
  lemma FingerprintFrom(m: seq<byte>, spans: seq<StunAttribute>, fp: StunAttribute, at: nat, crypto: Crypto)
    requires STUN_HEADER_SIZE <= |m| && fp.attributeType == STUN_ATTRIBUTE_FINGERPRINT && fp.size == 4
    requires fp.offset == at
    requires MatchesAt(m, at, crypto)
    ensures FingerprintHolds(m, spans + [fp], crypto)
  {
    LastIndexSnoc(spans, fp, STUN_ATTRIBUTE_FINGERPRINT);
  }

  lemma FingerprintLast(msgType: bv16, c: StunMessageClass, transid: TransactionId, ws: seq<Wire>, crypto: Crypto)
    requires AllFormed(ws) && |ws| + 1 <= MAX_NUM_ATTRIBUTES && |Body(ws)| + 8 <= MAX_STUN_MESSAGE_SIZE
    ensures var all := ws + [FingerprintWire(msgType, c, transid, Body(ws), crypto)];
            Fits(all) && Body(all) == Body(ws) + WireBytes(all[|ws|])
            && FingerprintHolds(Message(msgType, c, transid, Body(all)), Placed(all, STUN_HEADER_SIZE), crypto)
  {
    FingerprintMatches(msgType, c, transid, Body(ws), crypto);
    MatchIsLast(msgType, c, transid, ws, FingerprintWire(msgType, c, transid, Body(ws), crypto), crypto);
  }

  lemma MatchIsLast(msgType: bv16, c: StunMessageClass, transid: TransactionId, ws: seq<Wire>, f: Wire, crypto: Crypto)
    requires AllFormed(ws) && |ws| + 1 <= MAX_NUM_ATTRIBUTES && |Body(ws)| + 8 <= MAX_STUN_MESSAGE_SIZE
    requires f.atype == STUN_ATTRIBUTE_FINGERPRINT && f.len == |f.data| == 4
    requires MatchesAt(Message(msgType, c, transid, Body(ws) + WireBytes(f)), STUN_HEADER_SIZE + |Body(ws)| + 4, crypto)
    ensures Fits(ws + [f]) && Body(ws + [f]) == Body(ws) + WireBytes(f)
    ensures FingerprintHolds(Message(msgType, c, transid, Body(ws + [f])), Placed(ws + [f], STUN_HEADER_SIZE), crypto)
  {
    var fp := LastPlaced(ws, f);
    FingerprintFrom(Message(msgType, c, transid, Body(ws) + WireBytes(f)), Placed(ws, STUN_HEADER_SIZE), fp,
                    STUN_HEADER_SIZE + |Body(ws)| + 4, crypto);
  }

  /** Integrity round trip: for every key and every message within the limits, a message whose last attribute is
      the integrity the builder computed is accepted and validates under that key. */
  lemma IntegrityRoundTrip(msgType: bv16, c: StunMessageClass, transid: TransactionId, ws: seq<Wire>, len: nat,
                           key: seq<byte>, crypto: Crypto, fAllowLegacy: bool)
    requires msgType & 0xf000 == 0 && (fAllowLegacy || !IsLegacy(transid)) && key != []
    requires AllFormed(ws) && |ws| + 1 <= MAX_NUM_ATTRIBUTES && |Body(ws)| + 24 <= MAX_STUN_MESSAGE_SIZE
    ensures var m := WithIntegrity(Draft(msgType, c, len, transid, Body(ws)), key, crypto);
            Verdict(m, fAllowLegacy) == BodyValidated && IntegrityHolds(m, Attributes(m).value, key, crypto)
  {
    IntegrityIsWire(msgType, c, len, transid, Body(ws), key, crypto);
    IntegrityLast(msgType, c, transid, ws, key, crypto);
    BuiltIsAccepted(msgType, c, transid, ws + [IntegrityWire(msgType, c, transid, Body(ws), key, crypto)],
                    fAllowLegacy);
  }

  /** The same with a fingerprint after the integrity: the reader subtracts the fingerprint from the length, and
      both attributes validate. */
  lemma IntegrityAndFingerprintRoundTrip(
    msgType: bv16, c: StunMessageClass, transid: TransactionId, ws: seq<Wire>, len: nat,
    key: seq<byte>, crypto: Crypto, fAllowLegacy: bool)
    requires msgType & 0xf000 == 0 && (fAllowLegacy || !IsLegacy(transid)) && key != []
    requires AllFormed(ws) && |ws| + 2 <= MAX_NUM_ATTRIBUTES && |Body(ws)| + 32 <= MAX_STUN_MESSAGE_SIZE
    ensures var m := WithFingerprint(WithIntegrity(Draft(msgType, c, len, transid, Body(ws)), key, crypto), crypto);
            && Verdict(m, fAllowLegacy) == BodyValidated
            && IntegrityHolds(m, Attributes(m).value, key, crypto)
            && FingerprintHolds(m, Attributes(m).value, crypto)
  {
    IntegrityIsWire(msgType, c, len, transid, Body(ws), key, crypto);
    IntegrityLast(msgType, c, transid, ws, key, crypto);
    var ws1 := ws + [IntegrityWire(msgType, c, transid, Body(ws), key, crypto)];
    MessageIsDraft(msgType, c, transid, Body(ws1));
    FingerprintIsWire(msgType, c, |Body(ws1)|, transid, Body(ws1), crypto);
    FingerprintLast(msgType, c, transid, ws1, crypto);
    var f := FingerprintWire(msgType, c, transid, Body(ws1), crypto);
    IntegrityThenFingerprint(msgType, c, transid, ws, f, key, crypto);
    BuiltIsAccepted(msgType, c, transid, ws1 + [f], fAllowLegacy);
  }

  /** The bytes before the last attribute, and its value, in a message with a given fingerprint attribute. */
  lemma LastEight(msgType: bv16, c: StunMessageClass, transid: TransactionId, body: seq<byte>, f: Wire)
    requires |f.data| == 4 && |body| + 8 < 0x1_0000
    ensures var m := Message(msgType, c, transid, body + WireBytes(f));
            && |m| == STUN_HEADER_SIZE + |body| + 8 && m[..|m| - 8] == Draft(msgType, c, |body| + 8, transid, body)
            && m[STUN_HEADER_SIZE + |body| + 4..STUN_HEADER_SIZE + |body| + 8] == f.data
  {
    MessageIsDraft(msgType, c, transid, body + WireBytes(f));
    DraftSplit(msgType, c, |body| + 8, transid, body, WireBytes(f));
    DraftTail(msgType, c, |body| + 8, transid, body, f);
  }

  lemma FingerprintMatches(msgType: bv16, c: StunMessageClass, transid: TransactionId, body: seq<byte>, crypto: Crypto)
    requires |body| + 8 < 0x1_0000
    ensures var f := FingerprintWire(msgType, c, transid, body, crypto);
            MatchesAt(Message(msgType, c, transid, body + WireBytes(f)), STUN_HEADER_SIZE + |body| + 4, crypto)
  {
    var f := FingerprintWire(msgType, c, transid, body, crypto);
    var m := Message(msgType, c, transid, body + WireBytes(f));
    LastEight(msgType, c, transid, body, f);
    assert (|body| + 8) % 0x1_0000 == |body| + 8;
    BE32RoundTrip(m, STUN_HEADER_SIZE + |body| + 4, XorFingerprint(crypto.crc32(m[..|m| - 8])));
  }

  lemma MessageIsDraft(msgType: bv16, c: StunMessageClass, transid: TransactionId, body: seq<byte>)
    requires |body| < 0x1_0000
    ensures Message(msgType, c, transid, body) == Draft(msgType, c, |body|, transid, body)
  {
  }

  lemma DraftTail(msgType: bv16, c: StunMessageClass, len: nat, transid: TransactionId, body: seq<byte>, w: Wire)
    ensures var m, at := Draft(msgType, c, len, transid, body + WireBytes(w)), STUN_HEADER_SIZE + |body| + 4;
            m[at..at + |w.data|] == w.data
  {
    var head := Draft(msgType, c, len, transid, body) + (BE16(w.atype) + BE16(w.len));
    assert Draft(msgType, c, len, transid, body + WireBytes(w)) == head + w.data;
  }

  /** A fingerprint on its own validates too. */
  lemma FingerprintRoundTrip(msgType: bv16, c: StunMessageClass, transid: TransactionId, ws: seq<Wire>, len: nat,
                             crypto: Crypto, fAllowLegacy: bool)
    requires msgType & 0xf000 == 0 && (fAllowLegacy || !IsLegacy(transid))
    requires AllFormed(ws) && |ws| + 1 <= MAX_NUM_ATTRIBUTES && |Body(ws)| + 8 <= MAX_STUN_MESSAGE_SIZE
    ensures var m := WithFingerprint(Draft(msgType, c, len, transid, Body(ws)), crypto);
            Verdict(m, fAllowLegacy) == BodyValidated && FingerprintHolds(m, Attributes(m).value, crypto)
  {
    FingerprintIsWire(msgType, c, len, transid, Body(ws), crypto);
    FingerprintLast(msgType, c, transid, ws, crypto);
    BuiltIsAccepted(msgType, c, transid, ws + [FingerprintWire(msgType, c, transid, Body(ws), crypto)], fAllowLegacy);
  }
}
