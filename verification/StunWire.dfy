/** The STUN wire format: what the reader accepts, stated on whole byte strings, and what the builder's
    attributes look like on the wire. */
module StunWire {
  import opened Options
  import opened StunTypes

  // ---- attributes as they are written ----

  /** One attribute on the wire: `len` is the length its header declares, `data` the value with its padding. */
  datatype Wire = Wire(atype: u16, len: nat, data: seq<byte>)

  ghost predicate Formed(w: Wire) {
    w.len <= MAX_STUN_ATTRIBUTE_SIZE && |w.data| == w.len + Padding(w.len)
  }

  ghost predicate AllFormed(ws: seq<Wire>) {
    forall i | 0 <= i < |ws| :: Formed(ws[i])
  }

  function WireBytes(w: Wire): (s: seq<byte>)
    ensures |s| == 4 + |w.data|
  {
    BE16(w.atype) + BE16(w.len) + w.data
  }

  function Body(ws: seq<Wire>): seq<byte> {
    if ws == [] then [] else WireBytes(ws[0]) + Body(ws[1..])
  }

  lemma {:induction false} BodyAppend(a: seq<Wire>, b: seq<Wire>)
    ensures Body(a + b) == Body(a) + Body(b)
  {
    if a == [] {
      assert a + b == b;
    } else {
      assert (a + b)[1..] == a[1..] + b;
      BodyAppend(a[1..], b);
    }
  }

  lemma BodyOne(w: Wire)
    ensures Body([w]) == WireBytes(w)
  {
    assert [w][1..] == [];
  }

  lemma BodySnoc(ws: seq<Wire>, w: Wire)
    ensures Body(ws + [w]) == Body(ws) + WireBytes(w)
  {
    BodyAppend(ws, [w]);
    BodyOne(w);
  }

  lemma {:induction false} BodyAligned(ws: seq<Wire>)
    requires AllFormed(ws)
    ensures |Body(ws)| % 4 == 0
  {
    if ws != [] {
      assert Formed(ws[0]);
      BodyAligned(ws[1..]);
    }
  }

  /** A message: header with the length of the body, transaction id, attributes. */
  function Message(msgType: bv16, c: StunMessageClass, transid: TransactionId, body: seq<byte>): (s: seq<byte>)
    ensures |s| == STUN_HEADER_SIZE + |body|
  {
    BE16(MsgTypeField(msgType, c) as int) + BE16(|body| % 0x1_0000) + transid + body
  }

  // ---- attributes as they are read ----

  datatype StunAttribute = StunAttribute(attributeType: u16, size: u16, offset: u16)

  /** The first byte after an attribute and its padding. */
  function End(a: StunAttribute): (e: nat)
    ensures a.offset <= e
  {
    a.offset + a.size + Padding(a.size)
  }

  /** `a` is what the four header bytes before its offset say, and it fits. */
  ghost predicate Span(bytes: seq<byte>, a: StunAttribute) {
    && 4 <= a.offset && End(a) <= |bytes|
    && Read16(bytes, a.offset - 4) == a.attributeType
    && Read16(bytes, a.offset - 2) == a.size
  }

  /** Span number `i` begins where the one before it, or the header, ends. */
  ghost predicate TileAt(bytes: seq<byte>, start: nat, spans: seq<StunAttribute>, i: nat)
    requires i < |spans|
  {
    Span(bytes, spans[i]) && spans[i].offset == (if i == 0 then start else End(spans[i - 1])) + 4
  }

  ghost predicate Tiles(bytes: seq<byte>, start: nat, spans: seq<StunAttribute>) {
    && (forall i | 0 <= i < |spans| :: TileAt(bytes, start, spans, i))
    && (if spans == [] then start else End(spans[|spans| - 1])) == |bytes|
  }

  ghost predicate SmallSpans(spans: seq<StunAttribute>) {
    forall i | 0 <= i < |spans| :: spans[i].size <= MAX_STUN_ATTRIBUTE_SIZE
  }

  /** ReadBody from byte `pos` with `count` attributes already in the table: the attributes from there on. */
  function Walk(bytes: seq<byte>, pos: nat, count: nat): (r: Option<seq<StunAttribute>>)
    requires pos <= |bytes| < 0x1_0000
    decreases |bytes| - pos
  {
    if pos == |bytes| then Some([])
    else if pos + 4 > |bytes| then None
    else
      var size := Read16(bytes, pos + 2);
      var next := pos + 4 + size + Padding(size);
      if size > MAX_STUN_ATTRIBUTE_SIZE || count >= MAX_NUM_ATTRIBUTES || next > |bytes| then None
      else
        match Walk(bytes, next, count + 1)
        case None => None
        case Some(rest) => Some([StunAttribute(Read16(bytes, pos), size, pos + 4)] + rest)
  }

  /** Soundness: what the walk returns tiles the rest of the bytes. */
  lemma {:induction false} WalkSound(bytes: seq<byte>, pos: nat, count: nat)
    requires pos <= |bytes| < 0x1_0000 && count <= MAX_NUM_ATTRIBUTES
    ensures match Walk(bytes, pos, count)
            case None => true
            case Some(spans) =>
              Tiles(bytes, pos, spans) && count + |spans| <= MAX_NUM_ATTRIBUTES && SmallSpans(spans)
    decreases |bytes| - pos
  {
    if Walk(bytes, pos, count).Some? && pos < |bytes| {
      var size := Read16(bytes, pos + 2);
      var next := pos + 4 + size + Padding(size);
      WalkSound(bytes, next, count + 1);
      TilesFirst(bytes, StunAttribute(Read16(bytes, pos), size, pos + 4), Walk(bytes, next, count + 1).value);
    }
  }

  lemma TilesFirst(bytes: seq<byte>, a: StunAttribute, rest: seq<StunAttribute>)
    requires Span(bytes, a) && a.size <= MAX_STUN_ATTRIBUTE_SIZE
    requires Tiles(bytes, End(a), rest) && SmallSpans(rest)
    ensures Tiles(bytes, a.offset - 4, [a] + rest) && SmallSpans([a] + rest)
  {
    var spans, start := [a] + rest, a.offset - 4;
    forall i | 0 <= i < |spans| ensures TileAt(bytes, start, spans, i) {
      if i > 0 {
        assert TileAt(bytes, End(a), rest, i - 1);
      }
    }
  }

  /** Completeness and uniqueness: a tiling within the limits is what the walk returns. */
  lemma {:induction false} WalkComplete(bytes: seq<byte>, pos: nat, count: nat, spans: seq<StunAttribute>)
    requires pos <= |bytes| < 0x1_0000
    requires Tiles(bytes, pos, spans) && count + |spans| <= MAX_NUM_ATTRIBUTES && SmallSpans(spans)
    ensures Walk(bytes, pos, count) == Some(spans)
    decreases |spans|
  {
    if spans != [] {
      var rest := spans[1..];
      assert TileAt(bytes, pos, spans, 0);
      forall i | 0 <= i < |rest| ensures TileAt(bytes, End(spans[0]), rest, i) {
        assert TileAt(bytes, pos, spans, i + 1);
      }
      WalkComplete(bytes, End(spans[0]), count + 1, rest);
      assert spans == [spans[0]] + rest;
    }
  }

  // ---- headers and verdicts ----

  datatype ReaderState = HeaderNotRead | HeaderValidated | BodyValidated | ParseError

  function RawType(bytes: seq<byte>): bv16
    requires |bytes| >= STUN_HEADER_SIZE
  {
    Read16(bytes, 0) as bv16
  }

  function DeclaredLength(bytes: seq<byte>): u16
    requires |bytes| >= STUN_HEADER_SIZE
  {
    Read16(bytes, 2)
  }

  function TransactionIdOf(bytes: seq<byte>): TransactionId
    requires |bytes| >= STUN_HEADER_SIZE
  {
    bytes[4..20]
  }

  predicate IsLegacy(transid: TransactionId) {
    Read32(transid, 0) != STUN_COOKIE
  }

  predicate HeaderValid(bytes: seq<byte>, fAllowLegacy: bool)
    requires |bytes| >= STUN_HEADER_SIZE
  {
    && ZeroTopBits(RawType(bytes)) && DeclaredLength(bytes) % 4 == 0
    && (fAllowLegacy || !IsLegacy(TransactionIdOf(bytes)))
    && DeclaredLength(bytes) <= MAX_STUN_MESSAGE_SIZE
  }

  /** The attributes of a complete message, or nothing when its body does not parse. */
  function Attributes(bytes: seq<byte>): Option<seq<StunAttribute>>
    requires STUN_HEADER_SIZE <= |bytes| < 0x1_0000
  {
    Walk(bytes, STUN_HEADER_SIZE, 0)
  }

  /** The state a reader must be in after it was fed `bytes`, however they were cut. */
  function Verdict(bytes: seq<byte>, fAllowLegacy: bool): ReaderState {
    if |bytes| < STUN_HEADER_SIZE then HeaderNotRead
    else if !HeaderValid(bytes, fAllowLegacy) then ParseError
    else if |bytes| < STUN_HEADER_SIZE + DeclaredLength(bytes) then HeaderValidated
    else if |bytes| == STUN_HEADER_SIZE + DeclaredLength(bytes) && Attributes(bytes).Some? then BodyValidated
    else ParseError
  }

  /** HowManyBytesNeeded. */
  function Needed(bytes: seq<byte>, fAllowLegacy: bool): nat {
    match Verdict(bytes, fAllowLegacy)
    case HeaderNotRead => STUN_HEADER_SIZE - |bytes|
    case HeaderValidated => STUN_HEADER_SIZE + DeclaredLength(bytes) - |bytes|
    case _ => 0
  }

  /** A message is accepted exactly when its header is valid, its length is exact, and its body splits into at
      most 30 attributes of at most 780 bytes whose padded spans tile it. */
  lemma AcceptedIffTiled(bytes: seq<byte>, fAllowLegacy: bool)
    ensures Verdict(bytes, fAllowLegacy) == BodyValidated <==>
            && |bytes| >= STUN_HEADER_SIZE && HeaderValid(bytes, fAllowLegacy)
            && |bytes| == STUN_HEADER_SIZE + DeclaredLength(bytes)
            && exists spans ::
                 Tiles(bytes, STUN_HEADER_SIZE, spans) && |spans| <= MAX_NUM_ATTRIBUTES && SmallSpans(spans)
  {
    if |bytes| >= STUN_HEADER_SIZE && HeaderValid(bytes, fAllowLegacy)
       && |bytes| == STUN_HEADER_SIZE + DeclaredLength(bytes) {
      WalkSound(bytes, STUN_HEADER_SIZE, 0);
      if spans :| Tiles(bytes, STUN_HEADER_SIZE, spans) && |spans| <= MAX_NUM_ATTRIBUTES && SmallSpans(spans) {
        WalkComplete(bytes, STUN_HEADER_SIZE, 0, spans);
      }
    }
  }

  /** The attributes an accepted message is indexed with are that tiling, and there is no other. */
  lemma IndexedIsTiling(bytes: seq<byte>, fAllowLegacy: bool, spans: seq<StunAttribute>)
    requires Verdict(bytes, fAllowLegacy) == BodyValidated
    ensures Attributes(bytes) == Some(spans) <==>
            Tiles(bytes, STUN_HEADER_SIZE, spans) && |spans| <= MAX_NUM_ATTRIBUTES && SmallSpans(spans)
  {
    WalkSound(bytes, STUN_HEADER_SIZE, 0);
    if Tiles(bytes, STUN_HEADER_SIZE, spans) && |spans| <= MAX_NUM_ATTRIBUTES && SmallSpans(spans) {
      WalkComplete(bytes, STUN_HEADER_SIZE, 0, spans);
    }
  }

  /** The header, once there, never changes. */
  lemma HeaderStable(bytes: seq<byte>, more: seq<byte>, fAllowLegacy: bool)
    requires |bytes| >= STUN_HEADER_SIZE
    ensures HeaderValid(bytes + more, fAllowLegacy) == HeaderValid(bytes, fAllowLegacy)
    ensures DeclaredLength(bytes + more) == DeclaredLength(bytes)
    ensures RawType(bytes + more) == RawType(bytes)
    ensures TransactionIdOf(bytes + more) == TransactionIdOf(bytes)
  {
    assert (bytes + more)[4..20] == bytes[4..20];
  }

  /** Errors are final. */
  lemma ErrorIsFinal(bytes: seq<byte>, more: seq<byte>, fAllowLegacy: bool)
    requires Verdict(bytes, fAllowLegacy) == ParseError
    ensures Verdict(bytes + more, fAllowLegacy) == ParseError
  {
    HeaderStable(bytes, more, fAllowLegacy);
    if more == [] {
      assert bytes + more == bytes;
    }
  }

  /** Anything after a complete message is an error. */
  lemma TrailingBytesAreErrors(bytes: seq<byte>, more: seq<byte>, fAllowLegacy: bool)
    requires Verdict(bytes, fAllowLegacy) == BodyValidated && more != []
    ensures Verdict(bytes + more, fAllowLegacy) == ParseError
  {
    HeaderStable(bytes, more, fAllowLegacy);
  }

  /** A caller that never offers more than HowManyBytesNeeded asks for never overshoots: such a chunk is refused
      only for a bad header or for a complete body that does not parse. */
  lemma NeverTooMany(bytes: seq<byte>, more: seq<byte>, fAllowLegacy: bool)
    requires 0 < |more| <= Needed(bytes, fAllowLegacy)
    requires Verdict(bytes + more, fAllowLegacy) == ParseError
    ensures var all := bytes + more;
            |all| >= STUN_HEADER_SIZE &&
            (!HeaderValid(all, fAllowLegacy)
             || (|all| == STUN_HEADER_SIZE + DeclaredLength(all) && Attributes(all).None?))
  {
    if |bytes| >= STUN_HEADER_SIZE {
      HeaderStable(bytes, more, fAllowLegacy);
    }
  }

  /** While a message is incomplete, the bytes asked for are exactly those that end the stage it is in: with fewer the
      reader stays where it is, with as many it goes on, and with more it goes past the end of the stage. */
  lemma NeededEndsStage(bytes: seq<byte>, more: seq<byte>, fAllowLegacy: bool)
    requires Verdict(bytes, fAllowLegacy) == HeaderNotRead || Verdict(bytes, fAllowLegacy) == HeaderValidated
    ensures Verdict(bytes + more, fAllowLegacy) == Verdict(bytes, fAllowLegacy)
            <==> |more| < Needed(bytes, fAllowLegacy)
    ensures Verdict(bytes, fAllowLegacy) == HeaderValidated && |more| > Needed(bytes, fAllowLegacy) ==>
              Verdict(bytes + more, fAllowLegacy) == ParseError
  {
    if |bytes| >= STUN_HEADER_SIZE {
      HeaderStable(bytes, more, fAllowLegacy);
    }
  }

  // ---- the round trip ----

  /** Where the attributes of a body land when it starts at `pos`. */
  function Placed(ws: seq<Wire>, pos: nat): (spans: seq<StunAttribute>)
    requires pos + |Body(ws)| < 0x1_0000 && AllFormed(ws)
    ensures |spans| == |ws|
  {
    if ws == [] then [] else
      assert Formed(ws[0]);
      [StunAttribute(ws[0].atype, ws[0].len, pos + 4)] + Placed(ws[1..], pos + 4 + |ws[0].data|)
  }

  lemma WireHeader(pre: seq<byte>, w: Wire, post: seq<byte>)
    requires Formed(w)
    ensures var bytes := pre + WireBytes(w) + post;
            Read16(bytes, |pre|) == w.atype && Read16(bytes, |pre| + 2) == w.len
            && bytes[|pre| + 4..|pre| + 4 + |w.data|] == w.data
  {
    var bytes := pre + WireBytes(w) + post;
    assert bytes[|pre|..|pre| + 2] == BE16(w.atype);
    assert bytes[|pre| + 2..|pre| + 4] == BE16(w.len);
    BE16RoundTrip(bytes, |pre|, w.atype);
    BE16RoundTrip(bytes, |pre| + 2, w.len);
  }

  /** The walk takes the first written attribute and goes on behind it. */
  lemma WalkFirst(pre: seq<byte>, w: Wire, rest: seq<byte>, count: nat)
    requires Formed(w) && count < MAX_NUM_ATTRIBUTES && |pre| + 4 + |w.data| + |rest| < 0x1_0000
    ensures var bytes, next := pre + WireBytes(w) + rest, |pre| + 4 + |w.data|;
            Walk(bytes, |pre|, count) == match Walk(bytes, next, count + 1)
                                         case None => None
                                         case Some(spans) => Some([StunAttribute(w.atype, w.len, |pre| + 4)] + spans)
  {
    WireHeader(pre, w, rest);
  }

  /** The walk over a written body finds the attributes where they were placed. */
  lemma {:induction false} WalkBuilt(pre: seq<byte>, ws: seq<Wire>, count: nat)
    requires AllFormed(ws) && count + |ws| <= MAX_NUM_ATTRIBUTES
    requires |pre| + |Body(ws)| < 0x1_0000
    ensures Walk(pre + Body(ws), |pre|, count) == Some(Placed(ws, |pre|))
    decreases |ws|
  {
    if ws != [] {
      FirstOfBody(pre, ws);
      WalkBuilt(pre + WireBytes(ws[0]), ws[1..], count + 1);
      WalkFirst(pre, ws[0], Body(ws[1..]), count);
    } else {
      assert pre + Body(ws) == pre;
    }
  }

  /** Attribute `a` of a message is `w`: its type, its declared length and its bytes. */
  ghost predicate Carries(bytes: seq<byte>, a: StunAttribute, w: Wire) {
    && a.attributeType == w.atype && a.size == w.len
    && a.offset + |w.data| <= |bytes| && bytes[a.offset..a.offset + |w.data|] == w.data
  }

  lemma FirstOfBody(pre: seq<byte>, ws: seq<Wire>)
    requires AllFormed(ws) && ws != []
    ensures Formed(ws[0]) && AllFormed(ws[1..])
    ensures pre + WireBytes(ws[0]) + Body(ws[1..]) == pre + Body(ws)
  {
  }

  lemma FirstHolds(pre: seq<byte>, w: Wire, post: seq<byte>)
    requires Formed(w) && |pre| + 4 + |w.data| < 0x1_0000
    ensures Carries(pre + WireBytes(w) + post, StunAttribute(w.atype, w.len, |pre| + 4), w)
  {
    WireHeader(pre, w, post);
  }

  /** Index by index, a placed attribute has the type, declared length and bytes it was written with. */
  lemma {:induction false} PlacedHolds(pre: seq<byte>, ws: seq<Wire>, i: nat)
    requires AllFormed(ws) && |pre| + |Body(ws)| < 0x1_0000 && i < |ws|
    ensures Carries(pre + Body(ws), Placed(ws, |pre|)[i], ws[i])
    decreases |ws|
  {
    FirstOfBody(pre, ws);
    FirstHolds(pre, ws[0], Body(ws[1..]));
    if i > 0 {
      PlacedHolds(pre + WireBytes(ws[0]), ws[1..], i - 1);
    }
  }

  lemma AllPlacedHold(bytes: seq<byte>, pre: seq<byte>, ws: seq<Wire>)
    requires AllFormed(ws) && |bytes| < 0x1_0000 && bytes == pre + Body(ws)
    ensures forall i | 0 <= i < |ws| :: Carries(bytes, Placed(ws, |pre|)[i], ws[i])
  {
    forall i | 0 <= i < |ws| ensures Carries(bytes, Placed(ws, |pre|)[i], ws[i]) {
      PlacedHolds(pre, ws, i);
    }
  }

  lemma MessageHeader(msgType: bv16, c: StunMessageClass, transid: TransactionId, body: seq<byte>)
    requires |body| < 0x1_0000
    ensures var m := Message(msgType, c, transid, body);
            && RawType(m) == MsgTypeField(msgType, c) && DeclaredLength(m) == |body| && TransactionIdOf(m) == transid
            && m == m[..20] + body
  {
    var field := MsgTypeField(msgType, c);
    var m := Message(msgType, c, transid, body);
    assert m[0..2] == BE16(field as int) && m[2..4] == BE16(|body|) && m[4..20] == transid;
    BE16RoundTrip(m, 0, field as int);
    BE16RoundTrip(m, 2, |body|);
    AsBits(field);
  }

  /** What a built message contains, read back. */
  ghost predicate ReadsBack(m: seq<byte>, msgType: bv16, c: StunMessageClass, transid: TransactionId, ws: seq<Wire>)
    requires STUN_HEADER_SIZE <= |m| < 0x1_0000
  {
    && Normalized(RawType(m)) == msgType && ClassOf(RawType(m)) == c && TransactionIdOf(m) == transid
    && Attributes(m).Some? && |Attributes(m).value| == |ws|
    && forall i | 0 <= i < |ws| :: Carries(m, Attributes(m).value[i], ws[i])
  }

  /** The codec round trip: for every 12-bit method, class, transaction id and list of at most 30 attributes with a
      padded body of at most 800 bytes, the written message is accepted and reads back attribute by attribute. */
  lemma CodecRoundTrip(msgType: bv16, c: StunMessageClass, transid: TransactionId, ws: seq<Wire>, fAllowLegacy: bool)
    requires msgType & 0xf000 == 0
    requires AllFormed(ws) && |ws| <= MAX_NUM_ATTRIBUTES && |Body(ws)| <= MAX_STUN_MESSAGE_SIZE
    requires fAllowLegacy || !IsLegacy(transid)
    ensures var m := Message(msgType, c, transid, Body(ws));
            Verdict(m, fAllowLegacy) == BodyValidated && ReadsBack(m, msgType, c, transid, ws)
            && Attributes(m) == Some(Placed(ws, STUN_HEADER_SIZE))
  {
    var m := Message(msgType, c, transid, Body(ws));
    TypeFieldRoundTrip(msgType, c);
    MessageHeader(msgType, c, transid, Body(ws));
    BodyAligned(ws);
    WalkBuilt(m[..20], ws, 0);
    AllPlacedHold(m, m[..20], ws);
  }

  // ---- what is accepted is what can be written ----

  function WireOf(bytes: seq<byte>, a: StunAttribute): Wire
    requires End(a) <= |bytes|
  {
    Wire(a.attributeType, a.size, bytes[a.offset..End(a)])
  }

  predicate AllInside(bytes: seq<byte>, spans: seq<StunAttribute>) {
    forall i | 0 <= i < |spans| :: End(spans[i]) <= |bytes|
  }

  /** The attributes that a tiling cuts out of a message, from number `i` on. */
  function WiresFrom(bytes: seq<byte>, spans: seq<StunAttribute>, i: nat): (ws: seq<Wire>)
    requires i <= |spans| && AllInside(bytes, spans)
    ensures |ws| == |spans| - i
    decreases |spans| - i
  {
    if i == |spans| then [] else [WireOf(bytes, spans[i])] + WiresFrom(bytes, spans, i + 1)
  }

  function StartOf(start: nat, spans: seq<StunAttribute>, i: nat): nat
    requires i <= |spans|
  {
    if i == 0 then start else End(spans[i - 1])
  }

  lemma TilesInside(bytes: seq<byte>, start: nat, spans: seq<StunAttribute>)
    requires Tiles(bytes, start, spans)
    ensures AllInside(bytes, spans)
  {
    forall i | 0 <= i < |spans| ensures End(spans[i]) <= |bytes| {
      assert TileAt(bytes, start, spans, i);
    }
  }

  /** Writing them again gives the bytes back. */
  lemma {:induction false} WiresRebuild(bytes: seq<byte>, start: nat, spans: seq<StunAttribute>, i: nat)
    requires Tiles(bytes, start, spans) && SmallSpans(spans) && i <= |spans| && start <= |bytes|
    requires AllInside(bytes, spans)
    ensures AllFormed(WiresFrom(bytes, spans, i)) && StartOf(start, spans, i) <= |bytes|
    ensures Body(WiresFrom(bytes, spans, i)) == bytes[StartOf(start, spans, i)..]
    decreases |spans| - i
  {
    if i < |spans| {
      WiresRebuild(bytes, start, spans, i + 1);
      assert TileAt(bytes, start, spans, i);
      SpanBytes(bytes, spans[i]);
      PutInFront(WireOf(bytes, spans[i]), WiresFrom(bytes, spans, i + 1));
    }
  }

  lemma PutInFront(w: Wire, ws: seq<Wire>)
    requires Formed(w) && AllFormed(ws)
    ensures AllFormed([w] + ws) && Body([w] + ws) == WireBytes(w) + Body(ws)
  {
    assert ([w] + ws)[1..] == ws;
  }

  /** The bytes of one attribute, header and value. */
  lemma SpanBytes(bytes: seq<byte>, a: StunAttribute)
    requires Span(bytes, a)
    ensures bytes[a.offset - 4..]
            == WireBytes(WireOf(bytes, a)) + bytes[End(a)..]
  {
    ReadThenWrite(bytes, a.offset - 4);
    ReadThenWrite(bytes, a.offset - 2);
    FourParts(bytes, a.offset - 4, a.offset - 2, a.offset, End(a));
  }

  lemma ReadThenWrite(bytes: seq<byte>, at: nat)
    requires at + 2 <= |bytes|
    ensures BE16(Read16(bytes, at)) == bytes[at..at + 2]
  {
  }

  lemma FourParts<T>(s: seq<T>, a: nat, b: nat, c: nat, d: nat)
    requires a <= b <= c <= d <= |s|
    ensures s[a..] == s[a..b] + s[b..c] + s[c..d] + s[d..]
  {
  }

  /** A byte string is accepted if and only if some message within the limits is written that way: a 12-bit method, a
      class, a transaction id with the cookie unless legacy ones are allowed, and at most 30 attributes of at most 780
      bytes in a body of at most 800. */
  lemma AcceptedIffBuilt(bytes: seq<byte>, fAllowLegacy: bool)
    ensures Verdict(bytes, fAllowLegacy) == BodyValidated <==>
            exists msgType, c, transid, ws :: IsBuilt(bytes, fAllowLegacy, msgType, c, transid, ws)
  {
    if Verdict(bytes, fAllowLegacy) == BodyValidated {
      var ws := AcceptedIsBuilt(bytes, fAllowLegacy);
    }
    if msgType, c, transid, ws :| IsBuilt(bytes, fAllowLegacy, msgType, c, transid, ws) {
      CodecRoundTrip(msgType, c, transid, ws, fAllowLegacy);
    }
  }

  ghost predicate IsBuilt(bytes: seq<byte>, fAllowLegacy: bool, msgType: bv16, c: StunMessageClass,
                          transid: TransactionId, ws: seq<Wire>) {
    && msgType & 0xf000 == 0 && (fAllowLegacy || !IsLegacy(transid))
    && AllFormed(ws) && |ws| <= 30 && |Body(ws)| <= 800
    && bytes == Message(msgType, c, transid, Body(ws))
  }

  lemma AcceptedIsBuilt(bytes: seq<byte>, fAllowLegacy: bool) returns (ws: seq<Wire>)
    requires Verdict(bytes, fAllowLegacy) == BodyValidated
    ensures IsBuilt(bytes, fAllowLegacy, Normalized(RawType(bytes)), ClassOf(RawType(bytes)), TransactionIdOf(bytes),
                    ws)
  {
    WalkSound(bytes, STUN_HEADER_SIZE, 0);
    var spans := Attributes(bytes).value;
    TilesInside(bytes, STUN_HEADER_SIZE, spans);
    WiresRebuild(bytes, STUN_HEADER_SIZE, spans, 0);
    ws := WiresFrom(bytes, spans, 0);
    HeaderRebuilds(bytes);
  }

  lemma HeaderRebuilds(bytes: seq<byte>)
    requires STUN_HEADER_SIZE <= |bytes| < 0x1_0000 && ZeroTopBits(RawType(bytes))
    requires |bytes| == STUN_HEADER_SIZE + DeclaredLength(bytes)
    ensures Normalized(RawType(bytes)) & 0xf000 == 0
    ensures bytes == Message(Normalized(RawType(bytes)), ClassOf(RawType(bytes)), TransactionIdOf(bytes), bytes[20..])
  {
    FieldTypeRoundTrip(RawType(bytes));
    AsNumber(Read16(bytes, 0));
    ReadThenWrite(bytes, 0);
    ReadThenWrite(bytes, 2);
    HeaderParts(bytes, BE16(Read16(bytes, 0)), BE16(DeclaredLength(bytes)));
  }

  lemma HeaderParts(bytes: seq<byte>, t: seq<byte>, len: seq<byte>)
    requires |bytes| >= 20 && t == bytes[0..2] && len == bytes[2..4]
    ensures bytes == t + len + bytes[4..20] + bytes[20..]
  {
    FourParts(bytes, 0, 2, 4, 20);
  }
}
