/** What the reader's two checks accept, exactly: which messages validate under a key, and which carry a matching
    fingerprint. */
module StunValidation {
  import opened StunTypes
  import opened StunWire
  import opened StunIntegrity

  lemma RebuiltIs(msgType: bv16, c: StunMessageClass, transid: TransactionId, body: seq<byte>, w: Wire, tail: seq<byte>,
                  fAdjust: bool)
    requires |w.data| == 20 && |body| + 24 + |tail| < 0x1_0000
    ensures var all := body + WireBytes(w) + tail;
            var m, a := Message(msgType, c, transid, all), StunAttribute(w.atype, 20, STUN_HEADER_SIZE + |body| + 4);
            && Rebuilt(m, a, fAdjust) == Draft(msgType, c, if fAdjust then |all| - 8 else |all|, transid, body)
            && m[a.offset..a.offset + 20] == w.data
  {
    var all := body + WireBytes(w) + tail;
    var m := Message(msgType, c, transid, all);
    MessageSlices(msgType, c, transid, body, w, tail);
    var a := StunAttribute(w.atype, 20, STUN_HEADER_SIZE + |body| + 4);
    RebuiltFrom(m, a, fAdjust, |all|);
    Associate(m[..2], BE16(if fAdjust then |all| - 8 else |all|), transid, body);
  }

  /** The hash the reader compares with, when the integrity attribute `w` stands behind `body`. */
  lemma HashesAtIff(msgType: bv16, c: StunMessageClass, transid: TransactionId, body: seq<byte>, w: Wire,
                    tail: seq<byte>, fAdjust: bool, key: seq<byte>, crypto: Crypto)
    requires |w.data| == 20 && |body| + 24 + |tail| < 0x1_0000
    ensures var all := body + WireBytes(w) + tail;
            var m, a := Message(msgType, c, transid, all), StunAttribute(w.atype, 20, STUN_HEADER_SIZE + |body| + 4);
            HashesAt(m, a, fAdjust, key, crypto) <==>
            w.data == crypto.hmac(key, Draft(msgType, c, if fAdjust then |all| - 8 else |all|, transid, body))
  {
    RebuiltIs(msgType, c, transid, body, w, tail, fAdjust);
  }

  /** Where the integrity attribute stands decides what is hashed. */
  lemma HoldsAt(m: seq<byte>, spans: seq<StunAttribute>, mi: nat, fAdjust: bool, key: seq<byte>, crypto: Crypto)
    requires STUN_HEADER_SIZE <= |m| && mi < |spans| && LastIndex(spans, STUN_ATTRIBUTE_MESSAGEINTEGRITY) == mi
    requires if fAdjust then mi == |spans| - 2 && LastIndex(spans, STUN_ATTRIBUTE_FINGERPRINT) == |spans| - 1
             else mi == |spans| - 1
    ensures IntegrityHolds(m, spans, key, crypto) <==>
            key != [] && spans[mi].size == 20 && HashesAt(m, spans[mi], fAdjust, key, crypto)
  {
  }

  /** Attribute number `i` is an integrity attribute with the hash of what precedes it, under a header that declares the
      length `len`. */
  ghost predicate IsHash(msgType: bv16, c: StunMessageClass, transid: TransactionId, ws: seq<Wire>, i: nat, len: nat,
                         key: seq<byte>, crypto: Crypto)
    requires i < |ws|
  {
    && ws[i].atype == 0x0008 && ws[i].len == 20
    && ws[i].data == crypto.hmac(key, Draft(msgType, c, len, transid, Body(ws[..i])))
  }

  lemma FrontFits(ws: seq<Wire>)
    requires Fits(ws) && ws != []
    ensures var front, w := ws[..|ws| - 1], ws[|ws| - 1];
            && Fits(front) && Formed(w) && ws == front + [w] && Body(ws) == Body(front) + WireBytes(w)
            && Placed(ws, STUN_HEADER_SIZE)
               == Placed(front, STUN_HEADER_SIZE)
                  + [StunAttribute(w.atype, w.len, STUN_HEADER_SIZE + |Body(front)| + 4)]
  {
    var front, w := ws[..|ws| - 1], ws[|ws| - 1];
    assert ws == front + [w];
    assert AllFormed(front) && Formed(w);
    BodySnoc(front, w);
    FitsSnoc(front, w);
  }

  lemma LastIsHash(msgType: bv16, c: StunMessageClass, transid: TransactionId, ws: seq<Wire>, key: seq<byte>,
                   crypto: Crypto)
    requires Fits(ws) && ws != [] && ws[|ws| - 1].atype == 0x0008
    ensures IntegrityHolds(Message(msgType, c, transid, Body(ws)), Placed(ws, STUN_HEADER_SIZE), key, crypto) <==>
            key != [] && IsHash(msgType, c, transid, ws, |ws| - 1, |Body(ws)|, key, crypto)
  {
    var front, w := ws[..|ws| - 1], ws[|ws| - 1];
    FrontFits(ws);
    var mi := StunAttribute(w.atype, w.len, STUN_HEADER_SIZE + |Body(front)| + 4);
    if w.len == 20 {
      SizedLikeDeclared(w);
      LastHolds(msgType, c, transid, Body(front), w, Body(ws), Placed(front, STUN_HEADER_SIZE), mi, key, crypto);
    } else {
      LastIndexSnoc(Placed(front, STUN_HEADER_SIZE), mi, STUN_ATTRIBUTE_MESSAGEINTEGRITY);
    }
  }

  lemma LastHolds(msgType: bv16, c: StunMessageClass, transid: TransactionId, body: seq<byte>, w: Wire, all: seq<byte>,
                  spans: seq<StunAttribute>, mi: StunAttribute, key: seq<byte>, crypto: Crypto)
    requires |w.data| == 20 && all == body + WireBytes(w) && |all| < 0x1_0000 && w.atype == 0x0008
    requires mi == StunAttribute(w.atype, 20, STUN_HEADER_SIZE + |body| + 4)
    ensures IntegrityHolds(Message(msgType, c, transid, all), spans + [mi], key, crypto) <==>
            key != [] && w.data == crypto.hmac(key, Draft(msgType, c, |all|, transid, body))
  {
    LastIndexSnoc(spans, mi, STUN_ATTRIBUTE_MESSAGEINTEGRITY);
    HoldsAt(Message(msgType, c, transid, all), spans + [mi], |spans|, false, key, crypto);
    assert body + WireBytes(w) + [] == all;
    HashesAtIff(msgType, c, transid, body, w, [], false, key, crypto);
  }

  lemma SecondIsHash(msgType: bv16, c: StunMessageClass, transid: TransactionId, ws: seq<Wire>, key: seq<byte>,
                     crypto: Crypto)
    requires Fits(ws) && |ws| >= 2 && ws[|ws| - 2].atype == 0x0008 && ws[|ws| - 1].atype == 0x8028
    ensures IntegrityHolds(Message(msgType, c, transid, Body(ws)), Placed(ws, STUN_HEADER_SIZE), key, crypto) <==>
            key != [] && IsHash(msgType, c, transid, ws, |ws| - 2, |Body(ws)| - 8, key, crypto)
  {
    var front, w, f := ws[..|ws| - 2], ws[|ws| - 2], ws[|ws| - 1];
    var mi, fp := LastTwo(ws);
    if w.len == 20 {
      SizedLikeDeclared(w);
      HashHolds(msgType, c, transid, Body(front), w, WireBytes(f), Placed(front, STUN_HEADER_SIZE), mi, fp, key,
                crypto);
    } else {
      SecondHolds(Message(msgType, c, transid, Body(ws)), Placed(front, STUN_HEADER_SIZE), mi, fp, key, crypto);
    }
  }

  lemma SizedLikeDeclared(w: Wire)
    requires Formed(w) && (w.len == 20 || w.len == 4)
    ensures |w.data| == w.len
  {
  }

  lemma HashHolds(msgType: bv16, c: StunMessageClass, transid: TransactionId, body: seq<byte>, w: Wire, tail: seq<byte>,
                  spans: seq<StunAttribute>, mi: StunAttribute, fp: StunAttribute, key: seq<byte>, crypto: Crypto)
    requires |w.data| == 20 && |body| + 24 + |tail| < 0x1_0000 && w.atype == 0x0008 && fp.attributeType == 0x8028
    requires mi == StunAttribute(w.atype, 20, STUN_HEADER_SIZE + |body| + 4)
    ensures var all := body + WireBytes(w) + tail;
            IntegrityHolds(Message(msgType, c, transid, all), spans + [mi] + [fp], key, crypto) <==>
            key != [] && w.data == crypto.hmac(key, Draft(msgType, c, |all| - 8, transid, body))
  {
    SecondHolds(Message(msgType, c, transid, body + WireBytes(w) + tail), spans, mi, fp, key, crypto);
    HashesAtIff(msgType, c, transid, body, w, tail, true, key, crypto);
  }

  lemma LastTwo(ws: seq<Wire>) returns (mi: StunAttribute, fp: StunAttribute)
    requires Fits(ws) && |ws| >= 2
    ensures var front, w, f := ws[..|ws| - 2], ws[|ws| - 2], ws[|ws| - 1];
            && Fits(front) && Formed(w) && Body(ws) == Body(front) + WireBytes(w) + WireBytes(f)
            && Placed(ws, STUN_HEADER_SIZE) == Placed(front, STUN_HEADER_SIZE) + [mi] + [fp]
            && mi == StunAttribute(w.atype, w.len, STUN_HEADER_SIZE + |Body(front)| + 4)
            && fp.attributeType == f.atype
  {
    var ws1 := ws[..|ws| - 1];
    FrontFits(ws);
    FrontFits(ws1);
    var front, w, f := ws[..|ws| - 2], ws[|ws| - 2], ws[|ws| - 1];
    assert ws1[..|ws1| - 1] == front;
    mi := StunAttribute(w.atype, w.len, STUN_HEADER_SIZE + |Body(front)| + 4);
    fp := StunAttribute(f.atype, f.len, STUN_HEADER_SIZE + |Body(ws1)| + 4);
  }

  lemma SecondHolds(m: seq<byte>, spans: seq<StunAttribute>, mi: StunAttribute, fp: StunAttribute, key: seq<byte>,
                    crypto: Crypto)
    requires STUN_HEADER_SIZE <= |m| && mi.attributeType == 0x0008 && fp.attributeType == 0x8028
    ensures IntegrityHolds(m, spans + [mi] + [fp], key, crypto) <==>
            key != [] && mi.size == 20 && HashesAt(m, mi, true, key, crypto)
  {
    LastIndexSnoc(spans, mi, STUN_ATTRIBUTE_MESSAGEINTEGRITY);
    LastIndexSnoc(spans + [mi], fp, STUN_ATTRIBUTE_MESSAGEINTEGRITY);
    LastIndexSnoc(spans + [mi], fp, STUN_ATTRIBUTE_FINGERPRINT);
    HoldsAt(m, spans + [mi] + [fp], |spans|, true, key, crypto);
  }

  /** The message validates under a key if and only if its last attribute is an integrity attribute, or the last but one
      is and a fingerprint follows, and it holds the hash of all that precedes it: with the declared length as it is, or
      without the eight bytes of a fingerprint. */
  lemma IntegrityHoldsIff(msgType: bv16, c: StunMessageClass, transid: TransactionId, ws: seq<Wire>, key: seq<byte>,
                          crypto: Crypto)
    requires Fits(ws)
    ensures IntegrityHolds(Message(msgType, c, transid, Body(ws)), Placed(ws, STUN_HEADER_SIZE), key, crypto) <==>
            && key != []
            && ((|ws| >= 1 && IsHash(msgType, c, transid, ws, |ws| - 1, |Body(ws)|, key, crypto))
                || (|ws| >= 2 && ws[|ws| - 1].atype == 0x8028 && |Body(ws)| >= 8
                    && IsHash(msgType, c, transid, ws, |ws| - 2, |Body(ws)| - 8, key, crypto)))
  {
    if |ws| >= 1 && ws[|ws| - 1].atype == 0x0008 {
      LastIsHash(msgType, c, transid, ws, key, crypto);
    } else if |ws| >= 2 && ws[|ws| - 2].atype == 0x0008 && ws[|ws| - 1].atype == 0x8028 {
      SecondIsHash(msgType, c, transid, ws, key, crypto);
    } else {
      Misplaced(msgType, c, transid, ws, key, crypto);
    }
  }

  lemma Misplaced(msgType: bv16, c: StunMessageClass, transid: TransactionId, ws: seq<Wire>, key: seq<byte>,
                  crypto: Crypto)
    requires Fits(ws) && (|ws| >= 1 ==> ws[|ws| - 1].atype != 0x0008)
    requires |ws| >= 2 && ws[|ws| - 1].atype == 0x8028 ==> ws[|ws| - 2].atype != 0x0008
    ensures !IntegrityHolds(Message(msgType, c, transid, Body(ws)), Placed(ws, STUN_HEADER_SIZE), key, crypto)
  {
    if |ws| >= 1 {
      FrontFits(ws);
      if |ws| >= 2 {
        FrontFits(ws[..|ws| - 1]);
      }
    }
  }

  /** A message that ends in a fingerprint attribute of four bytes carries a matching one if and only if they are the
      checksum of all that precedes the attribute, under the declared length, exclusive-ored with the constant. */
  lemma FingerprintHoldsIff(msgType: bv16, c: StunMessageClass, transid: TransactionId, ws: seq<Wire>, crypto: Crypto)
    requires Fits(ws) && ws != [] && ws[|ws| - 1].atype == 0x8028 && ws[|ws| - 1].len == 4
    ensures FingerprintHolds(Message(msgType, c, transid, Body(ws)), Placed(ws, STUN_HEADER_SIZE), crypto) <==>
            ws[|ws| - 1].data
            == BE32(XorFingerprint(crypto.crc32(Draft(msgType, c, |Body(ws)|, transid, Body(ws[..|ws| - 1])))))
  {
    var front, f := ws[..|ws| - 1], ws[|ws| - 1];
    FrontFits(ws);
    SizedLikeDeclared(f);
    ChecksumHolds(msgType, c, transid, Body(front), f, Body(ws), Placed(front, STUN_HEADER_SIZE), crypto);
  }

  lemma ChecksumHolds(msgType: bv16, c: StunMessageClass, transid: TransactionId, body: seq<byte>, f: Wire,
                      all: seq<byte>, spans: seq<StunAttribute>, crypto: Crypto)
    requires f.atype == 0x8028 && f.len == |f.data| == 4 && all == body + WireBytes(f) && |all| < 0x1_0000 - 24
    ensures var fp := StunAttribute(f.atype, f.len, STUN_HEADER_SIZE + |body| + 4);
            FingerprintHolds(Message(msgType, c, transid, all), spans + [fp], crypto) <==>
            f.data == BE32(XorFingerprint(crypto.crc32(Draft(msgType, c, |all|, transid, body))))
  {
    var fp := StunAttribute(f.atype, f.len, STUN_HEADER_SIZE + |body| + 4);
    LastIndexSnoc(spans, fp, STUN_ATTRIBUTE_FINGERPRINT);
    LastEight(msgType, c, transid, body, f);
    MatchIs(Message(msgType, c, transid, all), fp.offset, f.data, Draft(msgType, c, |all|, transid, body), crypto);
  }

  lemma MatchIs(m: seq<byte>, at: nat, data: seq<byte>, before: seq<byte>, crypto: Crypto)
    requires at + 4 <= |m| && |data| == 4 && m[at..at + 4] == data && 8 <= |m| && m[..|m| - 8] == before
    ensures XorFingerprint(crypto.crc32(m[..|m| - 8])) == Read32(m, at) <==>
            data == BE32(XorFingerprint(crypto.crc32(before)))
  {
    ReadIs(m, at, data, XorFingerprint(crypto.crc32(before)));
  }

  lemma ReadIs(m: seq<byte>, at: nat, data: seq<byte>, n: u32)
    requires at + 4 <= |m| && |data| == 4 && m[at..at + 4] == data
    ensures Read32(m, at) == n <==> data == BE32(n)
  {
    if data == BE32(n) {
      BE32RoundTrip(m, at, n);
    } else {
      WriteRead32(m, at);
    }
  }

  lemma WriteRead32(m: seq<byte>, at: nat)
    requires at + 4 <= |m|
    ensures BE32(Read32(m, at)) == m[at..at + 4]
  {
    ReadThenWrite(m, at);
    ReadThenWrite(m, at + 2);
    var hi: int, lo: int := Read16(m, at), Read16(m, at + 2);
    assert (hi * 0x1_0000 + lo) / 0x1_0000 == hi && (hi * 0x1_0000 + lo) % 0x1_0000 == lo;
    assert m[at..at + 2] + m[at + 2..at + 4] == m[at..at + 4];
  }
}
