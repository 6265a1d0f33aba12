/** Sequences of node numbers: the chains, the free list and the index of a FastHash table. */
module NodeChain {
  import opened Collections
  import opened EntryList

  ghost predicate InRange(s: seq<int>, n: nat) {
    forall i | 0 <= i < |s| :: 0 <= s[i] < n
  }

  /** The members of `ids` that hash to column `t`, in order. `columns` gives the column of every node. */
  ghost function Chain(columns: seq<nat>, ids: seq<int>, t: nat): (c: seq<int>)
    requires InRange(ids, |columns|)
  {
    if ids == [] then [] else
      (if columns[ids[0]] == t then [ids[0]] else []) + Chain(columns, ids[1..], t)
  }

  lemma {:induction false} ChainAppend(columns: seq<nat>, a: seq<int>, b: seq<int>, t: nat)
    requires InRange(a, |columns|) && InRange(b, |columns|)
    ensures InRange(a + b, |columns|)
    ensures Chain(columns, a + b, t) == Chain(columns, a, t) + Chain(columns, b, t)
  {
    if a == [] {
      assert a + b == b;
    } else {
      assert (a + b)[1..] == a[1..] + b;
      ChainAppend(columns, a[1..], b, t);
    }
  }

  lemma {:induction false} ChainMember(columns: seq<nat>, ids: seq<int>, t: nat, n: int)
    requires InRange(ids, |columns|)
    ensures n in Chain(columns, ids, t) <==> n in ids && columns[n] == t
  {
    if ids != [] {
      ChainMember(columns, ids[1..], t, n);
    }
  }

  lemma ChainMembers(columns: seq<nat>, ids: seq<int>, t: nat)
    requires InRange(ids, |columns|)
    ensures forall n :: n in Chain(columns, ids, t) <==> n in ids && columns[n] == t
    ensures InRange(Chain(columns, ids, t), |columns|)
  {
    forall n ensures n in Chain(columns, ids, t) <==> n in ids && columns[n] == t {
      ChainMember(columns, ids, t, n);
    }
    var c := Chain(columns, ids, t);
    forall i | 0 <= i < |c| ensures 0 <= c[i] < |columns| {
      assert c[i] in c;
    }
  }

  lemma {:induction false} ChainNoRepeats(columns: seq<nat>, ids: seq<int>, t: nat)
    requires InRange(ids, |columns|) && NoRepeats(ids)
    ensures NoRepeats(Chain(columns, ids, t))
  {
    if ids != [] {
      ChainNoRepeats(columns, ids[1..], t);
      ChainMember(columns, ids[1..], t, ids[0]);
    }
  }

  lemma {:induction false} ChainAgree(c0: seq<nat>, c1: seq<nat>, ids: seq<int>, t: nat)
    requires InRange(ids, |c0|) && InRange(ids, |c1|)
    requires forall i | 0 <= i < |ids| :: c0[ids[i]] == c1[ids[i]]
    ensures Chain(c0, ids, t) == Chain(c1, ids, t)
  {
    if ids != [] {
      ChainAgree(c0, c1, ids[1..], t);
    }
  }

  /** Dropping position `p` from `ids` drops one known position from one chain and none from the others. */
  lemma {:induction false} ChainWithout(columns: seq<nat>, ids: seq<int>, p: nat, t: nat)
    requires InRange(ids, |columns|) && p < |ids|
    ensures InRange(Without(ids, p), |columns|)
    ensures Chain(columns, ids[..p], t) <= Chain(columns, ids, t)
    ensures var chain, q := Chain(columns, ids, t), |Chain(columns, ids[..p], t)|;
            if columns[ids[p]] == t then
              q < |chain| && chain[q] == ids[p] && Chain(columns, Without(ids, p), t) == Without(chain, q)
            else
              Chain(columns, Without(ids, p), t) == chain
  {
    var a, b := ids[..p], ids[p + 1..];
    assert ids == a + ([ids[p]] + b);
    assert InRange([ids[p]] + b, |columns|);
    ChainAppend(columns, a, [ids[p]] + b, t);
    ChainAppend(columns, [ids[p]], b, t);
    ChainAppend(columns, a, b, t);
    assert [ids[p]][1..] == [];
  }

  lemma {:induction false} LengthIsCardinality(s: seq<int>)
    requires NoRepeats(s)
    ensures |set n | n in s| == |s|
  {
    if s == [] {
      assert (set n | n in s) == {};
    } else {
      LengthIsCardinality(s[1..]);
      assert (set n | n in s) == (set n | n in s[1..]) + {s[0]};
    }
  }

  lemma SameLength(a: seq<int>, b: seq<int>)
    requires NoRepeats(a) && NoRepeats(b) && forall n :: n in a <==> n in b
    ensures |a| == |b|
  {
    LengthIsCardinality(a);
    LengthIsCardinality(b);
    assert (set n | n in a) == (set n | n in b);
  }

  lemma SubsetLength(a: seq<int>, b: seq<int>)
    requires NoRepeats(a) && NoRepeats(b) && forall n | n in a :: n in b
    ensures |a| <= |b|
    ensures |a| == |b| ==> forall n | n in b :: n in a
  {
    LengthIsCardinality(a);
    LengthIsCardinality(b);
    var sa, sb := set n | n in a, set n | n in b;
    assert sa <= sb;
    SubsetSize(sa, sb);
    if |a| == |b| {
      forall n | n in b ensures n in a {
        assert n in sb;
      }
    }
  }

  lemma MembersWithout(s: seq<int>, p: nat)
    requires NoRepeats(s) && p < |s|
    ensures NoRepeats(Without(s, p))
    ensures forall n :: n in Without(s, p) <==> n in s && n != s[p]
  {
    var w := Without(s, p);
    forall n ensures n in w <==> n in s && n != s[p] {
      if n in s && n != s[p] {
        var j :| 0 <= j < |s| && s[j] == n;
        assert w[if j < p then j else j - 1] == n;
      }
    }
  }

  /** The items stored in the nodes of `s`. */
  ghost function ItemsAt<T>(nodes: seq<T>, s: seq<int>): seq<T>
    requires InRange(s, |nodes|)
  {
    seq(|s|, i requires 0 <= i < |s| => nodes[s[i]])
  }

  lemma ItemsWithout<T>(nodes: seq<T>, s: seq<int>, p: nat)
    requires InRange(s, |nodes|) && p < |s|
    ensures InRange(Without(s, p), |nodes|)
    ensures multiset(ItemsAt(nodes, s)) == multiset(ItemsAt(nodes, Without(s, p))) + multiset{nodes[s[p]]}
  {
    var a, b := ItemsAt(nodes, s[..p]), ItemsAt(nodes, s[p + 1..]);
    assert ItemsAt(nodes, s) == a + ([nodes[s[p]]] + b);
    assert ItemsAt(nodes, Without(s, p)) == a + b;
  }

  /** Two duplicate-free walks over the same nodes meet the same items the same number of times. */
  lemma {:induction false} SameItems<T>(nodes: seq<T>, a: seq<int>, b: seq<int>)
    requires InRange(a, |nodes|) && InRange(b, |nodes|)
    requires NoRepeats(a) && NoRepeats(b) && forall n :: n in a <==> n in b
    ensures multiset(ItemsAt(nodes, a)) == multiset(ItemsAt(nodes, b))
    decreases |a|
  {
    if a == [] {
      SameLength(a, b);
    } else {
      assert a[0] in b;
      var p :| 0 <= p < |b| && b[p] == a[0];
      MembersWithout(a, 0);
      MembersWithout(b, p);
      ItemsWithout(nodes, a, 0);
      ItemsWithout(nodes, b, p);
      SameItems(nodes, Without(a, 0), Without(b, p));
    }
  }

  /** The first node under `key` in its chain is the newest node under `key` anywhere. */
  lemma FirstInChain<K, V>(nodes: seq<Item<K, V>>, columns: seq<nat>, ids: seq<int>, es: seq<Item<K, V>>,
                           t: nat, key: K, q: nat)
    requires |nodes| == |columns| && InRange(ids, |nodes|) && |es| == |ids|
    requires InRange(Chain(columns, ids, t), |nodes|)
    requires forall i | 0 <= i < |ids| :: es[i] == nodes[ids[i]]
    requires forall i | 0 <= i < |ids| && es[i].key == key :: columns[ids[i]] == t
    requires q <= |Chain(columns, ids, t)|
    requires forall i | 0 <= i < q :: nodes[Chain(columns, ids, t)[i]].key != key
    requires q < |Chain(columns, ids, t)| ==> nodes[Chain(columns, ids, t)[q]].key == key
    ensures var p := Position(es, key);
            if p < |ids| then
              q == |Chain(columns, ids[..p], t)| < |Chain(columns, ids, t)| && Chain(columns, ids, t)[q] == ids[p]
            else
              q == |Chain(columns, ids, t)|
  {
    var p := Position(es, key);
    var chain := Chain(columns, ids, t);
    if p < |ids| {
      ChainWithout(columns, ids, p, t);
      var front := Chain(columns, ids[..p], t);
      ChainMembers(columns, ids[..p], t);
      forall i | 0 <= i < |front| ensures nodes[chain[i]].key != key {
        assert chain[i] == front[i];
        assert front[i] in ids[..p];
        var j :| 0 <= j < p && ids[j] == chain[i];
        assert es[j].key != key;
      }
    } else if q < |chain| {
      var n := chain[q];
      assert n in chain;
      ChainMember(columns, ids, t, n);
    }
  }

  // ---- linked lists over an array of next pointers ----

  const NIL := -1

  /** `s` is the list that starts at node `head` and follows `next`. */
  ghost predicate Linked(next: seq<int>, s: seq<int>, head: int) {
    && InRange(s, |next|)
    && head == (if s == [] then NIL else s[0])
    && forall i {:trigger next[s[i]]} | 0 <= i < |s| :: next[s[i]] == if i + 1 < |s| then s[i + 1] else NIL
  }

  /** Every column of the lookup table heads the list of live nodes that hash to it. */
  ghost predicate AllLinked(columns: seq<nat>, ids: seq<int>, next: seq<int>, table: seq<int>) {
    && |next| == |columns|
    && InRange(ids, |columns|)
    && forall t | 0 <= t < |table| :: Linked(next, Chain(columns, ids, t), table[t])
  }

  /** A node outside the list may be re-pointed. */
  lemma LinkedFrame(next: seq<int>, s: seq<int>, head: int, n: int, v: int)
    requires Linked(next, s, head) && 0 <= n < |next| && n !in s
    ensures Linked(next[n := v], s, head)
  {
  }

  lemma LinkedPush(next: seq<int>, s: seq<int>, head: int, n: int)
    requires Linked(next, s, head) && 0 <= n < |next| && n !in s
    ensures Linked(next[n := head], [n] + s, n)
  {
    var next1, s1 := next[n := head], [n] + s;
    forall i | 0 <= i < |s1| ensures next1[s1[i]] == if i + 1 < |s1| then s1[i + 1] else NIL {
      if i > 0 {
        assert next[s[i - 1]] == if i < |s| then s[i] else NIL;
      }
    }
  }

  /** The head of a list may be taken off and re-pointed. */
  lemma PopLinked(next: seq<int>, s: seq<int>, head: int, v: int)
    requires Linked(next, s, head) && NoRepeats(s) && s != []
    ensures Linked(next[head := v], s[1..], next[head])
  {
    LinkedWithout(next, s, head, 0);
    assert Without(s, 0) == s[1..];
    LinkedFrame(next, s[1..], next[head], head, v);
  }

  lemma FreshLinked(next: seq<int>, table: seq<int>, free: seq<int>, columns: seq<nat>)
    requires |next| == |free| == |columns| > 0
    requires forall x | 0 <= x < |next| :: next[x] == (if x + 1 < |next| then x + 1 else NIL) && free[x] == x
    requires forall t | 0 <= t < |table| :: table[t] == NIL
    ensures Linked(next, free, 0) && AllLinked(columns, [], next, table)
  {
  }

  /** Pushing a fresh node on column `col` keeps every column linked. */
  lemma InsertLinked(columns: seq<nat>, ids: seq<int>, next: seq<int>, table: seq<int>, n: int, col: nat)
    requires AllLinked(columns, ids, next, table)
    requires 0 <= n < |next| && n !in ids && col < |table|
    ensures AllLinked(columns[n := col], [n] + ids, next[n := table[col]], table[col := n])
  {
    var c1, next1, table1 := columns[n := col], next[n := table[col]], table[col := n];
    forall t | 0 <= t < |table| ensures Linked(next1, Chain(c1, [n] + ids, t), table1[t]) {
      InsertColumn(columns, ids, n, col, t);
      var before := Chain(columns, ids, t);
      if t == col {
        LinkedPush(next, before, table[t], n);
      } else {
        LinkedFrame(next, before, table[t], n, table[col]);
      }
    }
  }

  lemma InsertColumn(columns: seq<nat>, ids: seq<int>, n: int, col: nat, t: nat)
    requires InRange(ids, |columns|) && 0 <= n < |columns| && n !in ids
    ensures InRange([n] + ids, |columns|) && n !in Chain(columns, ids, t)
    ensures Chain(columns[n := col], [n] + ids, t) ==
            (if t == col then [n] else []) + Chain(columns, ids, t)
  {
    ChainAgree(columns, columns[n := col], ids, t);
    ChainMember(columns, ids, t, n);
    assert ([n] + ids)[1..] == ids;
  }

  /** `next1` and `table1` bypass position `p` of `ids`, which is position `q` of its own column. */
  ghost predicate Bypassed(columns: seq<nat>, ids: seq<int>, next: seq<int>, table: seq<int>, p: nat, q: nat,
                           next1: seq<int>, table1: seq<int>)
    requires AllLinked(columns, ids, next, table) && p < |ids|
  {
    var col := columns[ids[p]];
    var chain := Chain(columns, ids, col);
    && col < |table| && q == |Chain(columns, ids[..p], col)| < |chain|
    && (if q == 0 then next1 == next && table1 == table[col := next[ids[p]]]
        else 0 <= chain[q - 1] < |next| && next1 == next[chain[q - 1] := next[ids[p]]] && table1 == table)
  }

  lemma BypassOwn(columns: seq<nat>, ids: seq<int>, next: seq<int>, table: seq<int>, p: nat, q: nat,
                  next1: seq<int>, table1: seq<int>)
    requires AllLinked(columns, ids, next, table) && NoRepeats(ids) && p < |ids|
    requires Bypassed(columns, ids, next, table, p, q, next1, table1)
    ensures InRange(Without(ids, p), |columns|)
    ensures var col := columns[ids[p]]; Linked(next1, Chain(columns, Without(ids, p), col), table1[col])
  {
    var col := columns[ids[p]];
    ChainWithout(columns, ids, p, col);
    ChainNoRepeats(columns, ids, col);
    LinkedWithout(next, Chain(columns, ids, col), table[col], q);
  }

  lemma BypassOther(columns: seq<nat>, ids: seq<int>, next: seq<int>, table: seq<int>, p: nat, q: nat,
                    next1: seq<int>, table1: seq<int>, t: nat)
    requires AllLinked(columns, ids, next, table) && NoRepeats(ids) && p < |ids|
    requires Bypassed(columns, ids, next, table, p, q, next1, table1) && t < |table| && t != columns[ids[p]]
    ensures InRange(Without(ids, p), |columns|)
    ensures Linked(next1, Chain(columns, Without(ids, p), t), table1[t])
  {
    var own := Chain(columns, ids, columns[ids[p]]);
    ChainWithout(columns, ids, p, t);
    if q > 0 {
      ChainMember(columns, ids, columns[ids[p]], own[q - 1]);
      ChainMember(columns, ids, t, own[q - 1]);
      LinkedFrame(next, Chain(columns, ids, t), table[t], own[q - 1], next[ids[p]]);
    }
  }

  /** Bypassing position `p` of `ids` in its own column keeps every column linked. */
  lemma RemoveLinked(columns: seq<nat>, ids: seq<int>, next: seq<int>, table: seq<int>, p: nat, q: nat,
                     next1: seq<int>, table1: seq<int>)
    requires AllLinked(columns, ids, next, table) && NoRepeats(ids) && p < |ids|
    requires Bypassed(columns, ids, next, table, p, q, next1, table1)
    ensures AllLinked(columns, Without(ids, p), next1, table1)
  {
    BypassOwn(columns, ids, next, table, p, q, next1, table1);
    forall t | 0 <= t < |table| ensures Linked(next1, Chain(columns, Without(ids, p), t), table1[t]) {
      if t != columns[ids[p]] {
        BypassOther(columns, ids, next, table, p, q, next1, table1, t);
      }
    }
  }

  lemma LinkedWithout(next: seq<int>, s: seq<int>, head: int, q: nat)
    requires Linked(next, s, head) && NoRepeats(s) && q < |s|
    ensures q == 0 ==> Linked(next, Without(s, q), next[s[q]])
    ensures q > 0 ==> Linked(next[s[q - 1] := next[s[q]]], Without(s, q), head)
  {
    var w := Without(s, q);
    if q > 0 {
      var next1 := next[s[q - 1] := next[s[q]]];
      forall i | 0 <= i < |w| ensures next1[w[i]] == if i + 1 < |w| then w[i + 1] else NIL {
        var j := if i < q then i else i + 1;
        assert w[i] == s[j];
        assert next[s[j]] == if j + 1 < |s| then s[j + 1] else NIL;
        assert next[s[q]] == if q + 1 < |s| then s[q + 1] else NIL;
      }
    } else {
      forall i | 0 <= i < |w| ensures next[w[i]] == if i + 1 < |w| then w[i + 1] else NIL {
        assert w[i] == s[i + 1];
        assert next[s[i + 1]] == if i + 2 < |s| then s[i + 2] else NIL;
      }
    }
  }

  /** A node that is not live may be re-pointed without disturbing any column. */
  lemma AllLinkedFrame(columns: seq<nat>, ids: seq<int>, next: seq<int>, table: seq<int>, n: int, v: int)
    requires AllLinked(columns, ids, next, table) && 0 <= n < |next| && n !in ids
    ensures AllLinked(columns, ids, next[n := v], table)
  {
    forall t | 0 <= t < |table| ensures Linked(next[n := v], Chain(columns, ids, t), table[t]) {
      ChainMember(columns, ids, t, n);
      LinkedFrame(next, Chain(columns, ids, t), table[t], n, v);
    }
  }

  /** The chains of the first `t` columns, one after the other: the order ReIndex visits the nodes in. */
  ghost function Flat(columns: seq<nat>, ids: seq<int>, t: nat): seq<int>
    requires InRange(ids, |columns|)
  {
    if t == 0 then [] else Flat(columns, ids, t - 1) + Chain(columns, ids, t - 1)
  }

  lemma NoRepeatsAppend(a: seq<int>, b: seq<int>)
    requires NoRepeats(a) && NoRepeats(b) && forall n | n in a :: n !in b
    ensures NoRepeats(a + b)
  {
    forall i, j | 0 <= i < j < |a + b| ensures (a + b)[i] != (a + b)[j] {
      if i < |a| <= j {
        assert a[i] in a && b[j - |a|] in b;
      }
    }
  }

  lemma {:induction false} FlatMembers(columns: seq<nat>, ids: seq<int>, t: nat)
    requires InRange(ids, |columns|) && NoRepeats(ids)
    ensures forall n :: n in Flat(columns, ids, t) <==> n in ids && columns[n] < t
    ensures NoRepeats(Flat(columns, ids, t))
    ensures |Flat(columns, ids, t)| <= |ids|
  {
    if t > 0 {
      FlatMembers(columns, ids, t - 1);
      ChainMembers(columns, ids, t - 1);
      ChainNoRepeats(columns, ids, t - 1);
      NoRepeatsAppend(Flat(columns, ids, t - 1), Chain(columns, ids, t - 1));
    }
    SubsetLength(Flat(columns, ids, t), ids);
  }

  lemma FlatStep(columns: seq<nat>, ids: seq<int>, t: nat)
    requires InRange(ids, |columns|) && NoRepeats(ids)
    ensures Flat(columns, ids, t + 1) == Flat(columns, ids, t) + Chain(columns, ids, t)
    ensures |Flat(columns, ids, t)| + |Chain(columns, ids, t)| <= |ids|
  {
    FlatMembers(columns, ids, t + 1);
  }
}
