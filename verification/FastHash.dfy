/** The fixed-size chained hash table of common/fasthash.h.

    Pointers to ItemNode are node numbers, with NIL for NULL: the node at position x of the array always
    carries index x. `ids` lists the live nodes newest first; the chain of column t is the part of `ids`
    that hashes to t, and every other node is on the free list. */
module FastHashTable {
  import opened Options
  import opened Collections
  import EL = EntryList
  import opened NodeChain
  import PrimeSearch

  type Item<K, V> = EL.Item<K, V>

  /** The source's `%` on sums of two in-range offsets. */
  lemma WrapOnce(a: nat, f: nat)
    requires f > 0 && a < 2 * f
    ensures a % f == if a < f then a else a - f
  {
    if a >= f {
      assert a == 1 * f + (a - f);
    }
  }

  /** The live nodes `ids` and the free nodes partition the table of `fsize` nodes. */
  ghost predicate Partition(ids: seq<int>, free: seq<int>, fsize: nat) {
    && InRange(ids, fsize) && InRange(free, fsize) && NoRepeats(ids) && NoRepeats(free)
    && (forall i, j | 0 <= i < |ids| && 0 <= j < |free| :: ids[i] != free[j])
    && |free| + |ids| == fsize
  }

  lemma PartitionInsert(ids: seq<int>, free: seq<int>, fsize: nat)
    requires Partition(ids, free, fsize) && free != []
    ensures Partition([free[0]] + ids, free[1..], fsize)
    ensures free[0] !in ids && 0 <= free[0] < fsize
  {
  }

  lemma PartitionRemove(ids: seq<int>, free: seq<int>, fsize: nat, p: nat)
    requires Partition(ids, free, fsize) && p < |ids|
    ensures Partition(EL.Without(ids, p), [ids[p]] + free, fsize)
  {
    MembersWithout(ids, p);
    var w := EL.Without(ids, p);
    forall i | 0 <= i < |w| ensures 0 <= w[i] < fsize && w[i] != ids[p] && w[i] !in free {
      assert w[i] in w;
      assert w[i] == ids[if i < p then i else i + 1];
    }
  }

  /** The entries are the items stored in the live nodes, and `columns` knows where each one hashes. */
  ghost predicate Stored<K(!new), V>(es: seq<Item<K, V>>, nodes: seq<Item<K, V>>, ids: seq<int>,
                                     columns: seq<nat>, hash: K -> nat, tsize: nat)
    requires tsize > 0
  {
    && |columns| == |nodes| && InRange(ids, |nodes|) && |es| == |ids|
    && (forall i | 0 <= i < |ids| :: es[i] == nodes[ids[i]] && columns[ids[i]] == hash(es[i].key) % tsize)
  }

  lemma StoredInsert<K(!new), V>(es: seq<Item<K, V>>, nodes: seq<Item<K, V>>, ids: seq<int>,
                                 columns: seq<nat>, hash: K -> nat, tsize: nat, n: int, item: Item<K, V>)
    requires tsize > 0 && Stored(es, nodes, ids, columns, hash, tsize)
    requires 0 <= n < |nodes| && n !in ids
    ensures Stored([item] + es, nodes[n := item], [n] + ids, columns[n := hash(item.key) % tsize], hash, tsize)
  {
  }

  lemma StoredRemove<K(!new), V>(es: seq<Item<K, V>>, nodes: seq<Item<K, V>>, ids: seq<int>,
                                 columns: seq<nat>, hash: K -> nat, tsize: nat, p: nat)
    requires tsize > 0 && Stored(es, nodes, ids, columns, hash, tsize) && p < |ids|
    ensures Stored(EL.Without(es, p), nodes, EL.Without(ids, p), columns, hash, tsize)
  {
  }

  /** What the circular index must satisfy when it is valid: `w` holds the live nodes, each once,
      and sits in `indexlist` from position `start` on. */
  ghost predicate IndexHolds(indexlist: seq<int>, start: nat, ids: seq<int>, w: seq<int>) {
    && start < |indexlist| && |w| == |ids| <= |indexlist|
    && NoRepeats(w)
    && (forall n :: n in w <==> n in ids)
    && (forall i | 0 <= i < |w| :: indexlist[(start + i) % |indexlist|] == w[i])
  }

  /** Appending at the end of the window overwrites no slot that is in use. */
  lemma IndexAdd(indexlist: seq<int>, start: nat, ids: seq<int>, w: seq<int>, n: int)
    requires IndexHolds(indexlist, start, ids, w) && n !in ids && |ids| < |indexlist|
    ensures IndexHolds(indexlist[(|w| + start) % |indexlist| := n], start, [n] + ids, w + [n])
  {
    var f := |indexlist|;
    var list1 := indexlist[(|w| + start) % f := n];
    WrapOnce(start + |w|, f);
    forall i | 0 <= i < |w + [n]| ensures list1[(start + i) % f] == (w + [n])[i] {
      WrapOnce(start + i, f);
      if i < |w| {
        assert indexlist[(start + i) % f] == w[i];
      }
    }
    assert n !in w;
  }

  lemma ShiftSlot(start: nat, i: nat, f: nat)
    requires start < f && i + 1 < f
    ensures ((start + 1) % f + i) % f == (start + (i + 1)) % f
  {
    WrapOnce(start + 1, f);
    WrapOnce((start + 1) % f + i, f);
    WrapOnce(start + (i + 1), f);
  }

  /** Dropping the first item of the window moves the start by one. */
  lemma IndexDropFirst(indexlist: seq<int>, start: nat, ids: seq<int>, w: seq<int>, p: nat)
    requires IndexHolds(indexlist, start, ids, w) && NoRepeats(ids) && p < |ids|
    requires ids[p] == w[0]
    ensures IndexHolds(indexlist, (start + 1) % |indexlist|, EL.Without(ids, p), w[1..])
  {
    var f := |indexlist|;
    var start1 := (start + 1) % f;
    MembersWithout(ids, p);
    MembersWithout(w, 0);
    assert EL.Without(w, 0) == w[1..];
    assert 0 <= start1 < f by {
      WrapOnce(start + 1, f);
    }
    forall i | 0 <= i < |w[1..]| ensures indexlist[(start1 + i) % f] == w[1..][i] {
      ShiftSlot(start, i, f);
      assert indexlist[(start + (i + 1)) % f] == w[i + 1];
    }
  }

  lemma IndexDropLast(indexlist: seq<int>, start: nat, ids: seq<int>, w: seq<int>, p: nat)
    requires IndexHolds(indexlist, start, ids, w) && NoRepeats(ids) && p < |ids|
    requires ids[p] == w[|w| - 1]
    ensures IndexHolds(indexlist, start, EL.Without(ids, p), w[..|w| - 1])
  {
    var w1 := w[..|w| - 1];
    MembersWithout(ids, p);
    MembersWithout(w, |w| - 1);
    assert EL.Without(w, |w| - 1) == w1;
    forall i | 0 <= i < |w1| ensures indexlist[(start + i) % |indexlist|] == w1[i] {
      assert indexlist[(start + i) % |indexlist|] == w[i];
    }
  }

  lemma ItemsInsert<T>(nodes: seq<T>, w: seq<int>, n: int, item: T)
    requires InRange(w, |nodes|) && n !in w && 0 <= n < |nodes|
    ensures InRange(w + [n], |nodes|)
    ensures ItemsAt(nodes[n := item], w + [n]) == ItemsAt(nodes, w) + [item]
  {
  }

  /** A snapshot of every field of a table, concrete and ghost. */
  datatype Table<!K, V> = Table(
    hash: K -> nat, nodes: seq<Item<K, V>>, next: seq<int>, heads: seq<int>, indexlist: seq<int>,
    freelist: int, fIndexValid: bool, indexStart: nat, size: nat,
    ids: seq<int>, free: seq<int>, window: seq<int>, columns: seq<nat>,
    entries: seq<Item<K, V>>, order: seq<Item<K, V>>)
  {
    ghost function Column(k: K): (t: nat)
      requires |heads| > 0
      ensures t < |heads|
    {
      hash(k) % |heads|
    }
  }

  /** The representation invariant. */
  ghost predicate Inv<K(!new), V>(t: Table<K, V>) {
    && |t.heads| > 0 && |t.nodes| == |t.next| == |t.indexlist| == |t.columns| > 0
    && t.size == |t.ids| && t.indexStart < |t.nodes|
    && Partition(t.ids, t.free, |t.nodes|)
    && Stored(t.entries, t.nodes, t.ids, t.columns, t.hash, |t.heads|)
    && Linked(t.next, t.free, t.freelist)
    && AllLinked(t.columns, t.ids, t.next, t.heads)
    && (t.fIndexValid ==>
          && IndexHolds(t.indexlist, t.indexStart, t.ids, t.window)
          && InRange(t.window, |t.nodes|)
          && t.order == ItemsAt(t.nodes, t.window))
  }

  /** The free list is empty exactly when every node is live. */
  lemma FreeListFacts<K(!new), V>(t: Table<K, V>)
    requires Inv(t)
    ensures t.freelist == NIL <==> t.size == |t.nodes|
    ensures t.freelist == NIL <==> t.free == []
    ensures t.size == |t.entries| <= |t.nodes|
  {
  }

  /** The first free node takes the item and heads its column. */
  ghost function NodeTaken<K(!new), V>(t: Table<K, V>, item: Item<K, V>): Table<K, V>
    requires |t.heads| > 0 && 0 <= t.freelist < |t.nodes| == |t.next| == |t.indexlist|
  {
    var n, col := t.freelist, t.Column(item.key);
    t.(nodes := t.nodes[n := item],
    next := t.next[n := t.heads[col]],
    heads := t.heads[col := n],
    freelist := t.next[n],
    indexlist := if t.fIndexValid then t.indexlist[(t.size + t.indexStart) % |t.nodes| := n] else t.indexlist,
    size := t.size + 1)
  }

  /** What Insert makes of a table with a free node. */
  ghost function Inserted<K(!new), V>(t: Table<K, V>, item: Item<K, V>): Table<K, V>
    requires Inv(t) && t.free != []
  {
    NodeTaken(t, item).(ids := [t.freelist] + t.ids, free := t.free[1..], window := t.window + [t.freelist],
    columns := t.columns[t.freelist := t.Column(item.key)],
    entries := [item] + t.entries, order := t.order + [item])
  }

  lemma InsertKeepsInv<K(!new), V>(t: Table<K, V>, item: Item<K, V>)
    requires Inv(t) && t.free != []
    ensures Inv(Inserted(t, item))
  {
    var n, col := t.freelist, t.Column(item.key);
    PartitionInsert(t.ids, t.free, |t.nodes|);
    StoredInsert(t.entries, t.nodes, t.ids, t.columns, t.hash, |t.heads|, n, item);
    InsertLinked(t.columns, t.ids, t.next, t.heads, n, col);
    PopLinked(t.next, t.free, t.freelist, t.heads[col]);
    if t.fIndexValid {
      IndexAdd(t.indexlist, t.indexStart, t.ids, t.window, n);
      ItemsInsert(t.nodes, t.window, n, item);
    }
  }

  /** An empty table. */
  lemma FreshInv<K(!new), V>(t: Table<K, V>)
    requires |t.heads| > 0 && |t.nodes| == |t.next| == |t.indexlist| == |t.columns| == |t.free| > 0
    requires forall x | 0 <= x < |t.next| ::
               t.next[x] == (if x + 1 < |t.next| then x + 1 else NIL) && t.free[x] == x
    requires forall c | 0 <= c < |t.heads| :: t.heads[c] == NIL
    requires t.freelist == 0 && t.size == 0 && t.indexStart == 0
    requires t.ids == [] && t.window == [] && t.entries == [] && t.order == []
    ensures Inv(t)
  {
    FreshLinked(t.next, t.heads, t.free, t.columns);
  }

  /** What UpdateIndexWithRemove does to the index when node `n` leaves: whether it is valid afterwards,
      where it starts and which nodes it lists. */
  ghost function IndexAfterRemove<K, V>(t: Table<K, V>, n: int): (bool, nat, seq<int>, seq<Item<K, V>>)
    requires |t.indexlist| > 0 && t.size > 0
    requires t.fIndexValid ==> |t.window| == |t.order| == t.size
  {
    if t.size == 1 then (true, 0, [], [])
    else if !t.fIndexValid then (false, t.indexStart, t.window, t.order)
    else if n == t.window[0] then (true, (t.indexStart + 1) % |t.indexlist|, t.window[1..], t.order[1..])
    else if n == t.window[t.size - 1] then
      (true, t.indexStart, t.window[..t.size - 1], t.order[..t.size - 1])
    else (false, t.indexStart, t.window, t.order)
  }

  /** What Remove makes of a table whose newest entry under the key is entry `p`, when `prev` precedes
      its node in the chain. */
  ghost function RemovedAt<K(!new), V>(t: Table<K, V>, p: nat, prev: int): Table<K, V>
    requires p < |t.ids| == |t.entries| == t.size && 0 <= t.ids[p] < |t.next| == |t.columns| == |t.indexlist|
    requires t.columns[t.ids[p]] < |t.heads| && (prev == NIL || 0 <= prev < |t.next|)
    requires t.fIndexValid ==> |t.window| == |t.order| == t.size
  {
    var n := t.ids[p];
    var col := t.columns[n];
    var (valid, start, window, order) := IndexAfterRemove(t, n);
    t.(next := (if prev == NIL then t.next else t.next[prev := t.next[n]])[n := t.freelist],
    heads := if prev == NIL then t.heads[col := t.next[n]] else t.heads,
    freelist := n, size := t.size - 1,
    fIndexValid := valid, indexStart := start, window := window, order := order,
    ids := EL.Without(t.ids, p), free := [n] + t.free, entries := EL.Without(t.entries, p))
  }

  /** `prev` precedes node ids[p] in its chain. */
  ghost predicate Precedes<K(!new), V>(t: Table<K, V>, p: nat, prev: int)
    requires InRange(t.ids, |t.columns|) && p < |t.ids|
  {
    var col := t.columns[t.ids[p]];
    var chain, q := Chain(t.columns, t.ids, col), |Chain(t.columns, t.ids[..p], col)|;
    q < |chain| && chain[q] == t.ids[p] && prev == (if q > 0 then chain[q - 1] else NIL)
  }

  lemma RemoveBounds<K(!new), V>(t: Table<K, V>, p: nat, prev: int)
    requires Inv(t) && p < |t.ids| && Precedes(t, p, prev)
    ensures |t.ids| == |t.entries| == t.size && 0 <= t.ids[p] < |t.next| == |t.columns| == |t.indexlist|
    ensures t.columns[t.ids[p]] < |t.heads|
    ensures t.fIndexValid ==> |t.window| == |t.order| == t.size
    ensures prev == NIL || (0 <= prev < |t.next| && prev in t.ids)
  {
    var col := t.columns[t.ids[p]];
    assert col == t.hash(t.entries[p].key) % |t.heads|;
    var chain := Chain(t.columns, t.ids, col);
    ChainMembers(t.columns, t.ids, col);
    if prev != NIL {
      assert prev in chain;
    }
  }

  lemma RemoveLinks<K(!new), V>(t: Table<K, V>, p: nat, prev: int)
    requires Inv(t) && p < |t.ids| && Precedes(t, p, prev)
    ensures |t.ids| == |t.entries| == t.size && 0 <= t.ids[p] < |t.next| == |t.columns| == |t.indexlist|
    ensures t.columns[t.ids[p]] < |t.heads| && (prev == NIL || 0 <= prev < |t.next|)
    ensures t.fIndexValid ==> |t.window| == |t.order| == t.size
    ensures var r := RemovedAt(t, p, prev);
            Linked(r.next, r.free, r.freelist) && AllLinked(r.columns, r.ids, r.next, r.heads)
  {
    RemoveBounds(t, p, prev);
    var n := t.ids[p];
    var col := t.columns[n];
    var chain, q := Chain(t.columns, t.ids, col), |Chain(t.columns, t.ids[..p], col)|;
    ChainWithout(t.columns, t.ids, p, col);
    var r := RemovedAt(t, p, prev);
    var next1 := if q == 0 then t.next else t.next[prev := t.next[n]];
    ChainMembers(t.columns, t.ids, col);
    RemoveLinked(t.columns, t.ids, t.next, t.heads, p, q, next1, r.heads);
    MembersWithout(t.ids, p);
    AllLinkedFrame(t.columns, r.ids, next1, r.heads, n, t.freelist);
    if q > 0 {
      LinkedFrame(t.next, t.free, t.freelist, prev, t.next[n]);
    }
    LinkedPush(next1, t.free, t.freelist, n);
  }

  lemma RemoveIndex<K(!new), V>(t: Table<K, V>, p: nat)
    requires Inv(t) && p < |t.ids|
    ensures var (valid, start, window, order) := IndexAfterRemove(t, t.ids[p]);
            start < |t.nodes| &&
            (valid ==> IndexHolds(t.indexlist, start, EL.Without(t.ids, p), window)
                       && InRange(window, |t.nodes|) && order == ItemsAt(t.nodes, window))
  {
    var n := t.ids[p];
    if t.size == 1 {
      assert EL.Without(t.ids, p) == [];
    } else if t.fIndexValid {
      WrapOnce(t.indexStart + 1, |t.nodes|);
      if n == t.window[0] {
        IndexDropFirst(t.indexlist, t.indexStart, t.ids, t.window, p);
      } else if n == t.window[t.size - 1] {
        IndexDropLast(t.indexlist, t.indexStart, t.ids, t.window, p);
      }
    }
  }

  lemma RemoveKeepsInv<K(!new), V>(t: Table<K, V>, p: nat, prev: int)
    requires Inv(t) && p < |t.ids| && Precedes(t, p, prev)
    ensures |t.ids| == |t.entries| == t.size && 0 <= t.ids[p] < |t.next| == |t.columns| == |t.indexlist|
    ensures t.columns[t.ids[p]] < |t.heads| && (prev == NIL || 0 <= prev < |t.next|)
    ensures t.fIndexValid ==> |t.window| == |t.order| == t.size
    ensures Inv(RemovedAt(t, p, prev))
  {
    RemoveLinks(t, p, prev);
    RemoveIndex(t, p);
    PartitionRemove(t.ids, t.free, |t.nodes|, p);
    StoredRemove(t.entries, t.nodes, t.ids, t.columns, t.hash, |t.heads|, p);
  }

  lemma AssignKeepsInv<K(!new), V>(t: Table<K, V>, p: nat, item: Item<K, V>)
    requires Inv(t) && p < |t.ids| && item.key == t.entries[p].key
    ensures var nodes1 := t.nodes[t.ids[p] := item];
            Inv(t.(nodes := nodes1, entries := t.entries[p := item],
            order := if t.fIndexValid then ItemsAt(nodes1, t.window) else t.order))
  {
  }

  lemma ReIndexKeepsInv<K(!new), V>(t: Table<K, V>)
    requires Inv(t.(fIndexValid := false)) && t.indexStart == 0
    requires t.window == Flat(t.columns, t.ids, |t.heads|) && t.window <= t.indexlist
    ensures InRange(t.window, |t.nodes|) && Inv(t.(order := ItemsAt(t.nodes, t.window)))
  {
    FlatMembers(t.columns, t.ids, |t.heads|);
    forall i | 0 <= i < |t.ids| ensures t.ids[i] in t.window {
      assert t.columns[t.ids[i]] == t.hash(t.entries[i].key) % |t.heads|;
    }
    SameLength(t.window, t.ids);
    forall i | 0 <= i < |t.window|
      ensures 0 <= t.window[i] < |t.nodes| && t.indexlist[(0 + i) % |t.nodes|] == t.window[i]
    {
      assert t.window[i] in t.window;
      WrapOnce(i, |t.nodes|);
    }
  }

  class FastHash<K(==, 0, !new), V(0)> {
    const hash: K -> nat
    const fsize: nat
    const tsize: nat
    const nodes: array<Item<K, V>>
    const next: array<int>
    const table: array<int>
    const indexlist: array<int>
    var freelist: int
    var fIndexValid: bool
    var indexStart: nat
    var size: nat

    ghost var ids: seq<int>
    ghost var free: seq<int>
    ghost var window: seq<int>
    ghost var columns: seq<nat>

    /** Abstract value: the live entries, newest first. */
    ghost var Entries: seq<Item<K, V>>
    /** Abstract value: the items in the order the index lists them, meaningful while the index is valid. */
    ghost var Order: seq<Item<K, V>>
    ghost const Repr: set<object>

    ghost predicate Shape()
      reads this
    {
      && Repr == {this, nodes, next, table, indexlist}
      && next != table && next != indexlist && table != indexlist
      && nodes as object != next && nodes as object != table && nodes as object != indexlist
      && fsize > 0 && tsize > 0
      && nodes.Length == next.Length == indexlist.Length == fsize
      && table.Length == tsize
    }

    ghost function State(): Table<K, V>
      reads this, nodes, next, table, indexlist
    {
      Table(hash, nodes[..], next[..], table[..], indexlist[..], freelist, fIndexValid, indexStart, size,
            ids, free, window, columns, Entries, Order)
    }

    ghost predicate Valid()
      reads this, Repr
      ensures Valid() ==> |Entries| == size <= fsize
    {
      && this in Repr && nodes in Repr && next in Repr && table in Repr && indexlist in Repr
      && Shape() && Inv(State())
    }

    /** While it is valid, the index lists every live entry exactly once. */
    lemma IndexIsComplete()
      requires Valid() && fIndexValid
      ensures |Order| == |Entries|
      ensures multiset(Order) == multiset(Entries)
    {
      SameItems(nodes[..], window, ids);
      assert Entries == ItemsAt(nodes[..], ids);
    }

    /** FastHashDynamic(fsize, tsize): allocation followed by Init. */
    constructor (fsize: nat, tsize: nat, hash: K -> nat)
      requires fsize > 0 && tsize > 0
      ensures Valid() && fresh(Repr)
      ensures this.fsize == fsize && this.tsize == tsize && this.hash == hash
      ensures Entries == [] && fIndexValid && Order == []
    {
      this.hash := hash;
      this.fsize := fsize;
      this.tsize := tsize;
      nodes := new Item<K, V>[fsize];
      next := new int[fsize];
      table := new int[tsize];
      indexlist := new int[fsize];
      freelist := NIL;
      fIndexValid := true;
      indexStart := 0;
      size := 0;
      Repr := {this, nodes, next, table, indexlist};
      new;
      Reset();
    }

    method Reset()
      requires Shape()
      modifies this, next, table
      ensures Valid()
      ensures Entries == [] && fIndexValid && Order == []
    {
      for t := 0 to tsize
        invariant forall u | 0 <= u < t :: table[u] == NIL
      {
        table[t] := NIL;
      }
      for x := 0 to fsize
        invariant forall y | 0 <= y < x :: next[y] == y + 1
        invariant forall u | 0 <= u < tsize :: table[u] == NIL
      {
        next[x] := x + 1;
      }
      next[fsize - 1] := NIL;
      freelist := 0;
      size := 0;
      fIndexValid := true;
      indexStart := 0;
      ids, window, Entries, Order := [], [], [], [];
      free, columns := seq(fsize, i => i), seq(fsize, i => 0);
      FreshInv(State());
    }

    method Find(key: K) returns (node: int, hashindex: nat, prev: int)
      requires Valid()
      ensures hashindex == hash(key) % tsize && hashindex < tsize
      ensures InRange(ids, |columns|)
      ensures var p := EL.Position(Entries, key);
              if p < |ids| then
                && node == ids[p] && 0 <= node < fsize && nodes[node] == Entries[p]
                && columns[node] == hashindex && Precedes(State(), p, prev)
              else
                node == NIL
    {
      hashindex := hash(key) % tsize;
      ghost var chain := Chain(columns, ids, hashindex);
      assert Linked(next[..], chain, table[..][hashindex]);
      prev := NIL;
      node := table[hashindex];
      ghost var q := 0;
      while node != NIL
        invariant q <= |chain|
        invariant node == if q < |chain| then chain[q] else NIL
        invariant prev == if q > 0 then chain[q - 1] else NIL
        invariant forall i | 0 <= i < q :: nodes[chain[i]].key != key
        decreases |chain| - q
      {
        if nodes[node].key == key {
          break;
        }
        assert next[..][chain[q]] == if q + 1 < |chain| then chain[q + 1] else NIL;
        prev := node;
        node := next[node];
        q := q + 1;
      }
      FirstInChain(nodes[..], columns, ids, Entries, hashindex, key, q);
    }

    method Lookup(key: K) returns (r: Option<V>)
      requires Valid()
      ensures r == EL.Lookup(Entries, key)
    {
      var node, _, _ := Find(key);
      if node == NIL {
        r := None;
      } else {
        r := Some(nodes[node].value);
      }
    }

    method Exists(key: K) returns (r: bool)
      requires Valid()
      ensures r <==> EL.Stack(Entries, key) != []
    {
      var node, _, _ := Find(key);
      r := node != NIL;
      EL.LookupIsTop(Entries, key);
    }

    method UpdateIndexWithAdd(node: int)
      requires Shape() && indexStart < fsize
      modifies indexlist
      ensures indexlist[..]
              == if fIndexValid && size < fsize then old(indexlist[..])[(size + indexStart) % fsize := node]
                               else old(indexlist[..])
    {
      if fIndexValid && size < fsize {
        var pos := (size + indexStart) % fsize;
        indexlist[pos] := node;
      }
    }

    method Insert(key: K, value: V) returns (r: int)
      requires Valid()
      modifies Repr
      ensures Valid()
      ensures old(size) == fsize ==> r == -1 && Entries == old(Entries) && Order == old(Order)
      ensures old(size) < fsize ==> r == 1 && Entries == [EL.Item(key, value)] + old(Entries)
      ensures fIndexValid == old(fIndexValid)
      ensures old(size) < fsize && fIndexValid ==> Order == old(Order) + [EL.Item(key, value)]
    {
      FreeListFacts(State());
      if freelist == NIL {
        return -1;
      }
      InsertKeepsInv(State(), EL.Item(key, value));
      PushNode(key, value);
      r := 1;
    }

    /** The part of Insert that follows the check for a free node. */
    method PushNode(key: K, value: V)
      requires Shape() && Inv(State()) && freelist != NIL && free != []
      modifies Repr
      ensures State() == Inserted(old(State()), EL.Item(key, value))
    {
      ghost var before, item := State(), EL.Item(key, value);
      TakeNode(key, value);
      columns := before.columns[before.freelist := before.Column(key)];
      ids, free := [before.freelist] + ids, free[1..];
      Entries := [item] + Entries;
      window, Order := window + [before.freelist], Order + [item];
    }

    method TakeNode(key: K, value: V)
      requires Shape() && 0 <= freelist < fsize && indexStart < fsize && size < fsize
      modifies nodes, next, table, indexlist, `freelist, `size
      ensures State() == NodeTaken(old(State()), EL.Item(key, value))
    {
      var hashindex := hash(key) % tsize;
      var head := table[hashindex];
      var node := freelist;
      freelist := next[node];
      nodes[node] := EL.Item(key, value);
      next[node] := head;
      table[hashindex] := node;
      UpdateIndexWithAdd(node);
      size := size + 1;
    }

    method UpdateIndexWithRemove(node: int)
      requires Shape() && size == |ids| > 0 && indexStart < fsize
      requires fIndexValid ==> IndexHolds(indexlist[..], indexStart, ids, window) && |Order| == size
      modifies `fIndexValid, `indexStart, `window, `Order
      ensures var t := old(State());
              var (valid, start, nodes1, items1) := IndexAfterRemove(t, node);
              State() == t.(fIndexValid := valid, indexStart := start, window := nodes1, order := items1)
    {
      if size == 0 || (size > 1 && !fIndexValid) {
        return;
      }
      if size == 1 {
        fIndexValid := true;
        indexStart := 0;
        window, Order := [], [];
        return;
      }
      WrapOnce(indexStart, fsize);
      assert indexlist[..][(indexStart + 0) % fsize] == window[0];
      if node == indexlist[indexStart] {
        indexStart := (indexStart + 1) % fsize;
        window, Order := window[1..], Order[1..];
        return;
      }
      var indexlast := (indexStart + (size - 1)) % fsize;
      assert indexlist[..][indexlast] == window[size - 1];
      if node == indexlist[indexlast] {
        window, Order := window[..size - 1], Order[..size - 1];
        return;
      }
      fIndexValid := false;
    }

    method Remove(key: K) returns (r: int)
      requires Valid()
      modifies this, next, table
      ensures Valid()
      ensures r == if EL.Lookup(old(Entries), key) == None then -1 else 1
      ensures Entries == EL.Removed(old(Entries), key)
      ensures r == -1 ==> Order == old(Order) && fIndexValid == old(fIndexValid)
      ensures r == 1 && Entries != [] && fIndexValid ==>
                old(fIndexValid) && Order in {old(Order)[1..], old(Order)[..|Entries|]}
    {
      var node, hashindex, prev := Find(key);
      FreeListFacts(State());
      if node == NIL {
        return -1;
      }
      ghost var p := EL.Position(Entries, key);
      RemoveKeepsInv(State(), p, prev);
      DropNode(key, node, hashindex, prev, p);
      r := 1;
    }

    /** The part of Remove that follows a successful Find. */
    method DropNode(key: K, node: int, hashindex: nat, prev: int, ghost p: nat)
      requires Shape() && |columns| == fsize && p < |ids| == |Entries| == size
      requires 0 <= node < fsize && node == ids[p] && hashindex == columns[node] < tsize
      requires prev == NIL || 0 <= prev < fsize
      requires indexStart < fsize
      requires fIndexValid ==> IndexHolds(indexlist[..], indexStart, ids, window) && |Order| == size
      modifies this, next, table
      ensures State() == RemovedAt(old(State()), p, prev)
    {
      ghost var t0 := State();
      Unlink(node, hashindex, prev);
      ghost var t1 := State();
      assert IndexAfterRemove(t1, node) == IndexAfterRemove(t0, node);
      UpdateIndexWithRemove(node);
      FreeNode(node);
      assert next[..] == t1.next[node := t0.freelist];
      ids, free := EL.Without(ids, p), [node] + free;
      Entries := EL.Without(Entries, p);
    }

    method Unlink(node: int, hashindex: nat, prev: int)
      requires Shape() && 0 <= node < fsize && hashindex < tsize && (prev == NIL || 0 <= prev < fsize)
      modifies next, table
      ensures var t := old(State());
              State() == if prev == NIL then t.(heads := t.heads[hashindex := t.next[node]])
                         else t.(next := t.next[prev := t.next[node]])
    {
      var nextNode := next[node];
      if prev == NIL {
        table[hashindex] := nextNode;
      } else {
        next[prev] := nextNode;
      }
    }

    method FreeNode(node: int)
      requires Shape() && 0 <= node < fsize && size > 0
      modifies next, `freelist, `size
      ensures var t := old(State());
              State() == t.(next := t.next[node := t.freelist], freelist := node, size := t.size - 1)
    {
      next[node] := freelist;
      freelist := node;
      size := size - 1;
    }

    /** A write through the pointer Lookup returned. */
    method Assign(key: K, value: V)
      requires Valid() && EL.Position(Entries, key) < |Entries|
      modifies nodes, `Entries, `Order
      ensures Valid()
      ensures Entries == EL.Replaced(old(Entries), key, value)
    {
      var node, _, _ := Find(key);
      ghost var p := EL.Position(Entries, key);
      AssignKeepsInv(State(), p, EL.Item(key, value));
      nodes[node] := EL.Item(key, value);
      Entries := Entries[p := EL.Item(key, value)];
      Order := if fIndexValid then ItemsAt(nodes[..], window) else Order;
    }

    method ReIndex()
      requires Valid()
      modifies indexlist, `fIndexValid, `indexStart, `window, `Order
      ensures Valid()
      ensures size > 0 ==> fIndexValid
    {
      if size == 0 {
        return;
      }
      ColumnsFit();
      ListNodes();
      fIndexValid := true;
      indexStart := 0;
      window := Flat(columns, ids, tsize);
      ReIndexKeepsInv(State());
      Order := ItemsAt(nodes[..], window);
    }

    /** Column `t` heads its chain, which fits behind those of the columns before it. */
    ghost predicate ColumnFits(t: nat)
      requires InRange(ids, |columns|) && t < table.Length
      reads this, next, table
    {
      && Linked(next[..], Chain(columns, ids, t), table[t])
      && Flat(columns, ids, t + 1) == Flat(columns, ids, t) + Chain(columns, ids, t)
      && |Flat(columns, ids, t + 1)| <= fsize
    }

    lemma ColumnsFit()
      requires Shape() && AllLinked(columns, ids, next[..], table[..]) && NoRepeats(ids) && |ids| <= fsize
      ensures forall t | 0 <= t < tsize :: ColumnFits(t)
    {
      forall t | 0 <= t < tsize ensures ColumnFits(t) {
        FlatStep(columns, ids, t);
        assert table[..][t] == table[t];
      }
    }

    /** The nested loop of ReIndex. */
    method ListNodes()
      requires Shape() && InRange(ids, |columns|) && forall t | 0 <= t < tsize :: ColumnFits(t)
      modifies indexlist
      ensures |Flat(columns, ids, tsize)| <= fsize
      ensures indexlist[..|Flat(columns, ids, tsize)|] == Flat(columns, ids, tsize)
    {
      var index := 0;
      for t := 0 to tsize
        invariant index == |Flat(columns, ids, t)| <= fsize
        invariant indexlist[..index] == Flat(columns, ids, t)
      {
        assert ColumnFits(t);
        index := ListChain(t, index, Chain(columns, ids, t));
      }
    }

    /** The inner loop: one chain goes into the index from position `index` on. */
    method ListChain(t: nat, index: nat, ghost chain: seq<int>) returns (after: nat)
      requires Shape() && t < tsize && Linked(next[..], chain, table[t]) && index + |chain| <= fsize
      modifies indexlist
      ensures after == index + |chain| && indexlist[..after] == old(indexlist[..index]) + chain
    {
      ghost var q := 0;
      after := index;
      var node := table[t];
      while node != NIL
        invariant q <= |chain| && after == index + q
        invariant indexlist[..index] == old(indexlist[..index])
        invariant forall i | 0 <= i < q :: indexlist[index + i] == chain[i]
        invariant node == if q < |chain| then chain[q] else NIL
        decreases |chain| - q
      {
        assert next[..][chain[q]] == if q + 1 < |chain| then chain[q + 1] else NIL;
        indexlist[after] := node;
        after := after + 1;
        node := next[node];
        q := q + 1;
      }
    }

    method LookupByIndex(index: nat) returns (r: Option<Item<K, V>>)
      requires Valid()
      modifies indexlist, `fIndexValid, `indexStart, `window, `Order
      ensures Valid()
      ensures r.Some? <==> index < size
      ensures r.Some? ==> fIndexValid && |Order| == size && r.value == Order[index]
      ensures old(fIndexValid) ==> fIndexValid && Order == old(Order)
      ensures multiset(Order) == multiset(Entries) || !fIndexValid
    {
      if fIndexValid {
        IndexIsComplete();
      }
      if index >= size {
        return None;
      }
      if !fIndexValid {
        ReIndex();
        IndexIsComplete();
      }
      assert indexlist[..][(indexStart + index) % fsize] == window[index];
      var itemindex := indexlist[(indexStart + index) % fsize];
      r := Some(nodes[itemindex]);
    }

    /** The iteration idiom of the table's users: LookupByIndex for 0 up to Size() - 1 meets every live
        entry exactly once, whatever history of insertions and removals led here. */
    method Enumerate() returns (items: seq<Item<K, V>>)
      requires Valid()
      modifies indexlist, `fIndexValid, `indexStart, `window, `Order
      ensures Valid()
      ensures |items| == size && multiset(items) == multiset(Entries)
    {
      items := Collect();
      if size > 0 {
        IndexIsComplete();
      }
    }

    /** The loop of the idiom: the items come in index order. */
    method Collect() returns (items: seq<Item<K, V>>)
      requires Valid()
      modifies indexlist, `fIndexValid, `indexStart, `window, `Order
      ensures Valid() && |items| == size
      ensures size > 0 ==> fIndexValid && items == Order
    {
      items := [];
      for index := 0 to size
        invariant Valid() && |items| == index
        invariant index > 0 ==> fIndexValid && |Order| == size && items == Order[..index]
      {
        var item := LookupByIndex(index);
        items := items + [item.value];
      }
    }
  }

  /** FastHashDynamic::InitTable: a width of 0 asks for a prime width. */
  method InitTable<K(==, 0, !new), V(0)>(fsize: nat, tsize: nat, hash: K -> nat) returns (r: Option<FastHash<K, V>>)
    ensures r.None? <==> fsize == 0
    ensures r.Some? ==>
              && fresh(r.value) && fresh(r.value.Repr) && r.value.Valid() && r.value.Entries == []
              && r.value.fIndexValid && r.value.Order == []
              && r.value.fsize == fsize && r.value.hash == hash
              && r.value.tsize == (if tsize == 0 then PrimeSearch.LeastPrime(fsize) else tsize)
  {
    if fsize == 0 {
      return None;
    }
    var width := tsize;
    if width == 0 {
      width := PrimeSearch.FindPrime(fsize);
    }
    var t := new FastHash<K, V>(fsize, width, hash);
    r := Some(t);
  }
}
