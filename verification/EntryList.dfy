/** The abstract value of a FastHash table: its live entries, newest first.
    Read key by key it is a stack of values for every key. */
module EntryList {
  import opened Options

  datatype Item<K, V> = Item(key: K, value: V)

  /** Index of the newest entry under `k`, or the length when there is none. */
  function Position<K(==), V>(es: seq<Item<K, V>>, k: K): (i: nat)
    ensures i <= |es|
    ensures forall j | 0 <= j < i :: es[j].key != k
    ensures i < |es| ==> es[i].key == k
  {
    if es == [] || es[0].key == k then 0 else 1 + Position(es[1..], k)
  }

  function Lookup<K(==), V>(es: seq<Item<K, V>>, k: K): Option<V> {
    var i := Position(es, k);
    if i < |es| then Some(es[i].value) else None
  }

  function Without<T>(s: seq<T>, i: nat): seq<T>
    requires i < |s|
  {
    s[..i] + s[i + 1..]
  }

  function Removed<K(==), V>(es: seq<Item<K, V>>, k: K): seq<Item<K, V>> {
    var i := Position(es, k);
    if i < |es| then Without(es, i) else es
  }

  function Replaced<K(==), V>(es: seq<Item<K, V>>, k: K, v: V): seq<Item<K, V>> {
    var i := Position(es, k);
    if i < |es| then es[i := Item(k, v)] else es
  }

  /** The values held under `k`, newest first. */
  function Stack<K(==), V>(es: seq<Item<K, V>>, k: K): seq<V> {
    if es == [] then [] else (if es[0].key == k then [es[0].value] else []) + Stack(es[1..], k)
  }

  ghost predicate UniqueKeys<K, V>(es: seq<Item<K, V>>) {
    forall i, j | 0 <= i < j < |es| :: es[i].key != es[j].key
  }

  lemma StackJoin<V>(a: seq<V>, b: seq<V>, c: seq<V>)
    ensures a + (b + c) == (a + b) + c
  {
  }

  lemma {:induction false} StackAppend<K, V>(a: seq<Item<K, V>>, b: seq<Item<K, V>>, k: K)
    ensures Stack(a + b, k) == Stack(a, k) + Stack(b, k)
  {
    if a == [] {
      assert a + b == b;
    } else {
      StackAppend(a[1..], b, k);
      assert (a + b)[0] == a[0] && (a + b)[1..] == a[1..] + b;
      StackJoin(if a[0].key == k then [a[0].value] else [], Stack(a[1..], k), Stack(b, k));
    }
  }

  lemma {:induction false} StackOfOthers<K, V>(es: seq<Item<K, V>>, k: K)
    requires forall i | 0 <= i < |es| :: es[i].key != k
    ensures Stack(es, k) == []
  {
    if es != [] {
      StackOfOthers(es[1..], k);
    }
  }

  /** Lookup sees the newest value, and sees nothing exactly when the stack is empty. */
  lemma {:induction false} LookupIsTop<K, V>(es: seq<Item<K, V>>, k: K)
    ensures Lookup(es, k) == if Stack(es, k) == [] then None else Some(Stack(es, k)[0])
  {
    var i := Position(es, k);
    if i < |es| {
      assert es == es[..i] + ([es[i]] + es[i + 1..]);
      StackAppend(es[..i], [es[i]] + es[i + 1..], k);
      StackOfOthers(es[..i], k);
      assert ([es[i]] + es[i + 1..])[1..] == es[i + 1..];
    } else {
      StackOfOthers(es, k);
    }
  }

  /** Insertion pushes on the stack of its own key and leaves every other stack alone. */
  lemma {:induction false} InsertPushes<K, V>(es: seq<Item<K, V>>, k: K, v: V, other: K)
    ensures Stack([Item(k, v)] + es, other) == (if other == k then [v] else []) + Stack(es, other)
  {
    StackAppend([Item(k, v)], es, other);
    assert [Item(k, v)][1..] == [];
  }

  /** Removal pops exactly one value, the newest under its key, uncovering the older ones. */
  lemma {:induction false} RemovePops<K, V>(es: seq<Item<K, V>>, k: K, other: K)
    ensures Stack(Removed(es, k), other) ==
            if other == k && Stack(es, k) != [] then Stack(es, k)[1..] else Stack(es, other)
  {
    var i := Position(es, k);
    if i < |es| {
      var rest := es[i + 1..];
      assert es == es[..i] + ([es[i]] + rest);
      StackAppend(es[..i], [es[i]] + rest, other);
      StackAppend([es[i]], rest, other);
      StackAppend(es[..i], rest, other);
      if other == k {
        StackOfOthers(es[..i], k);
      }
    } else {
      StackOfOthers(es, k);
    }
  }

  /** A write through the pointer that Lookup returns replaces the top of one stack. */
  lemma {:induction false} ReplaceTop<K, V>(es: seq<Item<K, V>>, k: K, v: V, other: K)
    ensures Stack(Replaced(es, k, v), other) ==
            if other == k && Stack(es, k) != [] then [v] + Stack(es, k)[1..] else Stack(es, other)
  {
    var i := Position(es, k);
    if i < |es| {
      var rest := es[i + 1..];
      assert es == es[..i] + ([es[i]] + rest);
      assert Replaced(es, k, v) == es[..i] + ([Item(k, v)] + rest);
      StackAppend(es[..i], [es[i]] + rest, other);
      StackAppend([es[i]], rest, other);
      StackAppend(es[..i], [Item(k, v)] + rest, other);
      StackAppend([Item(k, v)], rest, other);
      if other == k {
        StackOfOthers(es[..i], k);
      }
    } else {
      StackOfOthers(es, k);
    }
  }

  lemma PositionUnique<K, V>(es: seq<Item<K, V>>, k: K, i: nat)
    requires UniqueKeys(es) && i < |es| && es[i].key == k
    ensures Position(es, k) == i
  {
  }

  /** Without duplicate keys the table is a plain map: what one key does never shows under another. */
  lemma {:induction false} LookupFrame<K, V>(es: seq<Item<K, V>>, k: K, v: V, other: K)
    requires other != k
    ensures Lookup([Item(k, v)] + es, other) == Lookup(es, other)
    ensures Lookup(Removed(es, k), other) == Lookup(es, other)
    ensures Lookup(Replaced(es, k, v), other) == Lookup(es, other)
  {
    InsertPushes(es, k, v, other);
    RemovePops(es, k, other);
    ReplaceTop(es, k, v, other);
    LookupIsTop(es, other);
    LookupIsTop([Item(k, v)] + es, other);
    LookupIsTop(Removed(es, k), other);
    LookupIsTop(Replaced(es, k, v), other);
  }

  // ---- a table without duplicate keys, read as a map ----

  ghost function Keys<K, V>(es: seq<Item<K, V>>): set<K> {
    set i | 0 <= i < |es| :: es[i].key
  }

  ghost function AsMap<K, V>(es: seq<Item<K, V>>): map<K, V> {
    map k | k in Keys(es) :: es[Position(es, k)].value
  }

  lemma PositionInKeys<K, V>(es: seq<Item<K, V>>, k: K)
    ensures k in Keys(es) <==> Position(es, k) < |es|
    ensures k in Keys(es) <==> Lookup(es, k).Some?
  {
    var i := Position(es, k);
    if i < |es| {
      assert es[i].key in Keys(es);
    }
  }

  lemma LookupAsMap<K, V>(es: seq<Item<K, V>>, k: K)
    ensures Lookup(es, k) == if k in AsMap(es) then Some(AsMap(es)[k]) else None
  {
    PositionInKeys(es, k);
  }

  lemma SameMap<K, V>(a: map<K, V>, b: map<K, V>)
    requires forall k :: (k in a <==> k in b) && (k in a ==> a[k] == b[k])
    ensures a == b
  {
  }

  lemma SingletonAsMap<K, V>(k: K, v: V)
    ensures AsMap<K, V>([]) == map[]
    ensures UniqueKeys([Item(k, v)]) && AsMap([Item(k, v)]) == map[k := v]
  {
    InsertAsMap([], k, v);
    assert [Item(k, v)] + [] == [Item(k, v)];
  }

  lemma InsertAsMap<K, V>(es: seq<Item<K, V>>, k: K, v: V)
    requires UniqueKeys(es) && k !in AsMap(es)
    ensures UniqueKeys([Item(k, v)] + es)
    ensures AsMap([Item(k, v)] + es) == AsMap(es)[k := v]
  {
    var es1 := [Item(k, v)] + es;
    forall i | 0 <= i < |es| ensures es[i].key != k {
      assert es[i].key in Keys(es);
    }
    forall x ensures Lookup(es1, x) == if x == k then Some(v) else Lookup(es, x) {
      if x != k {
        LookupFrame(es, k, v, x);
      }
      LookupAsMap(es1, x);
      LookupAsMap(es, x);
    }
    MapFromLookup(es1, AsMap(es)[k := v]);
  }

  lemma RemoveAsMap<K, V>(es: seq<Item<K, V>>, k: K)
    requires UniqueKeys(es)
    ensures UniqueKeys(Removed(es, k))
    ensures AsMap(Removed(es, k)) == AsMap(es) - {k}
  {
    var es1 := Removed(es, k);
    forall x ensures Lookup(es1, x) == if x == k then None else Lookup(es, x) {
      if x != k {
        RemovePops(es, k, x);
        LookupIsTop(es, x);
        LookupIsTop(es1, x);
      }
      LookupAsMap(es, x);
    }
    MapFromLookup(es1, AsMap(es) - {k});
  }

  lemma ReplaceAsMap<K, V>(es: seq<Item<K, V>>, k: K, v: V)
    requires UniqueKeys(es) && k in AsMap(es)
    ensures UniqueKeys(Replaced(es, k, v))
    ensures AsMap(Replaced(es, k, v)) == AsMap(es)[k := v]
  {
    var es1 := Replaced(es, k, v);
    PositionInKeys(es, k);
    forall x ensures Lookup(es1, x) == if x == k then Some(v) else Lookup(es, x) {
      if x != k {
        LookupFrame(es, k, v, x);
      } else {
        PositionUnique(es1, k, Position(es, k));
      }
    }
    MapFromLookup(es1, AsMap(es)[k := v]);
  }

  lemma MapFromLookup<K, V>(es: seq<Item<K, V>>, m: map<K, V>)
    requires forall x :: Lookup(es, x) == if x in m then Some(m[x]) else None
    ensures AsMap(es) == m
  {
    forall x ensures (x in AsMap(es) <==> x in m) && (x in m ==> AsMap(es)[x] == m[x]) {
      LookupAsMap(es, x);
      assert Lookup(es, x) == if x in m then Some(m[x]) else None;
    }
    SameMap(AsMap(es), m);
  }

  lemma {:induction false} AsMapSize<K, V>(es: seq<Item<K, V>>)
    requires UniqueKeys(es)
    ensures |AsMap(es)| == |es|
  {
    if es == [] {
      assert AsMap(es) == map[];
    } else {
      AsMapSize(es[1..]);
      assert es == [Item(es[0].key, es[0].value)] + es[1..];
      forall i | 0 <= i < |es[1..]| ensures es[1..][i].key != es[0].key {
        assert es[i + 1].key != es[0].key;
      }
      assert es[0].key !in AsMap(es[1..]);
      InsertAsMap(es[1..], es[0].key, es[0].value);
    }
  }
}
