/** The storage types a persisting operator can keep its state in, each with `persist` (store one
    more input), and for the mutable ones `unpersist` (forget an item, or a key), and `iter`
    (replay the store): a vector, a hash set, a `Bag`, a map from key to its first value and a
    count, and a map from key to a set of values. A hash set is modelled as the list of its
    elements in iteration order, without duplicates. */
module Storage {
  import opened Wrappers
  import opened SeqUtil
  import opened Tables
  import opened RepeatIter
  import Bags

  // ---------------------------------------------------------------------------------------------
  // Unkeyed stores

  /** `Vec::persist`: push at the end. */
  function VecPersist<T>(v: seq<T>, item: T): (r: seq<T>)
  {
    v + [item]
  }

  /** Persisting a sequence of items into a vector replays exactly them, in order, after what
      was stored before. */
  lemma {:induction false} VecPersistAll<T>(v: seq<T>, items: seq<T>)
    ensures PersistAll(v, items) == v + items
    decreases |items|
  {
    if items != [] {
      VecPersistAll(VecPersist(v, items[0]), items[1..]);
      assert v + [items[0]] + items[1..] == v + items;
    }
  }

  /** The vector after persisting `items` one by one. */
  function PersistAll<T>(v: seq<T>, items: seq<T>): seq<T>
    decreases |items|
  {
    if items == [] then v else PersistAll(VecPersist(v, items[0]), items[1..])
  }

  /** `HashSet::persist`: insert, which leaves a present element alone. */
  function SetPersist<T(==,!new)>(s: seq<T>, item: T): (r: seq<T>)
    requires NoDup(s)
    ensures NoDup(r)
    ensures forall x :: x in r <==> x in s || x == item
  {
    if item in s then s
    else
      NoDupAppend(s, [item]);
      s + [item]
  }

  /** `HashSet::unpersist`: remove, which leaves an absent element alone. */
  function SetUnpersist<T(==,!new)>(s: seq<T>, item: T): (r: seq<T>)
    requires NoDup(s)
    ensures NoDup(r)
    ensures forall x :: x in r <==> x in s && x != item
    decreases |s|
  {
    if s == [] then []
    else
      NoDupTail(s);
      var rest := SetUnpersist(s[1..], item);
      assert forall x :: x in s <==> x == s[0] || x in s[1..];
      if s[0] == item then rest
      else
        NoDupAppend([s[0]], rest);
        [s[0]] + rest
  }

  /** `unpersist` undoes `persist` of a new element, and `persist` is idempotent. */
  lemma SetPersistUnpersist<T(!new)>(s: seq<T>, item: T)
    requires NoDup(s)
    ensures item !in s ==> SetUnpersist(SetPersist(s, item), item) == s
    ensures SetPersist(SetPersist(s, item), item) == SetPersist(s, item)
  {
    if item !in s {
      UnpersistAbsent(s, item);
      NoDupAppend(s, [item]);
      UnpersistLast(s, item);
    }
  }

  lemma {:induction false} UnpersistAbsent<T(!new)>(s: seq<T>, item: T)
    requires NoDup(s) && item !in s
    ensures SetUnpersist(s, item) == s
    decreases |s|
  {
    if s != [] {
      NoDupTail(s);
      UnpersistAbsent(s[1..], item);
    }
  }

  lemma {:induction false} UnpersistLast<T(!new)>(s: seq<T>, item: T)
    requires NoDup(s) && NoDup(s + [item]) && item !in s
    ensures SetUnpersist(s + [item], item) == SetUnpersist(s, item)
    decreases |s|
  {
    if s == [] {
      assert [item][1..] == [];
    } else {
      NoDupTail(s);
      assert (s + [item])[1..] == s[1..] + [item];
      UnpersistLast(s[1..], item);
    }
  }

  /** `Bag::persist`: one more copy. */
  function BagPersist<T(==,!new)>(b: Bags.Bag<T>, item: T): (r: Bags.Bag<T>)
    requires Bags.Valid(b)
    ensures Bags.Valid(r) && Bags.Contents(r) == Bags.Contents(b) + multiset{item}
  {
    Bags.InsertContents(b, item);
    Bags.Insert(b, item)
  }

  /** `Bag::unpersist`: every copy goes, not just one. */
  function BagUnpersist<T(==,!new)>(b: Bags.Bag<T>, item: T): (r: Bags.Bag<T>)
    requires Bags.Valid(b)
    ensures Bags.Valid(r) && Bags.Contents(r) == Bags.Contents(b)[item := 0]
  {
    Bags.RemoveContents(b, item);
    Bags.Remove(b, item)
  }

  /** However often an item was persisted into a bag, one `unpersist` removes it. */
  lemma BagUnpersistAfterPersists<T(!new)>(b: Bags.Bag<T>, item: T, n: nat)
    requires Bags.Valid(b)
    ensures Bags.Contents(BagUnpersist(Bags.Extend(b, Copies(item, n)), item)) == Bags.Contents(b)[item := 0]
  {
    var items := Copies(item, n);
    CopiesMultiset(item, n);
    Bags.ExtendContents(b, items);
  }

  // ---------------------------------------------------------------------------------------------
  // `HashMap<K, (V, usize)>`: the first value stored under a key, and how often it was persisted

  /** Every stored count is positive: `persist` starts a key at one and only ever counts up. */
  ghost predicate CountsPositive<K, V>(t: Table<K, (V, nat)>)
  {
    forall e :: e in t ==> e.1.1 >= 1
  }

  /** `persist(k, v)`: a new key stores `v` with count one; a known key keeps its first value and
      counts one more. */
  function KeyedCountPersist<K(==,!new), V>(t: Table<K, (V, nat)>, k: K, v: V): (r: Table<K, (V, nat)>)
    ensures forall j :: j != k ==> Get(r, j) == Get(t, j)
    ensures Get(r, k) == match Get(t, k)
                         case Some(e) => Some((e.0, e.1 + 1))
                         case None => Some((v, 1))
    ensures Tables.Valid(t) ==> Tables.Valid(r)
    ensures CountsPositive(t) ==> CountsPositive(r)
  {
    var entry := match Get(t, k)
                 case Some(e) => (e.0, e.1 + 1)
                 case None => (v, 1);
    PutKeepsCountsPositive(t, k, entry);
    Put<K, (V, nat)>(t, k, entry)
  }

  /** Storing an entry with a positive count keeps every count positive. */
  lemma PutKeepsCountsPositive<K(!new), V>(t: Table<K, (V, nat)>, k: K, entry: (V, nat))
    requires entry.1 >= 1
    ensures CountsPositive(t) ==> CountsPositive(Put<K, (V, nat)>(t, k, entry))
  {
  }

  /** `unpersist(k)`: the key goes, whatever its count. */
  function KeyedCountUnpersist<K(==,!new), V>(t: Table<K, (V, nat)>, k: K): (r: Table<K, (V, nat)>)
    requires Tables.Valid(t)
    ensures Tables.Valid(r)
    ensures Get(r, k) == None && forall j :: j != k ==> Get(r, j) == Get(t, j)
    ensures CountsPositive(t) ==> CountsPositive(r)
  {
    Delete<K, (V, nat)>(t, k)
  }

  /** The entries `HashMapIter` walks: each key with its stored value, and the count. */
  function KeyedCountEntries<K, V>(t: Table<K, (V, nat)>): (r: seq<((K, V), nat)>)
    ensures |r| == |t| && forall i :: 0 <= i < |t| ==> r[i] == ((t[i].0, t[i].1.0), t[i].1.1)
  {
    seq(|t|, i requires 0 <= i < |t| => ((t[i].0, t[i].1.0), t[i].1.1))
  }

  /** `iter()`: a `HashMapIter`, the repeat iterator over those entries. */
  function KeyedCountIter<K, V>(t: Table<K, (V, nat)>): RepeatIter<(K, V)>
  {
    Start(KeyedCountEntries(t))
  }

  /** `HashMapIter` yields every key with its first value exactly as often as it was persisted,
      and nothing else. */
  lemma KeyedCountIterYields<K(!new), V(!new)>(t: Table<K, (V, nat)>, k: K, v: V)
    requires Tables.Valid(t) && CountsPositive(t)
    ensures Positive(KeyedCountIter(t))
    ensures multiset(Pending(KeyedCountIter(t)))[(k, v)] ==
              match Get(t, k) case Some(e) => (if e.0 == v then e.1 else 0) case None => 0
  {
    var entries := KeyedCountEntries(t);
    forall i | 0 <= i < |entries| ensures entries[i].1 >= 1 {
      assert t[i] in t;
    }
    FlattenCounts(entries);
    EntriesCount(t, k, v);
  }

  lemma {:induction false} EntriesCount<K(!new), V(!new)>(t: Table<K, (V, nat)>, k: K, v: V)
    requires Tables.Valid(t)
    ensures CountOf(KeyedCountEntries(t), (k, v)) ==
              match Get(t, k) case Some(e) => (if e.0 == v then e.1 else 0) case None => 0
    decreases |t|
  {
    if t != [] {
      assert Keys(t[1..]) == Keys(t)[1..];
      NoDupTail(Keys(t));
      assert KeyedCountEntries(t)[1..] == KeyedCountEntries(t[1..]);
      EntriesCount(t[1..], k, v);
      if t[0].0 == k {
        assert Get(t[1..], k).None?;
      }
    }
  }

  // ---------------------------------------------------------------------------------------------
  // `HashMap<K, HashSet<V>>`: every value persisted under a key

  /** Every stored value set is a set (no duplicates) and not empty: `persist` creates a key's
      set together with its first value. */
  ghost predicate SetsValid<K, V>(t: Table<K, seq<V>>)
  {
    forall e :: e in t ==> NoDup(e.1) && e.1 != []
  }

  /** `persist(k, v)`: add `v` to `k`'s set, creating the set if `k` is new. */
  function KeyedSetPersist<K(==,!new), V(==,!new)>(t: Table<K, seq<V>>, k: K, v: V): (r: Table<K, seq<V>>)
    requires SetsValid(t)
    ensures SetsValid(r)
    ensures forall j :: j != k ==> Get(r, j) == Get(t, j)
    ensures Get(r, k).Some? && forall x :: x in Get(r, k).value <==> x == v || (Get(t, k).Some? && x in Get(t, k).value)
    ensures Tables.Valid(t) ==> Tables.Valid(r)
  {
    var vs := match Get(t, k) case Some(vs) => vs case None => [];
    assert NoDup(vs) by {
      if Get(t, k).Some? {
        assert (k, vs) in t;
      }
    }
    Put<K, seq<V>>(t, k, SetPersist(vs, v))
  }

  /** `unpersist(k)`: the key goes, with its whole set. */
  function KeyedSetUnpersist<K(==,!new), V(==,!new)>(t: Table<K, seq<V>>, k: K): (r: Table<K, seq<V>>)
    requires Tables.Valid(t)
    ensures Tables.Valid(r)
    ensures Get(r, k) == None && forall j :: j != k ==> Get(r, j) == Get(t, j)
    ensures SetsValid(t) ==> SetsValid(r)
  {
    Delete<K, seq<V>>(t, k)
  }

  /** `KeyedHashSetIter`: `parent` is the rest of the map's entries; `current` the key whose set
      is being walked, with the set's elements not yet yielded. */
  datatype KeyedSetIter<K, V> = KeyedSetIter(parent: seq<(K, seq<V>)>, current: Option<(K, seq<V>)>)

  /** Each key paired with each element of its set, entry by entry. */
  function Pairs<K, V>(k: K, vs: seq<V>): (r: seq<(K, V)>)
    ensures |r| == |vs| && forall i :: 0 <= i < |vs| ==> r[i] == (k, vs[i])
  {
    seq(|vs|, i requires 0 <= i < |vs| => (k, vs[i]))
  }

  function FlattenSets<K, V>(entries: seq<(K, seq<V>)>): seq<(K, V)>
    decreases |entries|
  {
    if entries == [] then [] else Pairs(entries[0].0, entries[0].1) + FlattenSets(entries[1..])
  }

  /** The pairs the iterator has still to yield. */
  function SetPending<K, V>(it: KeyedSetIter<K, V>): seq<(K, V)>
  {
    match it.current
    case Some((k, rest)) => Pairs(k, rest) + FlattenSets(it.parent)
    case None => FlattenSets(it.parent)
  }

  /** `next()`: the next element of the current set; once that is used up, the first element of
      the next key's set, unwrapped, so that set must not be empty. */
  function KeyedSetNext<K, V>(it: KeyedSetIter<K, V>): (r: (Option<(K, V)>, KeyedSetIter<K, V>))
    requires (it.current.None? || it.current.value.1 == []) && it.parent != [] ==> it.parent[0].1 != []
    ensures r.0.None? <==> (it.current.None? || it.current.value.1 == []) && it.parent == []
  {
    if it.current.Some? && it.current.value.1 != [] then
      var (k, rest) := it.current.value;
      (Some((k, rest[0])), KeyedSetIter(it.parent, Some((k, rest[1..]))))
    else if it.parent != [] then
      var (k, vs) := it.parent[0];
      (Some((k, vs[0])), KeyedSetIter(it.parent[1..], Some((k, vs[1..]))))
    else (None, KeyedSetIter(it.parent, None))
  }

  predicate NonEmptyAhead<K, V>(it: KeyedSetIter<K, V>)
  {
    forall i :: 0 <= i < |it.parent| ==> it.parent[i].1 != []
  }

  /** Each call yields the next pending pair, and `None` only when nothing is pending. */
  lemma KeyedSetNextYieldsPending<K, V>(it: KeyedSetIter<K, V>)
    requires NonEmptyAhead(it)
    ensures var (item, rest) := KeyedSetNext(it);
            && NonEmptyAhead(rest)
            && (item.None? <==> SetPending(it) == [])
            && (item.Some? ==> SetPending(it) == [item.value] + SetPending(rest))
  {
    if it.current.Some? && it.current.value.1 != [] {
      var (k, rest) := it.current.value;
      PairsUncons(k, rest);
    } else {
      var ahead := FlattenSets(it.parent);
      assert SetPending(it) == ahead by {
        if it.current.Some? {
          assert Pairs(it.current.value.0, it.current.value.1) == [];
        }
      }
      if it.parent != [] {
        NextFromParent(it.parent);
      }
    }
  }

  /** Starting on the next key's set: its first element, then the rest of that set, then the
      remaining entries. */
  lemma NextFromParent<K, V>(parent: seq<(K, seq<V>)>)
    requires parent != [] && parent[0].1 != []
    ensures FlattenSets(parent)
            == [(parent[0].0, parent[0].1[0])] + (Pairs(parent[0].0, parent[0].1[1..]) + FlattenSets(parent[1..]))
  {
    var (k, vs) := parent[0];
    assert FlattenSets(parent) == Pairs(k, vs) + FlattenSets(parent[1..]);
    PairsUncons(k, vs);
    SeqAssoc([(k, vs[0])], Pairs(k, vs[1..]), FlattenSets(parent[1..]));
  }

  lemma SeqAssoc<T>(a: seq<T>, b: seq<T>, c: seq<T>)
    ensures (a + b) + c == a + (b + c)
  {
  }

  lemma PairsUncons<K, V>(k: K, vs: seq<V>)
    requires vs != []
    ensures Pairs(k, vs) == [(k, vs[0])] + Pairs(k, vs[1..])
  {
    assert Pairs(k, vs) == [(k, vs[0])] + Pairs(k, vs[1..]);
  }

  /** Pulling `KeyedHashSetIter` until it returns `None`. */
  method KeyedSetDrain<K, V>(start: KeyedSetIter<K, V>) returns (out: seq<(K, V)>)
    requires NonEmptyAhead(start)
    ensures out == SetPending(start)
  {
    out := [];
    var it := start;
    while true
      invariant NonEmptyAhead(it)
      invariant out + SetPending(it) == SetPending(start)
      decreases |SetPending(it)|
    {
      KeyedSetNextYieldsPending(it);
      var (item, rest) := KeyedSetNext(it);
      if item.None? {
        return;
      }
      out := out + [item.value];
      it := rest;
    }
  }

  /** `iter()` on the keyed-set store. */
  function KeyedSetIterOf<K, V>(t: Table<K, seq<V>>): KeyedSetIter<K, V>
  {
    KeyedSetIter(t, None)
  }

  /** On a store `persist` built, the iterator never meets an empty set, and yields every
      `(k, v)` with `v` in `k`'s set, each exactly once. */
  lemma KeyedSetIterYields<K(!new), V(!new)>(t: Table<K, seq<V>>)
    requires Tables.Valid(t) && SetsValid(t)
    ensures NonEmptyAhead(KeyedSetIterOf(t))
    ensures NoDup(SetPending(KeyedSetIterOf(t)))
    ensures forall k, v :: (k, v) in SetPending(KeyedSetIterOf(t)) <==> Get(t, k).Some? && v in Get(t, k).value
  {
    forall i | 0 <= i < |t| ensures t[i].1 != [] {
      assert t[i] in t;
    }
    FlattenSetsYields(t);
  }

  lemma {:induction false} FlattenSetsYields<K(!new), V(!new)>(t: Table<K, seq<V>>)
    requires Tables.Valid(t) && SetsValid(t)
    ensures NoDup(FlattenSets(t))
    ensures forall k, v :: (k, v) in FlattenSets(t) <==> Get(t, k).Some? && v in Get(t, k).value
    decreases |t|
  {
    if t != [] {
      assert Keys(t[1..]) == Keys(t)[1..];
      NoDupTail(Keys(t));
      assert forall e :: e in t[1..] ==> e in t;
      FlattenSetsYields(t[1..]);
      var (k0, vs) := t[0];
      assert t[0] in t;
      var head := Pairs(k0, vs);
      assert NoDup(head) by {
        forall i, j | 0 <= i < j < |head| ensures head[i] != head[j] {
          assert vs[i] != vs[j];
        }
      }
      forall x | x in head ensures x !in FlattenSets(t[1..]) {
        assert x.0 == k0;
        assert Get(t[1..], k0).None?;
      }
      NoDupAppend(head, FlattenSets(t[1..]));
      forall k, v ensures (k, v) in head <==> k == k0 && v in vs {
        if k == k0 && v in vs {
          var i :| 0 <= i < |vs| && vs[i] == v;
          assert head[i] == (k, v);
        }
      }
    }
  }
}
