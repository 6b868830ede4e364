/** A hash map as the list of its entries in iteration order, keys distinct. Rust leaves the
    iteration order of a hash map unspecified; the model fixes one (new keys go to the end, a
    removed key's entry is cut out) and states no property that depends on it. */
module Tables {
  import opened Wrappers
  import opened SeqUtil

  type Table<K, V> = seq<(K, V)>

  /** The keys, in iteration order. */
  function Keys<K, V>(t: Table<K, V>): (ks: seq<K>)
    ensures |ks| == |t| && forall i :: 0 <= i < |t| ==> ks[i] == t[i].0
  {
    if t == [] then [] else [t[0].0] + Keys(t[1..])
  }

  /** No key has two entries. */
  predicate Valid<K(==,!new), V>(t: Table<K, V>)
  {
    NoDup(Keys(t))
  }

  /** The value stored under `k`, if any: the entry for `k`. */
  function Get<K(==,!new), V>(t: Table<K, V>, k: K): (r: Option<V>)
    ensures r.None? <==> k !in Keys(t)
    ensures r.Some? ==> (k, r.value) in t
    decreases |t|
  {
    if t == [] then None
    else if t[0].0 == k then Some(t[0].1)
    else
      assert forall j :: j in Keys(t) <==> j == t[0].0 || j in Keys(t[1..]);
      assert forall e :: e in t[1..] ==> e in t;
      Get(t[1..], k)
  }

  /** With distinct keys, the entry for `k` is the only one: `Get` finds exactly it. */
  lemma {:induction false} GetUnique<K(!new), V>(t: Table<K, V>, k: K, v: V)
    requires Valid(t)
    ensures (k, v) in t <==> Get(t, k) == Some(v)
    decreases |t|
  {
    if t != [] {
      assert Keys(t[1..]) == Keys(t)[1..];
      NoDupTail(Keys(t));
      assert forall e :: e in t <==> e == t[0] || e in t[1..];
      if t[0].0 == k {
        KeysOfEntries(t[1..]);
      } else {
        GetUnique(t[1..], k, v);
      }
    }
  }

  /** Every entry's key is among the keys. */
  lemma KeysOfEntries<K, V>(t: Table<K, V>)
    ensures forall e :: e in t ==> e.0 in Keys(t)
  {
    forall e | e in t ensures e.0 in Keys(t) {
      var i :| 0 <= i < |t| && t[i] == e;
      assert Keys(t)[i] == e.0;
    }
  }

  /** `insert`: replaces the entry for `k` where it stands, or appends a new one. */
  function Put<K(==,!new), V>(t: Table<K, V>, k: K, v: V): (r: Table<K, V>)
    ensures |r| == (if k in Keys(t) then |t| else |t| + 1)
    ensures forall j :: Get(r, j) == (if j == k then Some(v) else Get(t, j))
    ensures forall j :: j in Keys(r) <==> j == k || j in Keys(t)
    ensures forall e :: e in r ==> e == (k, v) || e in t
    ensures Valid(t) ==> Valid(r)
    decreases |t|
  {
    if t == [] then
      assert Keys([(k, v)]) == [k];
      [(k, v)]
    else if t[0].0 == k then
      assert Keys([(k, v)] + t[1..]) == [k] + Keys(t[1..]);
      assert Keys(t) == [k] + Keys(t[1..]);
      [(k, v)] + t[1..]
    else
      var rest := Put(t[1..], k, v);
      assert Keys([t[0]] + rest) == [t[0].0] + Keys(rest);
      assert Keys(t) == [t[0].0] + Keys(t[1..]);
      if Valid(t) then
        NoDupTail(Keys(t));
        NoDupAppend([t[0].0], Keys(rest));
        [t[0]] + rest
      else
        [t[0]] + rest
  }

  /** `remove`: cuts out the entry for `k`, if there is one. */
  function Delete<K(==,!new), V>(t: Table<K, V>, k: K): (r: Table<K, V>)
    requires Valid(t)
    ensures Valid(r)
    ensures forall j :: Get(r, j) == (if j == k then None else Get(t, j))
    ensures forall j :: j in Keys(r) <==> j != k && j in Keys(t)
    ensures forall e :: e in r ==> e in t
    ensures |r| == (if k in Keys(t) then |t| - 1 else |t|)
    decreases |t|
  {
    assert Keys(t) == (if t == [] then [] else [t[0].0] + Keys(t[1..]));
    if t == [] then []
    else
      NoDupTail(Keys(t));
      if t[0].0 == k then t[1..]
      else
        var rest := Delete(t[1..], k);
        assert Keys([t[0]] + rest) == [t[0].0] + Keys(rest);
        NoDupAppend([t[0].0], Keys(rest));
        [t[0]] + rest
  }
}
