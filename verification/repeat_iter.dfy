/** The iterator shared by `Bag::iter` and the keyed-count store's `HashMapIter`: it walks a hash
    map of `(item, count)` entries and yields each item `count` times in a row, keeping the item
    being repeated and how many copies of it are still owed in `repeat`. */
module RepeatIter {
  import opened Wrappers

  /** `parent` is the rest of the map's entries, in iteration order; `repeat` the entry being
      repeated with the copies of it not yet counted down. */
  datatype RepeatIter<T> = RepeatIter(parent: seq<(T, nat)>, repeat: Option<(T, nat)>)

  /** `n` copies of `x`: `repeat(x).take(n)`. */
  function Copies<T>(x: T, n: nat): (r: seq<T>)
  {
    seq(n, _ => x)
  }

  /** Every entry's item, `count` times each, entry by entry: the flattening of the entries. */
  function Flatten<T>(entries: seq<(T, nat)>): (r: seq<T>)
    decreases |entries|
  {
    if entries == [] then [] else Copies(entries[0].0, entries[0].1) + Flatten(entries[1..])
  }

  /** A fresh iterator over `entries`. */
  function Start<T>(entries: seq<(T, nat)>): (it: RepeatIter<T>)
    ensures it.parent == entries && it.repeat == None
  {
    RepeatIter(entries, None)
  }

  /** Every entry still to come has a positive count, and the entry being repeated has at least
      the copy being counted down: what the counting down needs in order not to go below zero. */
  predicate Positive<T>(it: RepeatIter<T>)
  {
    && (forall i :: 0 <= i < |it.parent| ==> it.parent[i].1 >= 1)
    && (it.repeat.Some? ==> it.repeat.value.1 >= 1)
  }

  /** The items the iterator has still to yield. */
  function Pending<T>(it: RepeatIter<T>): seq<T>
    requires it.repeat.Some? ==> it.repeat.value.1 >= 1
  {
    match it.repeat
    case Some((x, count)) => Copies(x, count - 1) + Flatten(it.parent)
    case None => Flatten(it.parent)
  }

  /** `next()`: count the repeated entry down and yield it again while copies remain; once it is
      used up, take the next entry of the map, yield its item and start repeating it. The count
      of the repeated entry is decremented before it is tested, so it must be at least one. */
  function Next<T>(it: RepeatIter<T>): (r: (Option<T>, RepeatIter<T>))
    requires it.repeat.Some? ==> it.repeat.value.1 >= 1
    ensures r.0.None? <==> (it.repeat.None? || it.repeat.value.1 == 1) && it.parent == []
  {
    var afterRepeat :=
      match it.repeat
      case Some((x, count)) =>
        if count - 1 > 0 then Some((x, RepeatIter(it.parent, Some((x, count - 1))))) else None
      case None => None;
    if afterRepeat.Some? then (Some(afterRepeat.value.0), afterRepeat.value.1)
    else if it.parent != [] then
      (Some(it.parent[0].0), RepeatIter(it.parent[1..], Some(it.parent[0])))
    else (None, RepeatIter(it.parent, None))
  }

  /** Each call yields exactly the next pending item, and `None` only once nothing is pending:
      the iterator produces `Pending` in order, and then stops. */
  lemma NextYieldsPending<T>(it: RepeatIter<T>)
    requires Positive(it)
    ensures var (item, rest) := Next(it);
            && Positive(rest)
            && (item.None? <==> Pending(it) == [])
            && (item.Some? ==> Pending(it) == [item.value] + Pending(rest))
  {
    var (item, rest) := Next(it);
    if it.parent != [] {
      assert it.parent[0].1 >= 1;
      assert Flatten(it.parent) == Copies(it.parent[0].0, it.parent[0].1) + Flatten(it.parent[1..]);
    }
    match it.repeat
    case Some((x, count)) =>
      if count - 1 > 0 {
        assert Copies(x, count - 1) == [x] + Copies(x, count - 2);
      }
    case None =>
  }

  /** Pulling the iterator until it returns `None`, collecting what it yields. */
  method Drain<T>(start: RepeatIter<T>) returns (out: seq<T>)
    requires Positive(start)
    ensures out == Pending(start)
  {
    out := [];
    var it := start;
    while true
      invariant Positive(it)
      invariant out + Pending(it) == Pending(start)
      decreases |Pending(it)|
    {
      NextYieldsPending(it);
      var (item, rest) := Next(it);
      if item.None? {
        return;
      }
      out := out + [item.value];
      it := rest;
    }
  }

  /** How often `x` occurs among the flattened entries: the sum of the counts of its entries. */
  function CountOf<T(==)>(entries: seq<(T, nat)>, x: T): nat
    decreases |entries|
  {
    if entries == [] then 0
    else (if entries[0].0 == x then entries[0].1 else 0) + CountOf(entries[1..], x)
  }

  /** The total of all counts. */
  function Total<T>(entries: seq<(T, nat)>): nat
    decreases |entries|
  {
    if entries == [] then 0 else entries[0].1 + Total(entries[1..])
  }

  /** The flattening holds every item as often as its counts say, and as many items as the
      counts add up to. */
  lemma {:induction false} FlattenCounts<T>(entries: seq<(T, nat)>)
    ensures |Flatten(entries)| == Total(entries)
    ensures forall x :: multiset(Flatten(entries))[x] == CountOf(entries, x)
    decreases |entries|
  {
    if entries != [] {
      FlattenCounts(entries[1..]);
      var (y, n) := entries[0];
      assert multiset(Copies(y, n)) == multiset{}[y := n] by {
        CopiesMultiset(y, n);
      }
      assert multiset(Flatten(entries)) == multiset(Copies(y, n)) + multiset(Flatten(entries[1..]));
    }
  }

  lemma {:induction false} CopiesMultiset<T>(x: T, n: nat)
    ensures multiset(Copies(x, n)) == multiset{}[x := n]
    decreases n
  {
    if n > 0 {
      CopiesMultiset(x, n - 1);
      assert Copies(x, n) == Copies(x, n - 1) + [x];
    }
  }
}
