/** `Bag`: a multiset stored as a hash map from item to its number of copies, with a running total
    `len` so that the size is known without a walk over the map. */
module Bags {
  import opened Wrappers
  import opened SeqUtil
  import opened Tables
  import opened RepeatIter

  datatype Bag<T> = Bag(items: Table<T, nat>, len: nat)

  /** The empty bag (`Default`). */
  function Default<T(!new)>(): (b: Bag<T>)
    ensures Valid(b) && b.len == 0 && Contents(b) == multiset{}
  {
    Bag([], 0)
  }

  /** The count stored under `x`, or 0 when it has no entry. */
  function CountIn<T(==,!new)>(t: Table<T, nat>, x: T): nat
  {
    match Get(t, x)
    case Some(c) => c
    case None => 0
  }

  /** The number of copies of `x`. */
  function Count<T(==,!new)>(b: Bag<T>, x: T): nat
  {
    CountIn(b.items, x)
  }

  /** The bag's invariant: keys are distinct, every stored count is at least one, and `len` is
      the sum of the counts. */
  predicate Valid<T(==,!new)>(b: Bag<T>)
  {
    && Tables.Valid(b.items)
    && (forall e :: e in b.items ==> e.1 >= 1)
    && b.len == Total(b.items)
  }

  /** The multiset the bag stands for. */
  function Contents<T>(b: Bag<T>): multiset<T>
  {
    multiset(Flatten(b.items))
  }

  /** Under the invariant the contents hold every item as often as its count says, and `len` is
      their size. */
  lemma ContentsCount<T(!new)>(b: Bag<T>)
    requires Valid(b)
    ensures forall x :: Contents(b)[x] == Count(b, x)
    ensures |Contents(b)| == b.len
  {
    FlattenCounts(b.items);
    forall x ensures CountOf(b.items, x) == Count(b, x) {
      CountOfUnique(b.items, x);
    }
  }

  /** With distinct keys only `x`'s own entry counts towards `x`. */
  lemma {:induction false} CountOfUnique<T(!new)>(t: Table<T, nat>, x: T)
    requires Tables.Valid(t)
    ensures CountOf(t, x) == CountIn(t, x)
    decreases |t|
  {
    if t != [] {
      assert Keys(t[1..]) == Keys(t)[1..];
      NoDupTail(Keys(t));
      CountOfUnique(t[1..], x);
      if t[0].0 == x {
        assert Get(t[1..], x).None?;
      }
    }
  }

  lemma CountInPut<T(!new)>(t: Table<T, nat>, k: T, c: nat)
    ensures forall x :: CountIn(Put<T, nat>(t, k, c), x) == if x == k then c else CountIn(t, x)
  {
  }

  lemma CountInDelete<T(!new)>(t: Table<T, nat>, k: T)
    requires Tables.Valid(t)
    ensures forall x :: CountIn(Delete<T, nat>(t, k), x) == if x == k then 0 else CountIn(t, x)
  {
  }

  /** Every stored count stays at least one when a positive count is put in. */
  lemma PositivePut<T(!new)>(t: Table<T, nat>, k: T, c: nat)
    requires (forall e :: e in t ==> e.1 >= 1) && c >= 1
    ensures forall e :: e in Put<T, nat>(t, k, c) ==> e.1 >= 1
  {
  }

  /** Replacing `k`'s entry changes the total by the difference of the counts. */
  lemma {:induction false} TotalPut<T(!new)>(t: Table<T, nat>, k: T, c: nat)
    requires Tables.Valid(t)
    ensures Total(Put<T, nat>(t, k, c)) + CountIn(t, k) == Total(t) + c
    decreases |t|
  {
    if t != [] {
      assert Keys(t[1..]) == Keys(t)[1..];
      NoDupTail(Keys(t));
      if t[0].0 != k {
        TotalPut(t[1..], k, c);
        assert Put<T, nat>(t, k, c) == [t[0]] + Put<T, nat>(t[1..], k, c);
      }
    }
  }

  /** Deleting `k`'s entry takes its count off the total. */
  lemma {:induction false} TotalDelete<T(!new)>(t: Table<T, nat>, k: T)
    requires Tables.Valid(t)
    ensures Total(Delete<T, nat>(t, k)) + CountIn(t, k) == Total(t)
    decreases |t|
  {
    if t != [] {
      assert Keys(t[1..]) == Keys(t)[1..];
      NoDupTail(Keys(t));
      if t[0].0 != k {
        TotalDelete(t[1..], k);
        assert Delete<T, nat>(t, k) == [t[0]] + Delete<T, nat>(t[1..], k);
      }
    }
  }

  /** `insert`: one more copy of `item`, and one more in `len`. */
  function Insert<T(==,!new)>(b: Bag<T>, item: T): (r: Bag<T>)
    ensures forall x :: Count(r, x) == Count(b, x) + (if x == item then 1 else 0)
    ensures r.len == b.len + 1
    ensures Valid(b) ==> Valid(r)
  {
    var c: nat := Count(b, item) + 1;
    var items: Table<T, nat> := Put<T, nat>(b.items, item, c);
    CountInPut(b.items, item, c);
    InsertKeepsValid(b, item);
    Bag(items, b.len + 1)
  }

  lemma InsertKeepsValid<T(!new)>(b: Bag<T>, item: T)
    ensures Valid(b) ==> Valid(Bag(Put<T, nat>(b.items, item, Count(b, item) + 1), b.len + 1))
  {
    if Valid(b) {
      TotalPut(b.items, item, Count(b, item) + 1);
      PositivePut(b.items, item, Count(b, item) + 1);
    }
  }

  /** `remove_one`: one copy fewer of `item` when it is present, dropping its entry when that was
      the last copy; nothing happens when it is absent. */
  function RemoveOne<T(==,!new)>(b: Bag<T>, item: T): (r: Bag<T>)
    requires Valid(b)
    ensures Valid(r)
    ensures forall x :: Count(r, x) == if x == item && Count(b, x) > 0 then Count(b, x) - 1 else Count(b, x)
    ensures r.len == if Count(b, item) > 0 then b.len - 1 else b.len
    ensures Count(b, item) == 0 ==> r == b
  {
    if Count(b, item) == 0 then b else DropCopy(b, item)
  }

  /** One copy fewer of an item that is present, dropping its entry with the last copy. */
  function DropCopy<T(==,!new)>(b: Bag<T>, item: T): (r: Bag<T>)
    requires Valid(b) && Count(b, item) > 0
    ensures Valid(r) && r.len + 1 == b.len
    ensures forall x :: Count(r, x) == if x == item then Count(b, x) - 1 else Count(b, x)
  {
    var c := Count(b, item);
    if c == 1 then
      DropLastCopy(b, item);
      Bag(Delete<T, nat>(b.items, item), b.len - 1)
    else
      DropOneCopy(b, item);
      Bag(Put<T, nat>(b.items, item, c - 1), b.len - 1)
  }

  /** Removing the last copy deletes the item's entry. */
  lemma DropLastCopy<T(!new)>(b: Bag<T>, item: T)
    requires Valid(b) && Count(b, item) == 1
    ensures b.len >= 1
    ensures var r := Bag(Delete<T, nat>(b.items, item), b.len - 1);
      Valid(r) && forall x :: Count(r, x) == if x == item then 0 else Count(b, x)
  {
    TotalDelete(b.items, item);
    CountInDelete(b.items, item);
  }

  /** Removing one of several copies lowers the item's count. */
  lemma DropOneCopy<T(!new)>(b: Bag<T>, item: T)
    requires Valid(b) && Count(b, item) > 1
    ensures b.len >= 1
    ensures var r := Bag(Put<T, nat>(b.items, item, Count(b, item) - 1), b.len - 1);
      Valid(r) && forall x :: Count(r, x) == if x == item then Count(b, x) - 1 else Count(b, x)
  {
    var c := Count(b, item);
    TotalPut(b.items, item, c - 1);
    CountInPut(b.items, item, c - 1);
    PositivePut(b.items, item, c - 1);
  }

  /** `remove`: every copy of `item` goes, and `len` drops by their number. */
  function Remove<T(==,!new)>(b: Bag<T>, item: T): (r: Bag<T>)
    requires Valid(b)
    ensures Valid(r)
    ensures forall x :: Count(r, x) == if x == item then 0 else Count(b, x)
    ensures r.len == b.len - Count(b, item)
  {
    match Get(b.items, item)
    case Some(c) =>
      TotalDelete(b.items, item);
      CountInDelete(b.items, item);
      Bag(Delete<T, nat>(b.items, item), b.len - c)
    case None => b
  }

  /** `len`: the size of the multiset, read off the running total. */
  function Len<T(!new)>(b: Bag<T>): (n: nat)
    requires Valid(b)
    ensures n == |Contents(b)|
  {
    ContentsCount(b);
    b.len
  }

  /** `extend`: inserts the items one by one, in order. */
  function Extend<T(==,!new)>(b: Bag<T>, items: seq<T>): (r: Bag<T>)
    ensures forall x :: Count(r, x) == Count(b, x) + multiset(items)[x]
    ensures r.len == b.len + |items|
    ensures Valid(b) ==> Valid(r)
    decreases |items|
  {
    if items == [] then b
    else
      assert items == [items[0]] + items[1..];
      Extend(Insert(b, items[0]), items[1..])
  }

  /** `iter()`: the repeat iterator over the bag's entries. */
  function Iter<T>(b: Bag<T>): RepeatIter<T>
  {
    Start(b.items)
  }

  /** `into_iter()`: every entry's item, as many times as its count, entry by entry. */
  function IntoIter<T(!new)>(b: Bag<T>): (r: seq<T>)
    requires Valid(b)
    ensures |r| == b.len && forall x :: multiset(r)[x] == Count(b, x)
  {
    ContentsCount(b);
    Flatten(b.items)
  }

  /** `iter()` yields every item exactly as often as it is in the bag, `len` items in all, and
      the same sequence as `into_iter()`. */
  lemma IterYieldsContents<T(!new)>(b: Bag<T>)
    requires Valid(b)
    ensures Positive(Iter(b))
    ensures |Pending(Iter(b))| == b.len && forall x :: multiset(Pending(Iter(b)))[x] == Count(b, x)
    ensures Pending(Iter(b)) == IntoIter(b)
  {
    ContentsCount(b);
    forall i | 0 <= i < |b.items| ensures b.items[i].1 >= 1 {
      assert b.items[i] in b.items;
    }
  }

  /** The operations on the multiset the bag stands for: `insert` adds one copy, `remove_one`
      takes one away, `remove` takes all of them, `extend` adds the items. */
  lemma InsertContents<T(!new)>(b: Bag<T>, item: T)
    requires Valid(b)
    ensures Contents(Insert(b, item)) == Contents(b) + multiset{item}
  {
    ContentsCount(b);
    ContentsCount(Insert(b, item));
  }

  lemma RemoveOneContents<T(!new)>(b: Bag<T>, item: T)
    requires Valid(b)
    ensures Contents(RemoveOne(b, item)) == Contents(b) - multiset{item}
  {
    ContentsCount(b);
    ContentsCount(RemoveOne(b, item));
  }

  lemma RemoveContents<T(!new)>(b: Bag<T>, item: T)
    requires Valid(b)
    ensures Contents(Remove(b, item)) == Contents(b)[item := 0]
  {
    ContentsCount(b);
    ContentsCount(Remove(b, item));
  }

  lemma ExtendContents<T(!new)>(b: Bag<T>, items: seq<T>)
    requires Valid(b)
    ensures Contents(Extend(b, items)) == Contents(b) + multiset(items)
  {
    ContentsCount(b);
    ContentsCount(Extend(b, items));
  }

  /** `remove_one` undoes `insert`. */
  lemma RemoveOneUndoesInsert<T(!new)>(b: Bag<T>, item: T)
    requires Valid(b)
    ensures Contents(RemoveOne(Insert(b, item), item)) == Contents(b)
    ensures RemoveOne(Insert(b, item), item).len == b.len
  {
    InsertContents(b, item);
    RemoveOneContents(Insert(b, item), item);
  }
}
