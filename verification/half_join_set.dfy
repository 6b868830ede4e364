/** One side of the symmetric hash join with set semantics (`HalfSetJoinState`).

    The table maps each key to the list of build values seen for it, without duplicates and in
    arrival order; `currentMatches` is the FIFO queue of matches a probe found but could not return
    yet. `VB` is the type of the values this side stores, `VP` the type of the values it is probed
    with (the other side's values). */
module HalfSetJoin {
  import opened Wrappers
  import opened SeqUtil

  datatype HalfSetJoinState<K, VB, VP> = HalfSetJoinState(
    table: map<K, seq<VB>>,
    currentMatches: seq<(K, VP, VB)>)

  /** The representation invariant: every stored list is non-empty and duplicate-free. */
  ghost predicate Valid<K(!new), VB(!new), VP(!new)>(s: HalfSetJoinState<K, VB, VP>)
  {
    forall k | k in s.table :: |s.table[k]| > 0 && NoDup(s.table[k])
  }

  /** The row `(k, v)` is stored in the table. */
  predicate Stored<K(!new), VB(==,!new), VP(!new)>(s: HalfSetJoinState<K, VB, VP>, k: K, v: VB)
  {
    k in s.table && v in s.table[k]
  }

  /** Every match a probe of `k` with value `v` finds, in table order. */
  function MatchesOf<K(!new), VB(==,!new), VP(!new)>(s: HalfSetJoinState<K, VB, VP>, k: K, v: VP): (m: seq<(K, VP, VB)>)
    ensures k !in s.table ==> m == []
    ensures k in s.table ==> |m| == |s.table[k]|
    ensures forall i :: 0 <= i < |m| ==> m[i] == (k, v, s.table[k][i])
  {
    if k in s.table then seq(|s.table[k]|, i requires 0 <= i < |s.table[k]| => (k, v, s.table[k][i]))
    else []
  }

  /** `Default::default()`: an empty table and an empty queue. */
  function Default<K(!new), VB(==,!new), VP(!new)>(): (s: HalfSetJoinState<K, VB, VP>)
    ensures Valid(s)
    ensures forall k, v :: !Stored(s, k, v)
    ensures |s.currentMatches| == 0
  {
    HalfSetJoinState(map[], [])
  }

  /** In a valid table a key is present exactly when some row is stored under it. */
  lemma KeysAreStored<K(!new), VB(!new), VP(!new)>(s: HalfSetJoinState<K, VB, VP>, k: K)
    requires Valid(s)
    ensures k in s.table <==> exists v :: Stored(s, k, v)
  {
    if k in s.table {
      assert Stored(s, k, s.table[k][0]);
    }
  }

  /** `Clear::clear`: empties both the table and the queue. */
  function Clear<K(!new), VB(==,!new), VP(!new)>(s: HalfSetJoinState<K, VB, VP>): (r: HalfSetJoinState<K, VB, VP>)
    ensures r == Default()
  {
    HalfSetJoinState(map[], [])
  }

  /** `build(k, v)`: store `v` under `k` unless it is already there; report whether it was new. */
  function Build<K(!new), VB(==,!new), VP(!new)>(s: HalfSetJoinState<K, VB, VP>, k: K, v: VB): (r: (HalfSetJoinState<K, VB, VP>, bool))
    // novelty: true exactly when the row was not stored before
    ensures r.1 <==> !Stored(s, k, v)
    // afterwards the stored rows are the old ones plus (k, v)
    ensures forall k', v' :: Stored(r.0, k', v') <==> Stored(s, k', v') || (k' == k && v' == v)
    // a key seen for the first time gets the singleton list
    ensures k !in s.table ==> r.0.table == s.table[k := [v]]
    // a new value under a known key is appended at the end of that key's list
    ensures k in s.table && r.1 ==> r.0.table == s.table[k := s.table[k] + [v]]
    // a repeated row changes nothing
    ensures !r.1 ==> r.0 == s
    ensures r.0.currentMatches == s.currentMatches
    ensures Valid(s) ==> Valid(r.0)
  {
    if k in s.table then
      if v !in s.table[k] then
        (s.(table := s.table[k := s.table[k] + [v]]), true)
      else
        (s, false)
    else
      (s.(table := s.table[k := [v]]), true)
  }

  /** `probe(k, v)`: return the first match of `v` against the values stored under `k` and queue the
      others behind the existing queue. */
  function Probe<K(!new), VB(==,!new), VP(!new)>(s: HalfSetJoinState<K, VB, VP>, k: K, v: VP): (r: (HalfSetJoinState<K, VB, VP>, Option<(K, VP, VB)>))
    ensures r.0.table == s.table
    // the queue only grows at its back
    ensures |r.0.currentMatches| >= |s.currentMatches|
    ensures r.0.currentMatches[..|s.currentMatches|] == s.currentMatches
    // the returned match followed by the newly queued ones is every match, in table order
    ensures (if r.1.Some? then [r.1.value] else []) + r.0.currentMatches[|s.currentMatches|..] == MatchesOf(s, k, v)
    // an absent key finds nothing and changes nothing; finding nothing changes nothing
    ensures k !in s.table ==> r.1 == None
    ensures r.1 == None ==> r.0 == s
    // on a valid state a probe finds something exactly when the key is present
    ensures Valid(s) ==> (r.1.Some? <==> k in s.table)
  {
    if k in s.table then
      var all := MatchesOf(s, k, v);
      if |all| == 0 then (s, None)
      else (s.(currentMatches := s.currentMatches + all[1..]), Some(all[0]))
    else
      (s, None)
  }

  /** On a valid state with an empty queue, a probe returns one stored match of `k` and queues
      every other one, each once. */
  lemma ProbeFindsEveryMatch<K(!new), VB(!new), VP(!new)>(s: HalfSetJoinState<K, VB, VP>, k: K, v: VP)
    requires Valid(s) && |s.currentMatches| == 0
    ensures var (s1, m) := Probe(s, k, v);
      && s1.table == s.table
      && (m.None? <==> k !in s.table)
      && (m.Some? ==> m.value.0 == k && m.value.1 == v && Stored(s, k, m.value.2))
      && NoDup(s1.currentMatches)
      && (forall x | x in s1.currentMatches :: x.0 == k && x.1 == v)
      && (forall w :: (k, v, w) in s1.currentMatches <==> m.Some? && Stored(s, k, w) && w != m.value.2)
  {
    var (s1, m) := Probe(s, k, v);
    if k in s.table {
      var vs := s.table[k];
      assert [m.value] + s1.currentMatches == MatchesOf(s, k, v);
      assert m.value == (k, v, vs[0]);
      QueuedTail(vs, s1.currentMatches, k, v);
    }
  }

  /** The matches queued behind the first one are the other stored values, each once. */
  lemma QueuedTail<K, VB, VP>(vs: seq<VB>, tail: seq<(K, VP, VB)>, k: K, v: VP)
    requires NoDup(vs) && |vs| > 0 && |tail| == |vs| - 1
    requires forall i | 0 <= i < |tail| :: tail[i] == (k, v, vs[i + 1])
    ensures NoDup(tail)
    ensures forall x | x in tail :: x.0 == k && x.1 == v
    ensures forall w :: (k, v, w) in tail <==> w in vs && w != vs[0]
  {
    forall i, j | 0 <= i < j < |tail| ensures tail[i] != tail[j] {
      assert vs[i + 1] != vs[j + 1];
    }
    forall x | x in tail ensures x.0 == k && x.1 == v {
      var i :| 0 <= i < |tail| && tail[i] == x;
    }
    forall w ensures (k, v, w) in tail <==> w in vs && w != vs[0] {
      if (k, v, w) in tail {
        var i :| 0 <= i < |tail| && tail[i] == (k, v, w);
        assert vs[i + 1] == w;
        assert vs[0] != vs[i + 1];
      }
      if w in vs && w != vs[0] {
        var i :| 0 <= i < |vs| && vs[i] == w;
        assert i > 0;
        assert tail[i - 1] == (k, v, vs[i]);
      }
    }
  }

  /** `pop_match()`: take the oldest queued match. */
  function PopMatch<K(!new), VB(==,!new), VP(!new)>(s: HalfSetJoinState<K, VB, VP>): (r: (HalfSetJoinState<K, VB, VP>, Option<(K, VP, VB)>))
    ensures r.0.table == s.table
    ensures r.1 == None <==> |s.currentMatches| == 0
    // FIFO: the returned match followed by the remaining queue is the old queue
    ensures (if r.1.Some? then [r.1.value] else []) + r.0.currentMatches == s.currentMatches
  {
    if |s.currentMatches| == 0 then (s, None)
    else (s.(currentMatches := s.currentMatches[1..]), Some(s.currentMatches[0]))
  }

  /** `len()`: the number of distinct keys (not of rows). */
  function Len<K(!new), VB(==,!new), VP(!new)>(s: HalfSetJoinState<K, VB, VP>): nat
  {
    |s.table|
  }

  /** The rows stored under the keys of `order`, key by key, each key's values in list order. */
  function Rows<K(!new), VB(==,!new), VP(!new)>(s: HalfSetJoinState<K, VB, VP>, order: seq<K>): (rows: seq<(K, VB)>)
    requires forall k | k in order :: k in s.table
  {
    if |order| == 0 then []
    else
      var k := order[0];
      seq(|s.table[k]|, i requires 0 <= i < |s.table[k]| => (k, s.table[k][i])) + Rows(s, order[1..])
  }

  /** `iter()`: every stored row; `order` is the table's (unspecified) hash iteration order. */
  function Iter<K(!new), VB(==,!new), VP(!new)>(s: HalfSetJoinState<K, VB, VP>, order: seq<K>): seq<(K, VB)>
    requires Enumerates(order, s.table.Keys)
  {
    Rows(s, order)
  }

  /** Total number of stored rows under the keys of `order`. */
  function RowCount<K(!new), VB(==,!new), VP(!new)>(s: HalfSetJoinState<K, VB, VP>, order: seq<K>): nat
    requires forall k | k in order :: k in s.table
  {
    if |order| == 0 then 0 else |s.table[order[0]]| + RowCount(s, order[1..])
  }

  lemma {:induction false} RowsContents<K(!new), VB(!new), VP(!new)>(s: HalfSetJoinState<K, VB, VP>, order: seq<K>)
    requires forall k | k in order :: k in s.table
    ensures forall k, v :: (k, v) in Rows(s, order) <==> k in order && Stored(s, k, v)
    ensures |Rows(s, order)| == RowCount(s, order)
    ensures Valid(s) && NoDup(order) ==> NoDup(Rows(s, order))
  {
    if |order| > 0 {
      var k := order[0];
      var head := seq(|s.table[k]|, i requires 0 <= i < |s.table[k]| => (k, s.table[k][i]));
      RowsContents(s, order[1..]);
      assert Rows(s, order) == head + Rows(s, order[1..]);
      forall k', v
        ensures (k', v) in Rows(s, order) <==> k' in order && Stored(s, k', v)
      {
        if (k', v) in head {
          var i :| 0 <= i < |head| && head[i] == (k', v);
        }
        if k' == k && v in s.table[k] {
          var i :| 0 <= i < |s.table[k]| && s.table[k][i] == v;
          assert head[i] == (k', v);
        }
        assert k' in order <==> k' == k || k' in order[1..];
      }
      if Valid(s) && NoDup(order) {
        NoDupTail(order);
        assert NoDup(head) by {
          forall i, j | 0 <= i < j < |head| ensures head[i] != head[j] {
            assert head[i].1 == s.table[k][i] && head[j].1 == s.table[k][j];
          }
        }
        forall x | x in head ensures x !in Rows(s, order[1..]) {
          assert x.0 == k;
        }
        NoDupAppend(head, Rows(s, order[1..]));
      }
    }
  }

  /** `iter()` yields every stored row, and, on a valid state, each of them exactly once. */
  lemma IterYieldsEachRowOnce<K(!new), VB(!new), VP(!new)>(s: HalfSetJoinState<K, VB, VP>, order: seq<K>)
    requires Enumerates(order, s.table.Keys)
    ensures forall k, v :: (k, v) in Iter(s, order) <==> Stored(s, k, v)
    ensures Valid(s) ==> NoDup(Iter(s, order))
    ensures |Iter(s, order)| == RowCount(s, order)
  {
    RowsContents(s, order);
    forall k | k in order ensures k in s.table {
      assert k in (set x | x in order);
    }
    forall k, v
      ensures (k, v) in Iter(s, order) <==> Stored(s, k, v)
    {
      if Stored(s, k, v) {
        assert k in (set x | x in order);
      }
    }
  }

  lemma {:induction false} RowCountAtLeastKeys<K(!new), VB(!new), VP(!new)>(s: HalfSetJoinState<K, VB, VP>, order: seq<K>)
    requires Valid(s)
    requires forall k | k in order :: k in s.table
    ensures RowCount(s, order) >= |order|
  {
    if |order| > 0 {
      RowCountAtLeastKeys(s, order[1..]);
    }
  }

  /** `len()` counts keys, so it never exceeds the number of rows `iter()` yields, and is zero
      exactly when `iter()` yields nothing. */
  lemma LenCountsKeys<K(!new), VB(!new), VP(!new)>(s: HalfSetJoinState<K, VB, VP>, order: seq<K>)
    requires Valid(s)
    requires Enumerates(order, s.table.Keys)
    ensures Len(s) <= |Iter(s, order)|
    ensures Len(s) == 0 <==> |Iter(s, order)| == 0
  {
    IterYieldsEachRowOnce(s, order);
    forall k | k in order ensures k in s.table {
      assert k in (set x | x in order);
    }
    RowCountAtLeastKeys(s, order);
    assert |order| == Len(s) by {
      DistinctCardinality(order);
    }
  }

  lemma {:induction false} DistinctCardinality<T>(s: seq<T>)
    requires NoDup(s)
    ensures |set x | x in s| == |s|
  {
    if |s| > 0 {
      NoDupTail(s);
      DistinctCardinality(s[1..]);
      assert (set x | x in s) == {s[0]} + (set x | x in s[1..]);
    }
  }
}
