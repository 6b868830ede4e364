/** What one invocation of the join pull loop emits: every pair of matching rows that is new to
    the join, each exactly once; and on a new tick also every pair already joined before.

    The proof tracks the set of outputs still `Owed` by a pull state (queued matches, pairs the
    saved rows will find, pairs whose rows have not both been built yet) and shows that each call of
    `next` emits one owed output and owes it no more, or emits nothing when nothing is owed. */
module JoinExactlyOnce {
  import opened Wrappers
  import opened SeqUtil
  import opened HalfSetJoin
  import opened JoinPull

  /** The output `t` is waiting in one of the two match queues. */
  ghost predicate InQueue<K(!new), V1(!new), V2(!new)>(p: Pull<K, V1, V2>, t: (K, (V1, V2)))
  {
    (t.0, t.1.1, t.1.0) in p.lhs.currentMatches || (t.0, t.1.0, t.1.1) in p.rhs.currentMatches
  }

  /** The output `t` will be found by re-probing one of the saved rows. */
  ghost predicate InReprobe<K(!new), V1(!new), V2(!new)>(p: Pull<K, V1, V2>, t: (K, (V1, V2)))
  {
    match p.keys
    case ReprobeLhs(rows) => (t.0, t.1.0) in rows && Stored(p.rhs, t.0, t.1.1)
    case ReprobeRhs(rows) => (t.0, t.1.1) in rows && Stored(p.lhs, t.0, t.1.0)
    case NoReprobe => false
  }

  /** The row is in the left table already or still to be read from the left input. */
  ghost predicate FinalLhs<K(!new), V1(!new), V2(!new)>(p: Pull<K, V1, V2>, k: K, v1: V1)
  {
    Stored(p.lhs, k, v1) || (k, v1) in p.lhsIn
  }

  ghost predicate FinalRhs<K(!new), V1(!new), V2(!new)>(p: Pull<K, V1, V2>, k: K, v2: V2)
  {
    Stored(p.rhs, k, v2) || (k, v2) in p.rhsIn
  }

  /** Both rows of `t` are built already. */
  ghost predicate Joined<K(!new), V1(!new), V2(!new)>(p: Pull<K, V1, V2>, t: (K, (V1, V2)))
  {
    Stored(p.lhs, t.0, t.1.0) && Stored(p.rhs, t.0, t.1.1)
  }

  /** Both rows of `t` will have been built once the inputs are read, but not both are yet. */
  ghost predicate Future<K(!new), V1(!new), V2(!new)>(p: Pull<K, V1, V2>, t: (K, (V1, V2)))
  {
    FinalLhs(p, t.0, t.1.0) && FinalRhs(p, t.0, t.1.1) && !Joined(p, t)
  }

  /** The outputs the rest of the iteration must still produce. */
  ghost predicate Owed<K(!new), V1(!new), V2(!new)>(p: Pull<K, V1, V2>, t: (K, (V1, V2)))
  {
    InQueue(p, t) || InReprobe(p, t) || Future(p, t)
  }

  ghost predicate RowsOk<K(!new), V1(!new), V2(!new)>(p: Pull<K, V1, V2>)
  {
    match p.keys
    case ReprobeLhs(rows) => NoDup(rows) && forall i | 0 <= i < |rows| :: Stored(p.lhs, rows[i].0, rows[i].1)
    case ReprobeRhs(rows) => NoDup(rows) && forall i | 0 <= i < |rows| :: Stored(p.rhs, rows[i].0, rows[i].1)
    case NoReprobe => true
  }

  /** The invariant of the pull state between calls of `next`. */
  ghost predicate Inv<K(!new), V1(!new), V2(!new)>(p: Pull<K, V1, V2>, layout: Layout)
  {
    && Valid(p.lhs) && Valid(p.rhs)
    && NoDup(p.lhs.currentMatches) && NoDup(p.rhs.currentMatches)
    // a queue is drained before the next probe, so at most one of them holds anything
    && (|p.lhs.currentMatches| == 0 || |p.rhs.currentMatches| == 0)
    && (forall m | m in p.lhs.currentMatches :: Stored(p.lhs, m.0, m.2) && Stored(p.rhs, m.0, m.1))
    && (forall m | m in p.rhs.currentMatches :: Stored(p.lhs, m.0, m.1) && Stored(p.rhs, m.0, m.2))
    && (forall t | InQueue(p, t) :: !InReprobe(p, t))
    && RowsOk(p)
    // the expanded order re-probes before it pops the left queue
    && (layout == Expanded ==> !p.keys.ReprobeRhs? && (|p.lhs.currentMatches| > 0 ==> RowsLeft(p.keys) == 0))
  }

  /** The rows each side will end up with are the same in `p` and `q`, and `q`'s tables are valid. */
  ghost predicate KeepsTables<K(!new), V1(!new), V2(!new)>(p: Pull<K, V1, V2>, q: Pull<K, V1, V2>)
  {
    && Valid(q.lhs) && Valid(q.rhs)
    && (forall k, v :: FinalLhs(q, k, v) <==> FinalLhs(p, k, v))
    && (forall k, v :: FinalRhs(q, k, v) <==> FinalRhs(p, k, v))
  }

  ghost predicate SameOwed<K(!new), V1(!new), V2(!new)>(p: Pull<K, V1, V2>, q: Pull<K, V1, V2>)
  {
    forall t :: Owed(p, t) <==> Owed(q, t)
  }

  /** Going from `p` to `q` produced `o`: nothing when nothing was owed, else one owed output that
      is owed no more, with everything else still owed. */
  ghost predicate Emits<K(!new), V1(!new), V2(!new)>(p: Pull<K, V1, V2>, q: Pull<K, V1, V2>, o: Option<(K, (V1, V2))>, layout: Layout)
  {
    && KeepsTables(p, q)
    && (o.None? ==> forall t :: !Owed(p, t))
    && (o.Some? ==> Inv(q, layout) && Owed(p, o.value) && !Owed(q, o.value)
                    && forall t | t != o.value :: Owed(p, t) <==> Owed(q, t))
  }

  lemma EmitsTransfer<K(!new), V1(!new), V2(!new)>(p: Pull<K, V1, V2>, p1: Pull<K, V1, V2>, q: Pull<K, V1, V2>, o: Option<(K, (V1, V2))>, layout: Layout)
    requires SameOwed(p, p1) && KeepsTables(p1, p1)
    requires forall k, v :: FinalLhs(p1, k, v) <==> FinalLhs(p, k, v)
    requires forall k, v :: FinalRhs(p1, k, v) <==> FinalRhs(p, k, v)
    requires Emits(p1, q, o, layout)
    ensures Emits(p, q, o, layout)
  {
  }

  /** Popping the left queue emits its head. */
  lemma PopLhsStep<K(!new), V1(!new), V2(!new)>(p: Pull<K, V1, V2>, layout: Layout)
    requires Inv(p, layout) && |p.lhs.currentMatches| > 0
    ensures var (lhs1, m) := PopMatch(p.lhs);
      m.Some? && Emits(p, p.(lhs := lhs1), Some(FromLhsMatch(m.value)), layout)
  {
    var (lhs1, m) := PopMatch(p.lhs);
    var q := p.(lhs := lhs1);
    var o := FromLhsMatch(m.value);
    var cm := p.lhs.currentMatches;
    assert cm == [m.value] + lhs1.currentMatches;
    NoDupTail(cm);
    assert |p.rhs.currentMatches| == 0;
    forall t ensures InQueue(p, t) <==> InQueue(q, t) || t == o {
      assert (t.0, t.1.1, t.1.0) in cm <==> (t.0, t.1.1, t.1.0) in lhs1.currentMatches || (t.0, t.1.1, t.1.0) == m.value;
    }
    assert InQueue(p, o);
    assert Joined(p, o);
  }

  /** Popping the right queue emits its head. */
  lemma PopRhsStep<K(!new), V1(!new), V2(!new)>(p: Pull<K, V1, V2>, layout: Layout)
    requires Inv(p, layout) && |p.rhs.currentMatches| > 0
    ensures var (rhs1, m) := PopMatch(p.rhs);
      m.Some? && Emits(p, p.(rhs := rhs1), Some(FromRhsMatch(m.value)), layout)
  {
    var (rhs1, m) := PopMatch(p.rhs);
    var q := p.(rhs := rhs1);
    var o := FromRhsMatch(m.value);
    var cm := p.rhs.currentMatches;
    assert cm == [m.value] + rhs1.currentMatches;
    NoDupTail(cm);
    assert |p.lhs.currentMatches| == 0;
    forall t ensures InQueue(p, t) <==> InQueue(q, t) || t == o {
      assert (t.0, t.1.0, t.1.1) in cm <==> (t.0, t.1.0, t.1.1) in rhs1.currentMatches || (t.0, t.1.0, t.1.1) == m.value;
    }
    assert InQueue(p, o);
    assert Joined(p, o);
  }

  /** The rows after the taken one are the saved rows without it. */
  lemma TakeRowFacts<R>(rows: seq<R>, layout: Layout)
    requires |rows| > 0 && NoDup(rows)
    ensures var (row, rest) := TakeRow(rows, layout);
      NoDup(rest) && row !in rest && row in rows
      && (forall x :: x in rows <==> x == row || x in rest)
      && (forall x | x in rest :: x in rows)
  {
    var (row, rest) := TakeRow(rows, layout);
    if layout == Generated {
      NoDupPrefix(rows);
      assert rows == rest + [row];
    } else {
      NoDupTail(rows);
      assert rows == [row] + rest;
    }
  }

  /** The next saved left row is stored, is not among the rows after it, and those rows are stored. */
  lemma ReprobeLhsRows<K(!new), V1(!new), V2(!new)>(p: Pull<K, V1, V2>, layout: Layout, row: (K, V1), rest: seq<(K, V1)>)
    requires RowsOk(p) && p.keys.ReprobeLhs? && |p.keys.lrows| > 0
    requires (row, rest) == TakeRow(p.keys.lrows, layout)
    ensures Stored(p.lhs, row.0, row.1) && row !in rest
    ensures forall x :: x in p.keys.lrows <==> x == row || x in rest
    ensures forall q: Pull<K, V1, V2> | q.lhs == p.lhs && q.keys == ReprobeLhs(rest) :: RowsOk(q)
  {
    var rows := p.keys.lrows;
    TakeRowFacts(rows, layout);
    assert Stored(p.lhs, row.0, row.1) by {
      var i :| 0 <= i < |rows| && rows[i] == row;
    }
    forall i | 0 <= i < |rest| ensures Stored(p.lhs, rest[i].0, rest[i].1) {
      assert rest[i] in rows;
      var j :| 0 <= j < |rows| && rows[j] == rest[i];
    }
  }

  /** Probing the right side with the next saved left row queues exactly the matches it does not
      return, all of them stored on both sides. */
  lemma ReprobeLhsQueue<K(!new), V1(!new), V2(!new)>(p: Pull<K, V1, V2>, layout: Layout, row: (K, V1), rest: seq<(K, V1)>, rhs1: HalfSetJoinState<K, V2, V1>, m: Option<(K, V1, V2)>)
    requires Inv(p, layout) && Queued(p) == 0 && p.keys.ReprobeLhs? && |p.keys.lrows| > 0
    requires (row, rest) == TakeRow(p.keys.lrows, layout)
    requires (rhs1, m) == Probe(p.rhs, row.0, row.1)
    ensures var p1 := p.(rhs := rhs1, keys := ReprobeLhs(rest));
      && rhs1.table == p.rhs.table
      && NoDup(rhs1.currentMatches)
      && (m.None? ==> rhs1 == p.rhs)
      && (m.Some? ==> m.value.0 == row.0 && m.value.1 == row.1 && Stored(p.rhs, row.0, m.value.2))
      && (forall x | x in rhs1.currentMatches :: Stored(p.lhs, x.0, x.1) && Stored(p.rhs, x.0, x.2))
      && (forall t :: InQueue(p1, t) <==> (t.0, t.1.0) == row && Stored(p.rhs, t.0, t.1.1) && m.Some? && t.1.1 != m.value.2)
  {
    ReprobeLhsRows(p, layout, row, rest);
    ProbeFindsEveryMatch(p.rhs, row.0, row.1);
    var p1 := p.(rhs := rhs1, keys := ReprobeLhs(rest));
    forall t ensures InQueue(p1, t) <==> (t.0, t.1.0) == row && Stored(p.rhs, t.0, t.1.1) && m.Some? && t.1.1 != m.value.2 {
      if InQueue(p1, t) {
        assert (t.0, t.1.0, t.1.1) in rhs1.currentMatches;
      }
    }
  }

  /** After that probe the invariant holds again, and the rows still to re-probe lose exactly that
      row's matches. */
  lemma ReprobeLhsInv<K(!new), V1(!new), V2(!new)>(p: Pull<K, V1, V2>, layout: Layout, row: (K, V1), rest: seq<(K, V1)>, rhs1: HalfSetJoinState<K, V2, V1>, m: Option<(K, V1, V2)>)
    requires Inv(p, layout) && Queued(p) == 0 && p.keys.ReprobeLhs? && |p.keys.lrows| > 0
    requires (row, rest) == TakeRow(p.keys.lrows, layout)
    requires (rhs1, m) == Probe(p.rhs, row.0, row.1)
    ensures var p1 := p.(rhs := rhs1, keys := ReprobeLhs(rest));
      && Inv(p1, layout)
      && rhs1.table == p.rhs.table
      && (m.None? ==> rhs1 == p.rhs)
      && (m.Some? ==> m.value.0 == row.0 && m.value.1 == row.1 && Stored(p.rhs, row.0, m.value.2))
      && (forall t :: InReprobe(p, t) <==> InReprobe(p1, t) || ((t.0, t.1.0) == row && Stored(p.rhs, t.0, t.1.1)))
      && (forall t :: InQueue(p1, t) <==> (t.0, t.1.0) == row && Stored(p.rhs, t.0, t.1.1) && m.Some? && t.1.1 != m.value.2)
  {
    ReprobeLhsRows(p, layout, row, rest);
    ReprobeLhsQueue(p, layout, row, rest, rhs1, m);
    var p1 := p.(rhs := rhs1, keys := ReprobeLhs(rest));
    assert RowsOk(p1);
  }

  /** Probing the right side with the next saved left row. */
  lemma ReprobeLhsOnce<K(!new), V1(!new), V2(!new)>(p: Pull<K, V1, V2>, layout: Layout)
    requires Inv(p, layout) && Queued(p) == 0 && p.keys.ReprobeLhs? && |p.keys.lrows| > 0
    ensures var (row, rest) := TakeRow(p.keys.lrows, layout);
      var (rhs1, m) := Probe(p.rhs, row.0, row.1);
      var p1 := p.(rhs := rhs1, keys := ReprobeLhs(rest));
      (m.None? ==> Inv(p1, layout) && SameOwed(p, p1) && p1 == p.(keys := ReprobeLhs(rest)))
      && (m.Some? ==> Emits(p, p1, Some(FromRhsMatch(m.value)), layout))
  {
    var (row, rest) := TakeRow(p.keys.lrows, layout);
    var (rhs1, m) := Probe(p.rhs, row.0, row.1);
    ReprobeLhsInv(p, layout, row, rest, rhs1, m);
    if m.Some? {
      assert InReprobe(p, FromRhsMatch(m.value));
    }
  }

  /** The next saved right row is stored, is not among the rows after it, and those rows are stored. */
  lemma ReprobeRhsRows<K(!new), V1(!new), V2(!new)>(p: Pull<K, V1, V2>, layout: Layout, row: (K, V2), rest: seq<(K, V2)>)
    requires RowsOk(p) && p.keys.ReprobeRhs? && |p.keys.rrows| > 0
    requires (row, rest) == TakeRow(p.keys.rrows, layout)
    ensures Stored(p.rhs, row.0, row.1) && row !in rest
    ensures forall x :: x in p.keys.rrows <==> x == row || x in rest
    ensures forall q: Pull<K, V1, V2> | q.rhs == p.rhs && q.keys == ReprobeRhs(rest) :: RowsOk(q)
  {
    var rows := p.keys.rrows;
    TakeRowFacts(rows, layout);
    assert Stored(p.rhs, row.0, row.1) by {
      var i :| 0 <= i < |rows| && rows[i] == row;
    }
    forall i | 0 <= i < |rest| ensures Stored(p.rhs, rest[i].0, rest[i].1) {
      assert rest[i] in rows;
      var j :| 0 <= j < |rows| && rows[j] == rest[i];
    }
  }

  /** Probing the left side with the next saved right row queues exactly the matches it does not
      return, all of them stored on both sides. */
  lemma ReprobeRhsQueue<K(!new), V1(!new), V2(!new)>(p: Pull<K, V1, V2>, layout: Layout, row: (K, V2), rest: seq<(K, V2)>, lhs1: HalfSetJoinState<K, V1, V2>, m: Option<(K, V2, V1)>)
    requires Inv(p, layout) && Queued(p) == 0 && p.keys.ReprobeRhs? && |p.keys.rrows| > 0
    requires (row, rest) == TakeRow(p.keys.rrows, layout)
    requires (lhs1, m) == Probe(p.lhs, row.0, row.1)
    ensures var p1 := p.(lhs := lhs1, keys := ReprobeRhs(rest));
      && lhs1.table == p.lhs.table
      && NoDup(lhs1.currentMatches)
      && (m.None? ==> lhs1 == p.lhs)
      && (m.Some? ==> m.value.0 == row.0 && m.value.1 == row.1 && Stored(p.lhs, row.0, m.value.2))
      && (forall x | x in lhs1.currentMatches :: Stored(p.lhs, x.0, x.2) && Stored(p.rhs, x.0, x.1))
      && (forall t :: InQueue(p1, t) <==> (t.0, t.1.1) == row && Stored(p.lhs, t.0, t.1.0) && m.Some? && t.1.0 != m.value.2)
  {
    ReprobeRhsRows(p, layout, row, rest);
    ProbeFindsEveryMatch(p.lhs, row.0, row.1);
    var p1 := p.(lhs := lhs1, keys := ReprobeRhs(rest));
    forall t ensures InQueue(p1, t) <==> (t.0, t.1.1) == row && Stored(p.lhs, t.0, t.1.0) && m.Some? && t.1.0 != m.value.2 {
      if InQueue(p1, t) {
        assert (t.0, t.1.1, t.1.0) in lhs1.currentMatches;
      }
    }
  }

  /** After that probe the invariant holds again, and the rows still to re-probe lose exactly that
      row's matches. */
  lemma ReprobeRhsInv<K(!new), V1(!new), V2(!new)>(p: Pull<K, V1, V2>, layout: Layout, row: (K, V2), rest: seq<(K, V2)>, lhs1: HalfSetJoinState<K, V1, V2>, m: Option<(K, V2, V1)>)
    requires Inv(p, layout) && Queued(p) == 0 && p.keys.ReprobeRhs? && |p.keys.rrows| > 0
    requires (row, rest) == TakeRow(p.keys.rrows, layout)
    requires (lhs1, m) == Probe(p.lhs, row.0, row.1)
    ensures var p1 := p.(lhs := lhs1, keys := ReprobeRhs(rest));
      && Inv(p1, layout)
      && lhs1.table == p.lhs.table
      && (m.None? ==> lhs1 == p.lhs)
      && (m.Some? ==> m.value.0 == row.0 && m.value.1 == row.1 && Stored(p.lhs, row.0, m.value.2))
      && (forall t :: InReprobe(p, t) <==> InReprobe(p1, t) || ((t.0, t.1.1) == row && Stored(p.lhs, t.0, t.1.0)))
      && (forall t :: InQueue(p1, t) <==> (t.0, t.1.1) == row && Stored(p.lhs, t.0, t.1.0) && m.Some? && t.1.0 != m.value.2)
  {
    ReprobeRhsRows(p, layout, row, rest);
    ReprobeRhsQueue(p, layout, row, rest, lhs1, m);
    var p1 := p.(lhs := lhs1, keys := ReprobeRhs(rest));
    assert RowsOk(p1);
  }

  /** Probing the left side with the next saved right row. */
  lemma ReprobeRhsOnce<K(!new), V1(!new), V2(!new)>(p: Pull<K, V1, V2>, layout: Layout)
    requires Inv(p, layout) && Queued(p) == 0 && p.keys.ReprobeRhs? && |p.keys.rrows| > 0
    ensures var (row, rest) := TakeRow(p.keys.rrows, layout);
      var (lhs1, m) := Probe(p.lhs, row.0, row.1);
      var p1 := p.(lhs := lhs1, keys := ReprobeRhs(rest));
      (m.None? ==> Inv(p1, layout) && SameOwed(p, p1) && p1 == p.(keys := ReprobeRhs(rest)))
      && (m.Some? ==> Emits(p, p1, Some(FromLhsMatch(m.value)), layout))
  {
    var (row, rest) := TakeRow(p.keys.rrows, layout);
    var (lhs1, m) := Probe(p.lhs, row.0, row.1);
    ReprobeRhsInv(p, layout, row, rest, lhs1, m);
    if m.Some? {
      assert InReprobe(p, FromLhsMatch(m.value));
    }
  }

  /** The saved-rows loop either emits an owed output, or exhausts the rows having owed nothing
      more than the state without them. */
  lemma {:induction false} ReprobeStep<K(!new), V1(!new), V2(!new)>(p: Pull<K, V1, V2>, layout: Layout)
    requires Inv(p, layout) && |p.rhs.currentMatches| == 0
    requires |p.lhs.currentMatches| == 0 || RowsLeft(p.keys) == 0
    ensures var (q, o) := ReprobeRows(p, layout);
      (o.None? ==> Inv(p.(keys := NoReprobe), layout) && SameOwed(p, p.(keys := NoReprobe)))
      && (o.Some? ==> Emits(p, q, o, layout))
    decreases RowsLeft(p.keys), 1
  {
    if RowsLeft(p.keys) == 0 {
      assert forall t :: !InReprobe(p, t);
      assert ReprobeRows(p, layout).1.None?;
    } else if p.keys.ReprobeLhs? {
      ReprobeLhsStep(p, layout);
    } else {
      ReprobeRhsStep(p, layout);
    }
  }

  lemma {:induction false} ReprobeLhsStep<K(!new), V1(!new), V2(!new)>(p: Pull<K, V1, V2>, layout: Layout)
    requires Inv(p, layout) && Queued(p) == 0 && p.keys.ReprobeLhs? && |p.keys.lrows| > 0
    ensures var (q, o) := ReprobeRows(p, layout);
      (o.None? ==> Inv(p.(keys := NoReprobe), layout) && SameOwed(p, p.(keys := NoReprobe)))
      && (o.Some? ==> Emits(p, q, o, layout))
    decreases RowsLeft(p.keys), 0
  {
    ReprobeLhsOnce(p, layout);
    var (row, rest) := TakeRow(p.keys.lrows, layout);
    var (rhs1, m) := Probe(p.rhs, row.0, row.1);
    if m.None? {
      var p1 := p.(keys := ReprobeLhs(rest));
      assert ReprobeRows(p, layout) == ReprobeRows(p1, layout);
      ReprobeStep(p1, layout);
      assert p1.(keys := NoReprobe) == p.(keys := NoReprobe);
      var (q, o) := ReprobeRows(p1, layout);
      if o.Some? {
        EmitsTransfer(p, p1, q, o, layout);
      }
    } else {
      assert ReprobeRows(p, layout) == (p.(rhs := rhs1, keys := ReprobeLhs(rest)), Some(FromRhsMatch(m.value)));
    }
  }

  lemma {:induction false} ReprobeRhsStep<K(!new), V1(!new), V2(!new)>(p: Pull<K, V1, V2>, layout: Layout)
    requires Inv(p, layout) && Queued(p) == 0 && p.keys.ReprobeRhs? && |p.keys.rrows| > 0
    ensures var (q, o) := ReprobeRows(p, layout);
      (o.None? ==> Inv(p.(keys := NoReprobe), layout) && SameOwed(p, p.(keys := NoReprobe)))
      && (o.Some? ==> Emits(p, q, o, layout))
    decreases RowsLeft(p.keys), 0
  {
    ReprobeRhsOnce(p, layout);
    var (row, rest) := TakeRow(p.keys.rrows, layout);
    var (lhs1, m) := Probe(p.lhs, row.0, row.1);
    if m.None? {
      var p1 := p.(keys := ReprobeRhs(rest));
      assert ReprobeRows(p, layout) == ReprobeRows(p1, layout);
      ReprobeStep(p1, layout);
      assert p1.(keys := NoReprobe) == p.(keys := NoReprobe);
      var (q, o) := ReprobeRows(p1, layout);
      if o.Some? {
        EmitsTransfer(p, p1, q, o, layout);
      }
    } else {
      assert ReprobeRows(p, layout) == (p.(lhs := lhs1, keys := ReprobeRhs(rest)), Some(FromLhsMatch(m.value)));
    }
  }

  /** Reading a left input row the left table already holds changes nothing owed. */
  lemma PullLhsKnown<K(!new), V1(!new), V2(!new)>(p: Pull<K, V1, V2>, layout: Layout)
    requires Inv(p, layout) && Queued(p) == 0 && RowsLeft(p.keys) == 0 && |p.lhsIn| > 0
    requires Stored(p.lhs, p.lhsIn[0].0, p.lhsIn[0].1)
    ensures var p1 := p.(lhsIn := p.lhsIn[1..]);
      Build(p.lhs, p.lhsIn[0].0, p.lhsIn[0].1) == (p.lhs, false)
      && Inv(p1, layout) && SameOwed(p, p1) && KeepsTables(p, p1)
  {
    var p1 := p.(lhsIn := p.lhsIn[1..]);
    assert p.lhsIn == [p.lhsIn[0]] + p1.lhsIn;
    assert forall t :: !InReprobe(p, t) && !InQueue(p, t);
    assert forall t :: !InReprobe(p1, t) && !InQueue(p1, t);
  }

  /** Reading a left input row new to the left table: the probe it makes emits an owed output or
      changes nothing owed. */
  lemma PullLhsNew<K(!new), V1(!new), V2(!new)>(p: Pull<K, V1, V2>, layout: Layout)
    requires Inv(p, layout) && Queued(p) == 0 && RowsLeft(p.keys) == 0 && |p.lhsIn| > 0
    requires !Stored(p.lhs, p.lhsIn[0].0, p.lhsIn[0].1)
    ensures var (k, v1) := p.lhsIn[0];
      var p1 := p.(lhsIn := p.lhsIn[1..], lhs := Build(p.lhs, k, v1).0);
      var (rhs1, m) := Probe(p1.rhs, k, v1);
      var q := p1.(rhs := rhs1);
      && (m.None? ==> Inv(q, layout) && SameOwed(p, q) && KeepsTables(p, q))
      && (m.Some? ==> Emits(p, q, Some(FromRhsMatch(m.value)), layout))
  {
    PullLhsProbe(p, layout);
    PullLhsTables(p);
    PullLhsOwed(p, layout);
  }

  /** The tables after reading a new left row end up with the same rows. */
  lemma PullLhsTables<K(!new), V1(!new), V2(!new)>(p: Pull<K, V1, V2>)
    requires Valid(p.lhs) && Valid(p.rhs) && |p.lhsIn| > 0
    ensures var (k, v1) := p.lhsIn[0];
      var p1 := p.(lhsIn := p.lhsIn[1..], lhs := Build(p.lhs, k, v1).0);
      var q := p1.(rhs := Probe(p1.rhs, k, v1).0);
      KeepsTables(p, q)
  {
    var (k, v1) := p.lhsIn[0];
    var p1 := p.(lhsIn := p.lhsIn[1..], lhs := Build(p.lhs, k, v1).0);
    assert p.lhsIn == [(k, v1)] + p1.lhsIn;
    forall k', v' ensures FinalLhs(p1, k', v') <==> FinalLhs(p, k', v') {
      assert (k', v') in p.lhsIn <==> (k', v') == (k, v1) || (k', v') in p1.lhsIn;
    }
  }

  /** After reading a new left row, the outputs owed are those owed before, less the match the probe
      returned. */
  lemma PullLhsOwed<K(!new), V1(!new), V2(!new)>(p: Pull<K, V1, V2>, layout: Layout)
    requires Inv(p, layout) && Queued(p) == 0 && RowsLeft(p.keys) == 0 && |p.lhsIn| > 0
    requires !Stored(p.lhs, p.lhsIn[0].0, p.lhsIn[0].1)
    ensures var (k, v1) := p.lhsIn[0];
      var p1 := p.(lhsIn := p.lhsIn[1..], lhs := Build(p.lhs, k, v1).0);
      var (rhs1, m) := Probe(p1.rhs, k, v1);
      var q := p1.(rhs := rhs1);
      forall t :: Owed(q, t) <==> Owed(p, t) && (m.None? || t != FromRhsMatch(m.value))
  {
    var (k, v1) := p.lhsIn[0];
    var p1 := p.(lhsIn := p.lhsIn[1..], lhs := Build(p.lhs, k, v1).0);
    var (rhs1, m) := Probe(p1.rhs, k, v1);
    var q := p1.(rhs := rhs1);
    PullLhsProbe(p, layout);
    PullLhsTables(p);
    assert (k, v1) in p.lhsIn;
    forall t ensures Owed(q, t) <==> Owed(p, t) && (m.None? || t != FromRhsMatch(m.value)) {
      assert !InReprobe(p, t) && !InQueue(p, t) && !InReprobe(q, t);
      if (t.0, t.1.0) == (k, v1) && Stored(p.rhs, t.0, t.1.1) {
        assert m.Some?;
        assert Future(p, t);
      }
    }
  }

  /** Reading a right input row the right table already holds changes nothing owed. */
  lemma PullRhsKnown<K(!new), V1(!new), V2(!new)>(p: Pull<K, V1, V2>, layout: Layout)
    requires Inv(p, layout) && Queued(p) == 0 && RowsLeft(p.keys) == 0 && |p.lhsIn| == 0 && |p.rhsIn| > 0
    requires Stored(p.rhs, p.rhsIn[0].0, p.rhsIn[0].1)
    ensures var p1 := p.(rhsIn := p.rhsIn[1..]);
      Build(p.rhs, p.rhsIn[0].0, p.rhsIn[0].1) == (p.rhs, false)
      && Inv(p1, layout) && SameOwed(p, p1) && KeepsTables(p, p1)
  {
    var p1 := p.(rhsIn := p.rhsIn[1..]);
    assert p.rhsIn == [p.rhsIn[0]] + p1.rhsIn;
    assert forall t :: !InReprobe(p, t) && !InQueue(p, t);
    assert forall t :: !InReprobe(p1, t) && !InQueue(p1, t);
  }

  /** Reading a right input row new to the right table: the probe it makes emits an owed output
      or changes nothing owed. */
  lemma PullRhsNew<K(!new), V1(!new), V2(!new)>(p: Pull<K, V1, V2>, layout: Layout)
    requires Inv(p, layout) && Queued(p) == 0 && RowsLeft(p.keys) == 0 && |p.lhsIn| == 0 && |p.rhsIn| > 0
    requires !Stored(p.rhs, p.rhsIn[0].0, p.rhsIn[0].1)
    ensures var (k, v2) := p.rhsIn[0];
      var p1 := p.(rhsIn := p.rhsIn[1..], rhs := Build(p.rhs, k, v2).0);
      var (lhs1, m) := Probe(p1.lhs, k, v2);
      var q := p1.(lhs := lhs1);
      && (m.None? ==> Inv(q, layout) && SameOwed(p, q) && KeepsTables(p, q))
      && (m.Some? ==> Emits(p, q, Some(FromLhsMatch(m.value)), layout))
  {
    PullRhsProbe(p, layout);
    PullRhsTables(p);
    PullRhsOwed(p, layout);
  }

  /** The tables after reading a new right row end up with the same rows. */
  lemma PullRhsTables<K(!new), V1(!new), V2(!new)>(p: Pull<K, V1, V2>)
    requires Valid(p.lhs) && Valid(p.rhs) && |p.rhsIn| > 0
    ensures var (k, v2) := p.rhsIn[0];
      var p1 := p.(rhsIn := p.rhsIn[1..], rhs := Build(p.rhs, k, v2).0);
      var q := p1.(lhs := Probe(p1.lhs, k, v2).0);
      KeepsTables(p, q)
  {
    var (k, v2) := p.rhsIn[0];
    var p1 := p.(rhsIn := p.rhsIn[1..], rhs := Build(p.rhs, k, v2).0);
    assert p.rhsIn == [(k, v2)] + p1.rhsIn;
    forall k', v' ensures FinalRhs(p1, k', v') <==> FinalRhs(p, k', v') {
      assert (k', v') in p.rhsIn <==> (k', v') == (k, v2) || (k', v') in p1.rhsIn;
    }
  }

  /** After reading a new right row, the outputs owed are those owed before, less the match the
      probe returned. */
  lemma PullRhsOwed<K(!new), V1(!new), V2(!new)>(p: Pull<K, V1, V2>, layout: Layout)
    requires Inv(p, layout) && Queued(p) == 0 && RowsLeft(p.keys) == 0 && |p.lhsIn| == 0 && |p.rhsIn| > 0
    requires !Stored(p.rhs, p.rhsIn[0].0, p.rhsIn[0].1)
    ensures var (k, v2) := p.rhsIn[0];
      var p1 := p.(rhsIn := p.rhsIn[1..], rhs := Build(p.rhs, k, v2).0);
      var (lhs1, m) := Probe(p1.lhs, k, v2);
      var q := p1.(lhs := lhs1);
      forall t :: Owed(q, t) <==> Owed(p, t) && (m.None? || t != FromLhsMatch(m.value))
  {
    var (k, v2) := p.rhsIn[0];
    var p1 := p.(rhsIn := p.rhsIn[1..], rhs := Build(p.rhs, k, v2).0);
    var (lhs1, m) := Probe(p1.lhs, k, v2);
    var q := p1.(lhs := lhs1);
    PullRhsProbe(p, layout);
    PullRhsTables(p);
    assert (k, v2) in p.rhsIn;
    forall t ensures Owed(q, t) <==> Owed(p, t) && (m.None? || t != FromLhsMatch(m.value)) {
      assert !InReprobe(p, t) && !InQueue(p, t) && !InReprobe(q, t);
      if (t.0, t.1.1) == (k, v2) && Stored(p.lhs, t.0, t.1.0) {
        assert m.Some?;
        assert Future(p, t);
      }
    }
  }

  /** The probe made with a left row that was new to the left table. */
  lemma PullLhsProbe<K(!new), V1(!new), V2(!new)>(p: Pull<K, V1, V2>, layout: Layout)
    requires Inv(p, layout) && Queued(p) == 0 && RowsLeft(p.keys) == 0 && |p.lhsIn| > 0
    requires !Stored(p.lhs, p.lhsIn[0].0, p.lhsIn[0].1)
    ensures var (k, v1) := p.lhsIn[0];
      var p1 := p.(lhsIn := p.lhsIn[1..], lhs := Build(p.lhs, k, v1).0);
      var (rhs1, m) := Probe(p1.rhs, k, v1);
      var q := p1.(rhs := rhs1);
      && Inv(q, layout)
      && (forall t :: InQueue(q, t) <==> (t.0, t.1.0) == (k, v1) && Stored(p.rhs, t.0, t.1.1) && (m.Some? && t.1.1 != m.value.2))
      && (m.Some? ==> Future(p, FromRhsMatch(m.value)) && Stored(p.rhs, k, m.value.2) && m.value.0 == k && m.value.1 == v1)
  {
    var (k, v1) := p.lhsIn[0];
    var p1 := p.(lhsIn := p.lhsIn[1..], lhs := Build(p.lhs, k, v1).0);
    var (rhs1, m) := Probe(p1.rhs, k, v1);
    ProbeFindsEveryMatch(p.rhs, k, v1);
    var q := p1.(rhs := rhs1);
    forall t ensures InQueue(q, t) <==> (t.0, t.1.0) == (k, v1) && Stored(p.rhs, t.0, t.1.1) && (m.Some? && t.1.1 != m.value.2) {
      if InQueue(q, t) {
        assert (t.0, t.1.0, t.1.1) in rhs1.currentMatches;
      }
    }
    assert forall t :: !InReprobe(q, t);
    if m.Some? {
      assert (k, v1) in p.lhsIn;
    }
  }

  /** The probe made with a right row that was new to the right table. */
  lemma PullRhsProbe<K(!new), V1(!new), V2(!new)>(p: Pull<K, V1, V2>, layout: Layout)
    requires Inv(p, layout) && Queued(p) == 0 && RowsLeft(p.keys) == 0 && |p.lhsIn| == 0 && |p.rhsIn| > 0
    requires !Stored(p.rhs, p.rhsIn[0].0, p.rhsIn[0].1)
    ensures var (k, v2) := p.rhsIn[0];
      var p1 := p.(rhsIn := p.rhsIn[1..], rhs := Build(p.rhs, k, v2).0);
      var (lhs1, m) := Probe(p1.lhs, k, v2);
      var q := p1.(lhs := lhs1);
      && Inv(q, layout)
      && (forall t :: InQueue(q, t) <==> (t.0, t.1.1) == (k, v2) && Stored(p.lhs, t.0, t.1.0) && (m.Some? && t.1.0 != m.value.2))
      && (m.Some? ==> Future(p, FromLhsMatch(m.value)) && Stored(p.lhs, k, m.value.2) && m.value.0 == k && m.value.1 == v2)
  {
    var (k, v2) := p.rhsIn[0];
    var p1 := p.(rhsIn := p.rhsIn[1..], rhs := Build(p.rhs, k, v2).0);
    var (lhs1, m) := Probe(p1.lhs, k, v2);
    ProbeFindsEveryMatch(p.lhs, k, v2);
    var q := p1.(lhs := lhs1);
    forall t ensures InQueue(q, t) <==> (t.0, t.1.1) == (k, v2) && Stored(p.lhs, t.0, t.1.0) && (m.Some? && t.1.0 != m.value.2) {
      if InQueue(q, t) {
        assert (t.0, t.1.1, t.1.0) in lhs1.currentMatches;
      }
    }
    assert forall t :: !InReprobe(q, t);
    if m.Some? {
      assert (k, v2) in p.rhsIn;
    }
  }

  /** One call of `next` emits an owed output, or nothing once nothing is owed. */
  lemma {:induction false} NextStep<K(!new), V1(!new), V2(!new)>(p: Pull<K, V1, V2>, layout: Layout)
    requires Inv(p, layout)
    ensures Emits(p, Next(p, layout).0, Next(p, layout).1, layout)
    decreases InputsLeft(p), 3
  {
    match layout
    case Generated => GeneratedStep(p);
    case Expanded => ExpandedStep(p);
  }

  lemma {:induction false} GeneratedStep<K(!new), V1(!new), V2(!new)>(p: Pull<K, V1, V2>)
    requires Inv(p, Generated)
    ensures Emits(p, NextGenerated(p).0, NextGenerated(p).1, Generated)
    decreases InputsLeft(p), 2
  {
    if |p.lhs.currentMatches| > 0 {
      PopLhsStep(p, Generated);
    } else if |p.rhs.currentMatches| > 0 {
      PopRhsStep(p, Generated);
    } else {
      ReprobeStep(p, Generated);
      var (p2, hit) := ReprobeRows(p, Generated);
      if hit.None? {
        var p3 := p2.(keys := NoReprobe);
        assert p3 == p.(keys := NoReprobe);
        PullStep(p3, Generated);
        EmitsTransfer(p, p3, PullInputs(p3, Generated).0, PullInputs(p3, Generated).1, Generated);
      }
    }
  }

  lemma {:induction false} ExpandedStep<K(!new), V1(!new), V2(!new)>(p: Pull<K, V1, V2>)
    requires Inv(p, Expanded)
    ensures Emits(p, NextExpanded(p).0, NextExpanded(p).1, Expanded)
    decreases InputsLeft(p), 2
  {
    if |p.rhs.currentMatches| > 0 {
      PopRhsStep(p, Expanded);
    } else {
      ReprobeStep(p, Expanded);
      var (p2, hit) := ReprobeRows(p, Expanded);
      if hit.None? {
        var p3 := p2.(keys := NoReprobe);
        assert p3 == p.(keys := NoReprobe);
        if |p3.lhs.currentMatches| > 0 {
          PopLhsStep(p3, Expanded);
          var (lhs1, m1) := PopMatch(p3.lhs);
          EmitsTransfer(p, p3, p3.(lhs := lhs1), Some(FromLhsMatch(m1.value)), Expanded);
        } else {
          PullStep(p3, Expanded);
          EmitsTransfer(p, p3, PullInputs(p3, Expanded).0, PullInputs(p3, Expanded).1, Expanded);
        }
      }
    }
  }

  /** The input-pulling tail of the loop emits an owed output, or nothing once nothing is owed. */
  lemma {:induction false} PullStep<K(!new), V1(!new), V2(!new)>(p: Pull<K, V1, V2>, layout: Layout)
    requires Inv(p, layout) && RowsLeft(p.keys) == 0 && Queued(p) == 0
    ensures Emits(p, PullInputs(p, layout).0, PullInputs(p, layout).1, layout)
    decreases InputsLeft(p), 1
  {
    if |p.lhsIn| > 0 {
      PullLhsStep(p, layout);
    } else if |p.rhsIn| > 0 {
      PullRhsStep(p, layout);
    } else {
      assert forall t :: !InReprobe(p, t) && !InQueue(p, t);
    }
  }

  /** Pulling the next left input row. */
  lemma {:induction false} PullLhsStep<K(!new), V1(!new), V2(!new)>(p: Pull<K, V1, V2>, layout: Layout)
    requires Inv(p, layout) && RowsLeft(p.keys) == 0 && Queued(p) == 0 && |p.lhsIn| > 0
    ensures Emits(p, PullInputs(p, layout).0, PullInputs(p, layout).1, layout)
    decreases InputsLeft(p), 0
  {
    var (k, v1) := p.lhsIn[0];
    if Stored(p.lhs, k, v1) {
      PullLhsKnown(p, layout);
      var p1 := p.(lhsIn := p.lhsIn[1..]);
      assert PullInputs(p, layout) == Next(p1, layout);
      NextStep(p1, layout);
      EmitsTransfer(p, p1, Next(p1, layout).0, Next(p1, layout).1, layout);
    } else {
      PullLhsNew(p, layout);
      var p1 := p.(lhsIn := p.lhsIn[1..], lhs := Build(p.lhs, k, v1).0);
      var (rhs1, m) := Probe(p1.rhs, k, v1);
      if m.None? {
        var q := p1.(rhs := rhs1);
        assert PullInputs(p, layout) == Next(q, layout);
        NextStep(q, layout);
        EmitsTransfer(p, q, Next(q, layout).0, Next(q, layout).1, layout);
      }
    }
  }

  /** Pulling the next right input row, once the left input is used up. */
  lemma {:induction false} PullRhsStep<K(!new), V1(!new), V2(!new)>(p: Pull<K, V1, V2>, layout: Layout)
    requires Inv(p, layout) && RowsLeft(p.keys) == 0 && Queued(p) == 0 && |p.lhsIn| == 0 && |p.rhsIn| > 0
    ensures Emits(p, PullInputs(p, layout).0, PullInputs(p, layout).1, layout)
    decreases InputsLeft(p), 0
  {
    var (k, v2) := p.rhsIn[0];
    if Stored(p.rhs, k, v2) {
      PullRhsKnown(p, layout);
      var p1 := p.(rhsIn := p.rhsIn[1..]);
      assert PullInputs(p, layout) == Next(p1, layout);
      NextStep(p1, layout);
      EmitsTransfer(p, p1, Next(p1, layout).0, Next(p1, layout).1, layout);
    } else {
      PullRhsNew(p, layout);
      var p1 := p.(rhsIn := p.rhsIn[1..], rhs := Build(p.rhs, k, v2).0);
      var (lhs1, m) := Probe(p1.lhs, k, v2);
      if m.None? {
        var q := p1.(lhs := lhs1);
        assert PullInputs(p, layout) == Next(q, layout);
        NextStep(q, layout);
        EmitsTransfer(p, q, Next(q, layout).0, Next(q, layout).1, layout);
      }
    }
  }

  /** Draining the iterator emits exactly the owed outputs, each once, and leaves each table with
      the rows it had plus the rows read from its input. */
  lemma {:induction false} RunEmitsOwed<K(!new), V1(!new), V2(!new)>(p: Pull<K, V1, V2>, layout: Layout)
    requires Inv(p, layout)
    ensures NoDup(Run(p, layout).1)
    ensures forall t :: t in Run(p, layout).1 <==> Owed(p, t)
    ensures KeepsTables(p, Run(p, layout).0)
    decreases InputsLeft(p), RowsLeft(p.keys), Queued(p)
  {
    NextStep(p, layout);
    var (p1, o) := Next(p, layout);
    if o.Some? {
      RunEmitsOwed(p1, layout);
      var (p2, rest) := Run(p1, layout);
      assert Run(p, layout).1 == [o.value] + rest;
      NoDupAppend([o.value], rest);
    }
  }

  /** One full drain of the join's pull iterator, from tables with empty match queues: it emits
      every pair of rows sharing a key that will be stored once the inputs are read, each exactly
      once, leaving out the pairs that were both stored already unless the tick is new; and the
      tables end with their old rows plus the rows read, with nothing queued. */
  lemma ExactlyOnce<K(!new), V1(!new), V2(!new)>(
    layout: Layout, lhsIn: seq<(K, V1)>, rhsIn: seq<(K, V2)>,
    lhs: HalfSetJoinState<K, V1, V2>, rhs: HalfSetJoinState<K, V2, V1>,
    isNewTick: bool, lhsOrder: seq<K>, rhsOrder: seq<K>)
    requires Valid(lhs) && Valid(rhs) && |lhs.currentMatches| == 0 && |rhs.currentMatches| == 0
    requires Enumerates(lhsOrder, lhs.table.Keys) && Enumerates(rhsOrder, rhs.table.Keys)
    ensures var (q, out) := Run(Pull(lhsIn, rhsIn, lhs, rhs, InitKeys(layout, lhs, rhs, isNewTick, lhsOrder, rhsOrder)), layout);
      && NoDup(out)
      && (forall k, v1, v2 :: (k, (v1, v2)) in out <==>
            && (Stored(lhs, k, v1) || (k, v1) in lhsIn)
            && (Stored(rhs, k, v2) || (k, v2) in rhsIn)
            && (isNewTick || !(Stored(lhs, k, v1) && Stored(rhs, k, v2))))
      && Valid(q.lhs) && Valid(q.rhs) && Finished(q)
      && (forall k, v1 :: Stored(q.lhs, k, v1) <==> Stored(lhs, k, v1) || (k, v1) in lhsIn)
      && (forall k, v2 :: Stored(q.rhs, k, v2) <==> Stored(rhs, k, v2) || (k, v2) in rhsIn)
  {
    var p := Pull(lhsIn, rhsIn, lhs, rhs, InitKeys(layout, lhs, rhs, isNewTick, lhsOrder, rhsOrder));
    assert forall t :: !InQueue(p, t);
    assert Inv(p, layout);
    RunEmitsOwed(p, layout);
    var (q, out) := Run(p, layout);
    forall k, v1, v2 ensures (k, (v1, v2)) in out <==>
            && (Stored(lhs, k, v1) || (k, v1) in lhsIn)
            && (Stored(rhs, k, v2) || (k, v2) in rhsIn)
            && (isNewTick || !(Stored(lhs, k, v1) && Stored(rhs, k, v2)))
    {
      var t := (k, (v1, v2));
      assert InReprobe(p, t) <==> isNewTick && Joined(p, t);
    }
    assert forall k, v1 :: FinalLhs(q, k, v1) <==> Stored(q.lhs, k, v1);
    assert forall k, v2 :: FinalRhs(q, k, v2) <==> Stored(q.rhs, k, v2);
  }
}
