/** The `join` operator around the pull loop: how its persistence arguments are read, the state it
    keeps between invocations (one join table per input, plus the tick it last ran in), how a
    `'tick` input forgets its table when the tick advances, and when the operator schedules
    itself again. One `Invoke` is one run of the operator's subgraph: the pull loop is drained
    completely, as the pivot that pulls it does. */
module JoinOperator {
  import opened Wrappers
  import opened SeqUtil
  import opened HalfSetJoin
  import opened JoinPull
  import opened JoinExactlyOnce
  import opened Lifetimes

  const MutableError: string := "An implementation of 'mutable does not exist"

  /** The persistence of input 0 and input 1 given the operator's lifetime arguments (the
      operator accepts at most two). */
  function Persistences(args: seq<Persistence>): (r: Result<(Persistence, Persistence)>)
    requires |args| <= 2
    // `'mutable` on either input is refused, with the operator's one diagnostic
    ensures r.Ok? <==> Mutable !in args
    ensures r.Err? ==> r.message == MutableError
    // input 0 takes the first argument and input 1 the last; with none both are `'tick`
    ensures r.Ok? ==> r.value.0 == (if |args| == 0 then Tick else args[0])
    ensures r.Ok? ==> r.value.1 == (if |args| == 0 then Tick else args[|args| - 1])
  {
    var ps := match |args|
      case 0 => (Tick, Tick)
      case 1 => (args[0], args[0])
      case _ => (args[0], args[1]);
    if ps.0 == Mutable || ps.1 == Mutable then Err(MutableError) else Ok(ps)
  }

  /** `__is_new_tick`: compare the tick the operator last ran in with the current one, and
      remember the later of the two. */
  function NewTick(stored: nat, current: nat): (r: (nat, bool))
    ensures r.1 <==> stored < current
    // the remembered tick never moves back, and only ever moves to the current tick
    ensures stored <= r.0 && current <= r.0
    ensures r.0 == stored || r.0 == current
  {
    if stored < current then (current, true) else (stored, false)
  }

  /** A tick is new to the operator only the first time it runs in it. */
  lemma NewTickOncePerTick(stored: nat, current: nat)
    ensures NewTick(NewTick(stored, current).0, current).1 == false
    ensures NewTick(stored, current).1 ==> NewTick(stored, current).0 == current
  {
  }

  /** One input's stored join table; `borrowedAt` is the tick a `'tick` table was last borrowed
      in, and is not used for a `'static` one. */
  datatype Side<K, VB, VP> = Side(table: HalfSetJoinState<K, VB, VP>, borrowedAt: nat)

  /** The table the operator works on in tick `current`: a `'tick` table is emptied the first
      time it is borrowed in a later tick than before. */
  function Borrow<K(!new), VB(==,!new), VP(!new)>(persistence: Persistence, side: Side<K, VB, VP>, current: nat)
    : (r: HalfSetJoinState<K, VB, VP>)
    ensures persistence == Tick && side.borrowedAt < current ==> forall k, v :: !Stored(r, k, v)
    ensures persistence != Tick || current <= side.borrowedAt ==> r == side.table
    ensures Valid(side.table) ==> Valid(r)
    ensures |side.table.currentMatches| == 0 ==> |r.currentMatches| == 0
  {
    if persistence == Tick && side.borrowedAt < current then Clear(side.table) else side.table
  }

  datatype JoinOp<K, V1, V2> = JoinOp(
    lhsPersistence: Persistence,
    rhsPersistence: Persistence,
    lhs: Side<K, V1, V2>,
    rhs: Side<K, V2, V1>,
    persistTick: nat)

  /** The state between invocations: valid tables with drained match queues, no `'mutable`
      input, and every `'tick` table last borrowed in the tick the operator last ran in. */
  ghost predicate Ready<K(!new), V1(!new), V2(!new)>(op: JoinOp<K, V1, V2>)
  {
    && op.lhsPersistence != Mutable && op.rhsPersistence != Mutable
    && Valid(op.lhs.table) && Valid(op.rhs.table)
    && |op.lhs.table.currentMatches| == 0 && |op.rhs.table.currentMatches| == 0
    && (op.lhsPersistence == Tick ==> op.lhs.borrowedAt == op.persistTick)
    && (op.rhsPersistence == Tick ==> op.rhs.borrowedAt == op.persistTick)
  }

  /** The operator's prologue: empty tables and a remembered tick of 0. */
  function Prologue<K(!new), V1(==,!new), V2(==,!new)>(persistences: (Persistence, Persistence)): (op: JoinOp<K, V1, V2>)
    requires persistences.0 != Mutable && persistences.1 != Mutable
    ensures Ready(op) && op.persistTick == 0
    ensures forall k, v :: !Stored(op.lhs.table, k, v)
    ensures forall k, v :: !Stored(op.rhs.table, k, v)
  {
    JoinOp(persistences.0, persistences.1, Side(Default(), 0), Side(Default(), 0), 0)
  }

  /** One run of the operator in tick `current`, reading `lhsIn` and `rhsIn`: the new state, the
      outputs in the order they are pulled, and whether the operator schedules itself again.
      `lhsOrder` and `rhsOrder` are the iteration orders of the two tables' keys. */
  function Invoke<K(!new), V1(==,!new), V2(==,!new)>(
    op: JoinOp<K, V1, V2>, current: nat, layout: Layout,
    lhsIn: seq<(K, V1)>, rhsIn: seq<(K, V2)>, lhsOrder: seq<K>, rhsOrder: seq<K>)
    : (r: (JoinOp<K, V1, V2>, seq<(K, (V1, V2))>, bool))
    requires Ready(op)
    requires Enumerates(lhsOrder, Borrow(op.lhsPersistence, op.lhs, current).table.Keys)
    requires Enumerates(rhsOrder, Borrow(op.rhsPersistence, op.rhs, current).table.Keys)
    ensures Ready(r.0)
    ensures r.0.lhsPersistence == op.lhsPersistence && r.0.rhsPersistence == op.rhsPersistence
    ensures r.0.persistTick == NewTick(op.persistTick, current).0
    // it reschedules itself exactly when both inputs are `'static`
    ensures r.2 <==> op.lhsPersistence == Static && op.rhsPersistence == Static
    // each table ends with the rows it was borrowed with plus the rows read
    ensures forall k, v1 :: Stored(r.0.lhs.table, k, v1) <==>
      Stored(Borrow(op.lhsPersistence, op.lhs, current), k, v1) || (k, v1) in lhsIn
    ensures forall k, v2 :: Stored(r.0.rhs.table, k, v2) <==>
      Stored(Borrow(op.rhsPersistence, op.rhs, current), k, v2) || (k, v2) in rhsIn
    // each matching pair of the final tables is output once, if it is new or the tick is
    ensures NoDup(r.1)
    ensures forall k, v1, v2 :: (k, (v1, v2)) in r.1 <==>
      && Stored(r.0.lhs.table, k, v1) && Stored(r.0.rhs.table, k, v2)
      && (op.persistTick < current
          || !(Stored(Borrow(op.lhsPersistence, op.lhs, current), k, v1)
               && Stored(Borrow(op.rhsPersistence, op.rhs, current), k, v2)))
  {
    var lhs := Borrow(op.lhsPersistence, op.lhs, current);
    var rhs := Borrow(op.rhsPersistence, op.rhs, current);
    var (tick, isNewTick) := NewTick(op.persistTick, current);
    ExactlyOnce(layout, lhsIn, rhsIn, lhs, rhs, isNewTick, lhsOrder, rhsOrder);
    var (q, out) := Run(Pull(lhsIn, rhsIn, lhs, rhs, InitKeys(layout, lhs, rhs, isNewTick, lhsOrder, rhsOrder)), layout);
    var lhsAt := if op.lhsPersistence == Tick then tick else op.lhs.borrowedAt;
    var rhsAt := if op.rhsPersistence == Tick then tick else op.rhs.borrowedAt;
    (JoinOp(op.lhsPersistence, op.rhsPersistence, Side(q.lhs, lhsAt), Side(q.rhs, rhsAt), tick),
     out,
     op.lhsPersistence == Static && op.rhsPersistence == Static)
  }

  /** A run over tables holding no rows (a fresh operator, or `'tick` tables in a new tick)
      joins that run's inputs only. */
  lemma EmptyJoinsInputsOnly<K(!new), V1(!new), V2(!new)>(
    op: JoinOp<K, V1, V2>, current: nat, layout: Layout, lhsIn: seq<(K, V1)>, rhsIn: seq<(K, V2)>)
    requires Ready(op)
    requires forall k, v1 :: !Stored(Borrow(op.lhsPersistence, op.lhs, current), k, v1)
    requires forall k, v2 :: !Stored(Borrow(op.rhsPersistence, op.rhs, current), k, v2)
    ensures Enumerates([], Borrow(op.lhsPersistence, op.lhs, current).table.Keys)
    ensures Enumerates([], Borrow(op.rhsPersistence, op.rhs, current).table.Keys)
    ensures var out := Invoke(op, current, layout, lhsIn, rhsIn, [], []).1;
      forall k, v1, v2 :: (k, (v1, v2)) in out <==> (k, v1) in lhsIn && (k, v2) in rhsIn
  {
    var lhs := Borrow(op.lhsPersistence, op.lhs, current);
    var rhs := Borrow(op.rhsPersistence, op.rhs, current);
    forall k ensures k !in lhs.table {
      KeysAreStored(lhs, k);
    }
    forall k ensures k !in rhs.table {
      KeysAreStored(rhs, k);
    }
    assert lhs.table.Keys == {} && rhs.table.Keys == {};
  }

  /** With `'tick` on both inputs, the first run in a tick joins that run's inputs only. */
  lemma TickJoinsOnlyThisTick<K(!new), V1(!new), V2(!new)>(
    op: JoinOp<K, V1, V2>, current: nat, layout: Layout, lhsIn: seq<(K, V1)>, rhsIn: seq<(K, V2)>)
    requires Ready(op) && op.lhsPersistence == Tick && op.rhsPersistence == Tick
    requires op.persistTick < current
    ensures Enumerates([], Borrow(op.lhsPersistence, op.lhs, current).table.Keys)
    ensures Enumerates([], Borrow(op.rhsPersistence, op.rhs, current).table.Keys)
    ensures var out := Invoke(op, current, layout, lhsIn, rhsIn, [], []).1;
      forall k, v1, v2 :: (k, (v1, v2)) in out <==> (k, v1) in lhsIn && (k, v2) in rhsIn
  {
    EmptyJoinsInputsOnly(op, current, layout, lhsIn, rhsIn);
  }

  /** With `'static` on both inputs, a run in a new tick replays the whole join of everything
      stored so far. */
  lemma StaticReplaysOnNewTick<K(!new), V1(!new), V2(!new)>(
    op: JoinOp<K, V1, V2>, current: nat, layout: Layout,
    lhsIn: seq<(K, V1)>, rhsIn: seq<(K, V2)>, lhsOrder: seq<K>, rhsOrder: seq<K>)
    requires Ready(op) && op.lhsPersistence == Static && op.rhsPersistence == Static
    requires op.persistTick < current
    requires Enumerates(lhsOrder, op.lhs.table.table.Keys) && Enumerates(rhsOrder, op.rhs.table.table.Keys)
    ensures var out := Invoke(op, current, layout, lhsIn, rhsIn, lhsOrder, rhsOrder).1;
      forall k, v1, v2 :: (k, (v1, v2)) in out <==>
        (Stored(op.lhs.table, k, v1) || (k, v1) in lhsIn) && (Stored(op.rhs.table, k, v2) || (k, v2) in rhsIn)
  {
  }

  /** A second run within the same tick outputs only pairs that involve a row new to its table. */
  lemma SameTickOnlyNewPairs<K(!new), V1(!new), V2(!new)>(
    op: JoinOp<K, V1, V2>, current: nat, layout: Layout,
    lhsIn: seq<(K, V1)>, rhsIn: seq<(K, V2)>, lhsOrder: seq<K>, rhsOrder: seq<K>)
    requires Ready(op) && current <= op.persistTick
    requires Enumerates(lhsOrder, op.lhs.table.table.Keys) && Enumerates(rhsOrder, op.rhs.table.table.Keys)
    ensures var out := Invoke(op, current, layout, lhsIn, rhsIn, lhsOrder, rhsOrder).1;
      forall k, v1, v2 :: (k, (v1, v2)) in out <==>
        && (Stored(op.lhs.table, k, v1) || (k, v1) in lhsIn)
        && (Stored(op.rhs.table, k, v2) || (k, v2) in rhsIn)
        && !(Stored(op.lhs.table, k, v1) && Stored(op.rhs.table, k, v2))
  {
    assert op.lhsPersistence == Tick ==> current <= op.lhs.borrowedAt;
    assert op.rhsPersistence == Tick ==> current <= op.rhs.borrowedAt;
  }

  /** A sequence without repeats holding exactly `x` is `[x]`. */
  lemma OnlyElement<T>(s: seq<T>, x: T)
    requires NoDup(s) && forall y :: y in s <==> y == x
    ensures s == [x]
  {
    assert x in s;
    forall j | 0 <= j < |s| ensures s[j] == x {
      assert s[j] in s;
    }
    assert s[0] == s[|s| - 1];
  }

  /** A valid table whose rows all share the key `k` enumerates as `[k]`. */
  lemma OnlyKey<K(!new), VB(!new), VP(!new)>(s: HalfSetJoinState<K, VB, VP>, k: K, v: VB)
    requires Valid(s) && Stored(s, k, v)
    requires forall k', v' :: Stored(s, k', v') ==> k' == k
    ensures Enumerates([k], s.table.Keys)
  {
    forall k' | k' in s.table ensures k' == k {
      KeysAreStored(s, k');
    }
  }

  /** A sequence holding nothing is empty. */
  lemma NoElement<T>(s: seq<T>)
    ensures (forall y :: y !in s) ==> s == []
  {
    if s != [] {
      assert s[0] in s;
    }
  }

  /** The first run of a fresh operator joins that run's inputs and stores them. */
  lemma FreshRun<K(!new), V1(!new), V2(!new)>(
    persistences: (Persistence, Persistence), current: nat, layout: Layout, lhsIn: seq<(K, V1)>, rhsIn: seq<(K, V2)>)
    requires persistences.0 != Mutable && persistences.1 != Mutable
    ensures var op0: JoinOp<K, V1, V2> := Prologue(persistences);
      && Enumerates([], Borrow(op0.lhsPersistence, op0.lhs, current).table.Keys)
      && Enumerates([], Borrow(op0.rhsPersistence, op0.rhs, current).table.Keys)
    ensures var (op1, out, again) := Invoke(Prologue(persistences), current, layout, lhsIn, rhsIn, [], []);
      && Ready(op1) && op1.persistTick == current
      && op1.lhsPersistence == persistences.0 && op1.rhsPersistence == persistences.1
      && NoDup(out) && (again <==> persistences == (Static, Static))
      && (forall k, v1, v2 :: (k, (v1, v2)) in out <==> (k, v1) in lhsIn && (k, v2) in rhsIn)
      && (forall k, v1 :: Stored(op1.lhs.table, k, v1) <==> (k, v1) in lhsIn)
      && (forall k, v2 :: Stored(op1.rhs.table, k, v2) <==> (k, v2) in rhsIn)
  {
    var op0: JoinOp<K, V1, V2> := Prologue(persistences);
    EmptyJoinsInputsOnly(op0, current, layout, lhsIn, rhsIn);
  }

  /** The first example of the operator's documentation: duplicate input rows are joined once. */
  lemma DedupExample()
    ensures var op := Prologue((Tick, Tick));
      var lhsIn := [("hello", "world"), ("stay", "gold"), ("hello", "world")];
      var rhsIn := [("hello", "cleveland")];
      Invoke(op, 0, Generated, lhsIn, rhsIn, [], []).1 == [("hello", ("world", "cleveland"))]
  {
    var lhsIn := [("hello", "world"), ("stay", "gold"), ("hello", "world")];
    var rhsIn := [("hello", "cleveland")];
    FreshRun((Tick, Tick), 0, Generated, lhsIn, rhsIn);
    var out: seq<(string, (string, string))> := Invoke(Prologue((Tick, Tick)), 0, Generated, lhsIn, rhsIn, [], []).1;
    forall t ensures t in out <==> t == ("hello", ("world", "cleveland")) {
      assert (t.0, t.1.0) in lhsIn && (t.0, t.1.1) in rhsIn ==> t.0 == "hello" && t.1.1 == "cleveland";
    }
    OnlyElement(out, ("hello", ("world", "cleveland")));
  }

  /** Tick 0 of the two examples of the operator's persistence: one row on each side. */
  lemma HelloTick0(persistences: (Persistence, Persistence))
    requires persistences.0 != Mutable && persistences.1 != Mutable
    ensures var (op1, out0, again0) := Invoke(Prologue(persistences), 0, Generated, [("hello", "world")], [("hello", "oakland")], [], []);
      && out0 == [("hello", ("world", "oakland"))] && (again0 <==> persistences == (Static, Static))
      && Ready(op1) && op1.persistTick == 0
      && op1.lhsPersistence == persistences.0 && op1.rhsPersistence == persistences.1
      && (forall k, v1 :: Stored(op1.lhs.table, k, v1) <==> k == "hello" && v1 == "world")
      && (forall k, v2 :: Stored(op1.rhs.table, k, v2) <==> k == "hello" && v2 == "oakland")
  {
    OneRowEachSide(persistences, 0, Generated, "hello", "world", "oakland");
  }

  /** A fresh operator given one row on each side, under one key, emits their pair and stores both. */
  lemma OneRowEachSide<K(!new), V1(!new), V2(!new)>(
    persistences: (Persistence, Persistence), current: nat, layout: Layout, k: K, v1: V1, v2: V2)
    requires persistences.0 != Mutable && persistences.1 != Mutable
    ensures var (op1, out0, again0) := Invoke(Prologue(persistences), current, layout, [(k, v1)], [(k, v2)], [], []);
      && out0 == [(k, (v1, v2))] && (again0 <==> persistences == (Static, Static))
      && Ready(op1) && op1.persistTick == current
      && op1.lhsPersistence == persistences.0 && op1.rhsPersistence == persistences.1
      && (forall j, x :: Stored(op1.lhs.table, j, x) <==> j == k && x == v1)
      && (forall j, y :: Stored(op1.rhs.table, j, y) <==> j == k && y == v2)
  {
    var lhsIn, rhsIn := [(k, v1)], [(k, v2)];
    FreshRun(persistences, current, layout, lhsIn, rhsIn);
    var out0: seq<(K, (V1, V2))> := Invoke(Prologue(persistences), current, layout, lhsIn, rhsIn, [], []).1;
    forall t ensures t in out0 <==> t == (k, (v1, v2)) {
      assert (t.0, t.1.0) in lhsIn && (t.0, t.1.1) in rhsIn ==> t.0 == k && t.1.0 == v1 && t.1.1 == v2;
    }
    OnlyElement(out0, (k, (v1, v2)));
  }

  /** The `'tick` example: the row read in tick 0 is forgotten by tick 1, so the second right row
      finds nothing. */
  lemma TickExample()
    ensures var (op1, out0, again0) := Invoke(Prologue((Tick, Tick)), 0, Generated, [("hello", "world")], [("hello", "oakland")], [], []);
      && out0 == [("hello", ("world", "oakland"))] && !again0
      && Enumerates([], Borrow(op1.lhsPersistence, op1.lhs, 1).table.Keys)
      && Enumerates([], Borrow(op1.rhsPersistence, op1.rhs, 1).table.Keys)
      && var (op2, out1, again1) := Invoke(op1, 1, Generated, [], [("hello", "san francisco")], [], []);
         out1 == [] && !again1
  {
    HelloTick0((Tick, Tick));
    var op1: JoinOp<string, string, string> := Invoke(Prologue((Tick, Tick)), 0, Generated, [("hello", "world")], [("hello", "oakland")], [], []).0;
    TickJoinsOnlyThisTick(op1, 1, Generated, [], [("hello", "san francisco")]);
    NoElement(Invoke(op1, 1, Generated, [], [("hello", "san francisco")], [], []).1);
  }

  /** The `'static` example: the row read in tick 0 is remembered, so tick 1 joins it with the new
      right row, and replays the tick-0 pair. */
  lemma StaticExample()
    ensures var (op1, out0, again0) := Invoke(Prologue((Static, Static)), 0, Generated, [("hello", "world")], [("hello", "oakland")], [], []);
      && out0 == [("hello", ("world", "oakland"))] && again0
      && Enumerates(["hello"], op1.lhs.table.table.Keys) && Enumerates(["hello"], op1.rhs.table.table.Keys)
      && var (op2, out1, again1) := Invoke(op1, 1, Generated, [], [("hello", "san francisco")], ["hello"], ["hello"]);
         && NoDup(out1) && again1
         && forall t :: t in out1 <==> t == ("hello", ("world", "oakland")) || t == ("hello", ("world", "san francisco"))
  {
    HelloTick0((Static, Static));
    var op1: JoinOp<string, string, string> := Invoke(Prologue((Static, Static)), 0, Generated, [("hello", "world")], [("hello", "oakland")], [], []).0;
    StaticOneKeyNextTick(op1, 1, Generated, "hello", "world", "oakland", "san francisco");
  }

  /** A `'static` operator holding one row on each side, under one key, replays their pair on a
      later tick and joins its left row with a new right row. */
  lemma StaticOneKeyNextTick<K(!new), V1(!new), V2(!new)>(op: JoinOp<K, V1, V2>, current: nat, layout: Layout, k: K, v1: V1, v2: V2, w2: V2)
    requires Ready(op) && op.lhsPersistence == Static && op.rhsPersistence == Static
    requires op.persistTick < current
    requires forall j, x :: Stored(op.lhs.table, j, x) <==> j == k && x == v1
    requires forall j, y :: Stored(op.rhs.table, j, y) <==> j == k && y == v2
    ensures Enumerates([k], op.lhs.table.table.Keys) && Enumerates([k], op.rhs.table.table.Keys)
    ensures var (op2, out1, again1) := Invoke(op, current, layout, [], [(k, w2)], [k], [k]);
      && NoDup(out1) && again1
      && forall t :: t in out1 <==> t == (k, (v1, v2)) || t == (k, (v1, w2))
  {
    OnlyKey(op.lhs.table, k, v1);
    OnlyKey(op.rhs.table, k, v2);
    StaticReplaysOnNewTick(op, current, layout, [], [(k, w2)], [k], [k]);
    var out1 := Invoke(op, current, layout, [], [(k, w2)], [k], [k]).1;
    forall t ensures t in out1 <==> t == (k, (v1, v2)) || t == (k, (v1, w2)) {
      var (j, (x, y)) := t;
      assert Stored(op.rhs.table, j, y) || (j, y) in [(k, w2)] <==> j == k && (y == v2 || y == w2);
    }
  }

  /** A run of the `hello_world2` join in tick `tick` > 0: the left table holds `(7, 1)` and
      `(7, 2)`, the right one `(7, v)` for every earlier tick `v`, and `(7, tick)` arrives on the
      right. */
  lemma HelloWorld2Step(op: JoinOp<int, int, int>, tick: nat)
    requires Ready(op) && op.lhsPersistence == Static && op.rhsPersistence == Static
    requires op.persistTick < tick
    requires forall k, v1 :: Stored(op.lhs.table, k, v1) <==> k == 7 && v1 in {1, 2}
    requires forall k, v2 :: Stored(op.rhs.table, k, v2) <==> k == 7 && 0 <= v2 < tick
    ensures Enumerates([7], op.lhs.table.table.Keys) && Enumerates([7], op.rhs.table.table.Keys)
    ensures var (op1, out, again) := Invoke(op, tick, Expanded, [], [(7, tick)], [7], [7]);
      && Ready(op1) && op1.lhsPersistence == Static && op1.rhsPersistence == Static
      && op1.persistTick == tick && again && NoDup(out)
      && (forall t :: t in out <==> t.0 == 7 && t.1.0 in {1, 2} && 0 <= t.1.1 <= tick)
      && (forall k, v1 :: Stored(op1.lhs.table, k, v1) <==> k == 7 && v1 in {1, 2})
      && (forall k, v2 :: Stored(op1.rhs.table, k, v2) <==> k == 7 && 0 <= v2 <= tick)
  {
    assert Stored(op.lhs.table, 7, 1) && Stored(op.rhs.table, 7, 0);
    assert forall k, v1 :: Stored(op.lhs.table, k, v1) ==> k == 7;
    assert forall k, v2 :: Stored(op.rhs.table, k, v2) ==> k == 7;
    OnlyKey(op.lhs.table, 7, 1);
    OnlyKey(op.rhs.table, 7, 0);
    StaticReplaysOnNewTick(op, tick, Expanded, [], [(7, tick)], [7], [7]);
    var out := Invoke(op, tick, Expanded, [], [(7, tick)], [7], [7]).1;
    forall t ensures t in out <==> t.0 == 7 && t.1.0 in {1, 2} && 0 <= t.1.1 <= tick {
      var (k, (v1, v2)) := t;
      assert (k, (v1, v2)) in out <==>
        (Stored(op.lhs.table, k, v1) || (k, v1) in []) && (Stored(op.rhs.table, k, v2) || (k, v2) in [(7, tick)]);
    }
  }

  /** The first run of the `hello_world2` join, in tick 0: `(7, 1)` and `(7, 2)` on the left,
      `(7, 0)` on the right. */
  lemma HelloWorld2First()
    ensures var (op1, out, again) := Invoke(Prologue((Static, Static)), 0, Expanded, [(7, 1), (7, 2)], [(7, 0)], [], []);
      && Ready(op1) && op1.lhsPersistence == Static && op1.rhsPersistence == Static
      && op1.persistTick == 0 && again && NoDup(out)
      && (forall t :: t in out <==> t.0 == 7 && t.1.0 in {1, 2} && 0 <= t.1.1 <= 0)
      && (forall k, v1 :: Stored(op1.lhs.table, k, v1) <==> k == 7 && v1 in {1, 2})
      && (forall k, v2 :: Stored(op1.rhs.table, k, v2) <==> k == 7 && 0 <= v2 <= 0)
  {
    var lhsIn, rhsIn := [(7, 1), (7, 2)], [(7, 0)];
    FreshRun((Static, Static), 0, Expanded, lhsIn, rhsIn);
    var (op1, out, again) := Invoke(Prologue((Static, Static)), 0, Expanded, lhsIn, rhsIn, [], []);
    forall t ensures t in out <==> t.0 == 7 && t.1.0 in {1, 2} && 0 <= t.1.1 <= 0 {
      var (k, (v1, v2)) := t;
      assert (k, (v1, v2)) in out <==> (k, v1) in lhsIn && (k, v2) in rhsIn;
    }
  }

  /** The join of the `hello_world2` example, run in ticks `0..tick`: `(7, 1)` and `(7, 2)` come
      in on the left in tick 0; on the right `(7, 0)` comes in tick 0 and `(7, i)` in tick `i`
      (deferred by `i` ticks). Each tick's output is the whole join so far, each pair once. */
  function HelloWorld2Join(tick: nat): (r: (JoinOp<int, int, int>, seq<(int, (int, int))>, bool))
    requires tick <= 2
    ensures Ready(r.0) && r.0.lhsPersistence == Static && r.0.rhsPersistence == Static
    ensures r.0.persistTick == tick && r.2
    ensures forall k, v1 :: Stored(r.0.lhs.table, k, v1) <==> k == 7 && v1 in {1, 2}
    ensures forall k, v2 :: Stored(r.0.rhs.table, k, v2) <==> k == 7 && 0 <= v2 <= tick
    ensures NoDup(r.1)
    ensures forall t :: t in r.1 <==> t.0 == 7 && t.1.0 in {1, 2} && 0 <= t.1.1 <= tick
    decreases tick
  {
    if tick == 0 then
      HelloWorld2First();
      FreshRun((Static, Static), 0, Expanded, [(7, 1), (7, 2)], [(7, 0)]);
      Invoke(Prologue((Static, Static)), 0, Expanded, [(7, 1), (7, 2)], [(7, 0)], [], [])
    else
      var prev := HelloWorld2Join(tick - 1);
      HelloWorld2Step(prev.0, tick);
      Invoke(prev.0, tick, Expanded, [], [(7, tick)], [7], [7])
  }

  /** The pairs `hello_world2` expects in tick `tick`: the tick-0 pairs, then each tick adds the
      two pairs made with the right row `(7, tick)`. */
  function HelloWorld2Expected(tick: nat): seq<(int, (int, int))>
    requires tick <= 2
  {
    if tick == 0 then [(7, (1, 0)), (7, (2, 0))]
    else if tick == 1 then [(7, (1, 0)), (7, (2, 0)), (7, (1, 1)), (7, (2, 1))]
    else [(7, (1, 0)), (7, (2, 0)), (7, (1, 1)), (7, (2, 1)), (7, (1, 2)), (7, (2, 2))]
  }

  lemma HelloWorld2ExpectedMembers(tick: nat, k: int, v1: int, v2: int)
    requires tick <= 2
    ensures (k, (v1, v2)) in HelloWorld2Expected(tick) <==> k == 7 && (v1 == 1 || v1 == 2) && 0 <= v2 <= tick
  {
    var e := HelloWorld2Expected(tick);
    if k == 7 && (v1 == 1 || v1 == 2) && 0 <= v2 <= tick {
      var i := 2 * v2 + v1 - 1;
      assert e[i] == (k, (v1, v2));
    }
  }

  /** In each of ticks 0, 1 and 2 the join outputs exactly the pairs `hello_world2` checks for. */
  lemma HelloWorld2JoinTicks(tick: nat)
    requires tick <= 2
    ensures NoDup(HelloWorld2Join(tick).1)
    ensures forall t :: t in HelloWorld2Join(tick).1 <==> t in HelloWorld2Expected(tick)
  {
    var out := HelloWorld2Join(tick).1;
    var expected := HelloWorld2Expected(tick);
    forall t ensures t in out <==> t in expected {
      var (k, (v1, v2)) := t;
      assert t in out <==> k == 7 && (v1 == 1 || v1 == 2) && 0 <= v2 <= tick;
      HelloWorld2ExpectedMembers(tick, k, v1, v2);
    }
  }
}
