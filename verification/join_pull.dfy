/** The pull loop of the `join` operator (`check_inputs`): a symmetric hash join over two
    `HalfSetJoinState`s that yields one output per call and keeps all unfinished work in state.

    The loop exists in two orders. `Generated` is the code the operator emits: pop the left queue,
    pop the right queue, re-probe the rows saved at the start of a new tick (taken from the END of
    the saved vector), then pull a left input, then a right input. `Expanded` is the hand-expanded
    copy in the hello_world2 example: pop the right queue, re-probe the left rows (from the FRONT,
    as an iterator), pop the left queue, then pull left, then right. */
module JoinPull {
  import opened Wrappers
  import opened SeqUtil
  import opened HalfSetJoin

  datatype Layout = Generated | Expanded

  /** The rows saved at the start of a new tick, still to be re-probed against the other side. */
  datatype Reprobe<K, V1, V2> =
    | ReprobeLhs(lrows: seq<(K, V1)>)
    | ReprobeRhs(rrows: seq<(K, V2)>)
    | NoReprobe

  /** Everything the pull iterator owns: the unread inputs, both half states and the saved rows. */
  datatype Pull<K, V1, V2> = Pull(
    lhsIn: seq<(K, V1)>,
    rhsIn: seq<(K, V2)>,
    lhs: HalfSetJoinState<K, V1, V2>,
    rhs: HalfSetJoinState<K, V2, V1>,
    keys: Reprobe<K, V1, V2>)

  function RowsLeft<K, V1, V2>(keys: Reprobe<K, V1, V2>): nat
  {
    match keys
    case ReprobeLhs(rows) => |rows|
    case ReprobeRhs(rows) => |rows|
    case NoReprobe => 0
  }

  function InputsLeft<K, V1, V2>(p: Pull<K, V1, V2>): nat
  {
    |p.lhsIn| + |p.rhsIn|
  }

  function Queued<K, V1, V2>(p: Pull<K, V1, V2>): nat
  {
    |p.lhs.currentMatches| + |p.rhs.currentMatches|
  }

  /** No input left, no saved row left and nothing queued: the iterator is exhausted. */
  predicate Finished<K, V1, V2>(p: Pull<K, V1, V2>)
  {
    InputsLeft(p) == 0 && RowsLeft(p.keys) == 0 && Queued(p) == 0
  }

  /** `q` is strictly smaller than `p` in the order (inputs left, rows left, matches queued). */
  predicate Progress<K, V1, V2>(q: Pull<K, V1, V2>, p: Pull<K, V1, V2>)
  {
    InputsLeft(q) < InputsLeft(p)
    || (InputsLeft(q) == InputsLeft(p) && RowsLeft(q.keys) < RowsLeft(p.keys))
    || (InputsLeft(q) == InputsLeft(p) && RowsLeft(q.keys) == RowsLeft(p.keys) && Queued(q) < Queued(p))
  }

  /** A match found by probing the right side with a left row `(k, v1)`. */
  function FromRhsMatch<K, V1, V2>(m: (K, V1, V2)): (K, (V1, V2))
  {
    (m.0, (m.1, m.2))
  }

  /** A match found by probing the left side with a right row `(k, v2)`. */
  function FromLhsMatch<K, V1, V2>(m: (K, V2, V1)): (K, (V1, V2))
  {
    (m.0, (m.2, m.1))
  }

  /** The rows saved at the start of the call: all rows of one side on a new tick, none otherwise.
      `lhsOrder` and `rhsOrder` are the tables' hash iteration orders. */
  function InitKeys<K(!new), V1(==,!new), V2(==,!new)>(
    layout: Layout, lhs: HalfSetJoinState<K, V1, V2>, rhs: HalfSetJoinState<K, V2, V1>,
    isNewTick: bool, lhsOrder: seq<K>, rhsOrder: seq<K>): (keys: Reprobe<K, V1, V2>)
    requires Enumerates(lhsOrder, lhs.table.Keys) && Enumerates(rhsOrder, rhs.table.Keys)
    ensures !isNewTick <==> keys.NoReprobe?
    // the generated code saves the side with fewer keys (ties go right); the expanded code the left
    ensures isNewTick ==> (keys.ReprobeLhs? <==> layout == Expanded || Len(lhs) < Len(rhs))
    ensures keys.ReprobeLhs? ==> forall k, v :: (k, v) in keys.lrows <==> Stored(lhs, k, v)
    ensures keys.ReprobeRhs? ==> forall k, v :: (k, v) in keys.rrows <==> Stored(rhs, k, v)
    ensures keys.ReprobeLhs? && Valid(lhs) ==> NoDup(keys.lrows)
    ensures keys.ReprobeRhs? && Valid(rhs) ==> NoDup(keys.rrows)
  {
    IterYieldsEachRowOnce(lhs, lhsOrder);
    IterYieldsEachRowOnce(rhs, rhsOrder);
    if !isNewTick then NoReprobe
    else if layout == Expanded || Len(lhs) < Len(rhs) then ReprobeLhs(Iter(lhs, lhsOrder))
    else ReprobeRhs(Iter(rhs, rhsOrder))
  }

  /** The next saved row and the rows after it: `Vec::pop` takes the last one, the expanded
      iterator the first one. */
  function TakeRow<R>(rows: seq<R>, layout: Layout): (r: (R, seq<R>))
    requires |rows| > 0
    ensures layout == Generated ==> r.1 + [r.0] == rows
    ensures layout == Expanded ==> [r.0] + r.1 == rows
  {
    if layout == Generated then (rows[|rows| - 1], rows[..|rows| - 1]) else (rows[0], rows[1..])
  }

  /** The inner `while let` over the saved rows: probe the other side with each row until one
      finds a match; when the rows run out, report nothing. */
  function ReprobeRows<K(!new), V1(==,!new), V2(==,!new)>(p: Pull<K, V1, V2>, layout: Layout)
    : (r: (Pull<K, V1, V2>, Option<(K, (V1, V2))>))
    ensures r.0.lhsIn == p.lhsIn && r.0.rhsIn == p.rhsIn
    ensures r.0.lhs.table == p.lhs.table && r.0.rhs.table == p.rhs.table
    ensures r.1.None? ==> r.0 == p.(keys := r.0.keys) && RowsLeft(r.0.keys) == 0
    ensures r.1.Some? ==> RowsLeft(r.0.keys) < RowsLeft(p.keys)
    decreases RowsLeft(p.keys)
  {
    match p.keys
    case NoReprobe => (p, None)
    case ReprobeLhs(rows) =>
      if |rows| == 0 then (p, None)
      else
        var (row, rest) := TakeRow(rows, layout);
        var (rhs1, m) := Probe(p.rhs, row.0, row.1);
        var p1 := p.(rhs := rhs1, keys := ReprobeLhs(rest));
        if m.Some? then (p1, Some(FromRhsMatch(m.value))) else ReprobeRows(p1, layout)
    case ReprobeRhs(rows) =>
      if |rows| == 0 then (p, None)
      else
        var (row, rest) := TakeRow(rows, layout);
        var (lhs1, m) := Probe(p.lhs, row.0, row.1);
        var p1 := p.(lhs := lhs1, keys := ReprobeRhs(rest));
        if m.Some? then (p1, Some(FromLhsMatch(m.value))) else ReprobeRows(p1, layout)
  }

  /** One call of the iterator's `next`: the whole `loop` of the closure, in the given order. */
  function Next<K(!new), V1(==,!new), V2(==,!new)>(p: Pull<K, V1, V2>, layout: Layout)
    : (r: (Pull<K, V1, V2>, Option<(K, (V1, V2))>))
    ensures InputsLeft(r.0) <= InputsLeft(p)
    ensures r.1.None? ==> Finished(r.0)
    ensures r.1.Some? ==> Progress(r.0, p)
    decreases InputsLeft(p), 2
  {
    match layout
    case Generated => NextGenerated(p)
    case Expanded => NextExpanded(p)
  }

  /** `next` in the generated order: left queue, right queue, saved rows, left input, right input. */
  function NextGenerated<K(!new), V1(==,!new), V2(==,!new)>(p: Pull<K, V1, V2>)
    : (r: (Pull<K, V1, V2>, Option<(K, (V1, V2))>))
    ensures InputsLeft(r.0) <= InputsLeft(p)
    ensures r.1.None? ==> Finished(r.0)
    ensures r.1.Some? ==> Progress(r.0, p)
    decreases InputsLeft(p), 1
  {
    var (lhs1, m1) := PopMatch(p.lhs);
    if m1.Some? then (p.(lhs := lhs1), Some(FromLhsMatch(m1.value)))
    else
      var (rhs1, m2) := PopMatch(p.rhs);
      if m2.Some? then (p.(rhs := rhs1), Some(FromRhsMatch(m2.value)))
      else
        var (p2, hit) := ReprobeRows(p, Generated);
        if hit.Some? then (p2, hit)
        else PullInputs(p2.(keys := NoReprobe), Generated)
  }

  /** `next` in the expanded order: right queue, saved left rows, left queue, left input, right
      input. */
  function NextExpanded<K(!new), V1(==,!new), V2(==,!new)>(p: Pull<K, V1, V2>)
    : (r: (Pull<K, V1, V2>, Option<(K, (V1, V2))>))
    ensures InputsLeft(r.0) <= InputsLeft(p)
    ensures r.1.None? ==> Finished(r.0)
    ensures r.1.Some? ==> Progress(r.0, p)
    decreases InputsLeft(p), 1
  {
    var (rhs1, m2) := PopMatch(p.rhs);
    if m2.Some? then (p.(rhs := rhs1), Some(FromRhsMatch(m2.value)))
    else
      var (p2, hit) := ReprobeRows(p, Expanded);
      if hit.Some? then (p2, hit)
      else
        var p3 := p2.(keys := NoReprobe);
        var (lhs1, m1) := PopMatch(p3.lhs);
        if m1.Some? then (p3.(lhs := lhs1), Some(FromLhsMatch(m1.value)))
        else PullInputs(p3, Expanded)
  }

  /** The tail of the loop: pull one left input (else one right input), build it into its own
      side and, if it was new there, probe the other side; a pull that yields nothing goes round
      the loop again; with both inputs exhausted the iterator ends. */
  function PullInputs<K(!new), V1(==,!new), V2(==,!new)>(p: Pull<K, V1, V2>, layout: Layout)
    : (r: (Pull<K, V1, V2>, Option<(K, (V1, V2))>))
    requires RowsLeft(p.keys) == 0 && Queued(p) == 0
    ensures InputsLeft(r.0) <= InputsLeft(p)
    ensures r.1.None? ==> Finished(r.0)
    ensures r.1.Some? ==> InputsLeft(r.0) < InputsLeft(p)
    decreases InputsLeft(p), 0
  {
    if |p.lhsIn| > 0 then
      var (k, v1) := p.lhsIn[0];
      var (lhs1, novel) := Build(p.lhs, k, v1);
      var p1 := p.(lhsIn := p.lhsIn[1..], lhs := lhs1);
      if novel then
        var (rhs1, m) := Probe(p1.rhs, k, v1);
        if m.Some? then (p1.(rhs := rhs1), Some(FromRhsMatch(m.value)))
        else Next(p1.(rhs := rhs1), layout)
      else Next(p1, layout)
    else if |p.rhsIn| > 0 then
      var (k, v2) := p.rhsIn[0];
      var (rhs1, novel) := Build(p.rhs, k, v2);
      var p1 := p.(rhsIn := p.rhsIn[1..], rhs := rhs1);
      if novel then
        var (lhs1, m) := Probe(p1.lhs, k, v2);
        if m.Some? then (p1.(lhs := lhs1), Some(FromLhsMatch(m.value)))
        else Next(p1.(lhs := lhs1), layout)
      else Next(p1, layout)
    else (p, None)
  }

  /** Drain the iterator (what `Pivot::run` does with it): the final state and every output, in
      order. */
  function Run<K(!new), V1(==,!new), V2(==,!new)>(p: Pull<K, V1, V2>, layout: Layout)
    : (r: (Pull<K, V1, V2>, seq<(K, (V1, V2))>))
    ensures Finished(r.0)
    decreases InputsLeft(p), RowsLeft(p.keys), Queued(p)
  {
    var (p1, o) := Next(p, layout);
    if o.None? then (p1, [])
    else
      var (p2, rest) := Run(p1, layout);
      (p2, [o.value] + rest)
  }
}
