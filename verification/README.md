# Hydroflow core, modelled in Dafny

This project models the core of Hydroflow, a dataflow runtime, together with the lattice and
algebra checkers of its `lattices` crate. The model covers:

- **Scheduler.** The `Hydroflow` scheduler. It keeps stratum queues of scheduled subgraphs,
  handoffs between subgraphs, the event queue, and tick and stratum counters. The model covers
  `make_edge`, `add_subgraph_stratified`, `try_recv_events`, `next_stratum`, `run_stratum`,
  `run_tick` and `run_available`.
- **Join.** The `join` operator, as the code generator writes it and as the expanded
  `hello_world2` example spells it out:
  - the symmetric half-join state `HalfSetJoinState`;
  - the pull loop that emits each matching pair;
  - the `'tick` / `'static` lifetimes;
  - the `is_new_tick` replay;
  - self-rescheduling.
- **Other operators.** The `sort` and `persist_mut_keyed` operators.
- **Storage.** The `Bag` multiset and its repeat-count iterator. The persistence impls of the
  `deletable_state` example: `Vec`, `HashSet`, `Bag`, the keyed counts and the keyed sets.
- **Lattices.** The `Merge` contract, `merge_owned`, `naive_cmp` and the `Unit` lattice.
- **Algebra.** The law checkers of `lattices/src/algebra.rs`. The semiring law test of
  `lattices/src/semiring.rs`, with its `NaturalNumber` and `Booleans` instances. The
  `Polynomial` semiring of the algebra tests.

Modules follow the source's files:

| module | file |
|---|---|
| `Lattices` | `lattice.dfy` |
| `Sort` | `sort.dfy` |
| `PersistMutKeyed` | `persist_mut_keyed.dfy` |
| `Storage` | `storage.dfy` |
| `Bags` | `bag.dfy` |
| `RepeatIter` | `repeat_iter.dfy` |
| `HalfSetJoin` | `half_join_set.dfy` |
| `JoinPull` | `join_pull.dfy` |
| `JoinExactlyOnce` | `join_exactly_once.dfy` |
| `JoinOperator` | `join_operator.dfy` |
| `Scheduler` | `scheduler.dfy` |
| `Algebra` | `algebra.dfy` |
| `Polynomials` | `polynomial.dfy` |
| `Semirings` | `semiring.dfy` |

Shared helpers:

- `Wrappers`: `Option` and `Result`.
- `Lifetimes`: the `Persistence` enum.
- `SeqUtil`: duplicate-free sequences.
- `Tables`: a hash map as an association list.

Hash-map iteration order is not specified in Rust. Where it matters, a caller supplies it as a
sequence that lists every key exactly once. In the `Tables` maps, the insertion order stands in
for it.

Subgraph bodies of the scheduler are code the scheduler cannot see. They are represented by a
caller-supplied script of `Effect`s. An effect says which of the subgraph's out-handoffs it left
non-empty and which events it sent. The run loops stop when the script runs out.

## Model

| member | source | states |
|---|---|---|
| Lattices.MergeOwned | lattices/src/lib.rs:45-52 | under the merge contract, `merge_owned` returns a value above both `this` and `delta` (merging either into it changes nothing), equal to `this` exactly when `merge` reports no change |
| Lattices.NaiveCmpFlip | lattices/src/lib.rs:70-81 | comparing the other way round swaps `Less` and `Greater` and keeps `Equal` and `None` |
| Lattices.NaiveCmpIsOrder | lattices/src/lib.rs:70-81 | `naive_cmp` merges each value into a copy of the other and reads the two change flags; for a merge that keeps the `Merge` contract this is the lattice's partial order: `Equal` exactly on equal values, `Less` exactly when `a` is strictly below `b`, `None` exactly on incomparable values |
| Lattices.UnitIsLattice | lattices/src/unit.rs:16-20 | `Unit`'s merge, which always reports no change, keeps the `Merge` contract: its join is associative, commutative and idempotent, and the flag is true exactly when the value changed |
| Lattices.UnitBotAndTop | lattices/src/unit.rs:30-40 | `is_bot` is true exactly when joining the value into any other leaves that other alone (bottom), `is_top` exactly when joining any value into it leaves it alone (top); the single value compares `Equal` to every value |
| Lattices.UnitLatticeFromKeepsOrder | lattices/src/unit.rs:22-26 | `lattice_from` converts within the same lattice: it keeps the `naive_cmp` order and commutes with the join |
| Sort.ParseLifetime | hydroflow_lang/src/graph/ops/sort.rs:70-85 | no lifetime means `'tick`, one is used as given, more than one yields the operator's diagnostic (with its exact text) and `'static` |
| Sort.SortSeq | hydroflow_lang/src/graph/ops/sort.rs:93-95 | `sort_unstable` yields an ascending permutation of its input |
| Sort.SortedUnique | hydroflow_lang/src/graph/ops/sort.rs:93-95 | two ascending sequences with the same multiset are equal, so the unstable sort's output is determined |
| Sort.Invoke | hydroflow_lang/src/graph/ops/sort.rs:87-125 | the output is always ascending; `'tick` emits a permutation of this tick's input and keeps no state; `'static` stores and emits, sorted, every item received so far |
| Sort.StaticAccumulates | hydroflow_lang/src/graph/ops/sort.rs:103-116 | under `'static`, starting from the empty stored vector, feeding `a` in one tick and then `b` in the next emits exactly the sorted `a + b` |
| Sort.StaticExample | hydroflow_lang/src/graph/ops/sort.rs:26-44 | the documented `'static` run: 6, 3, 4 emits 3, 4, 6; adding 1, 7 emits 1, 3, 4, 6, 7 |
| Sort.TickExample | hydroflow_lang/src/graph/ops/sort.rs:13-18 | the documented default (`'tick`) run: 2, 3, 1 emits 1, 2, 3 |
| PersistMutKeyed.Configure | hydroflow_lang/src/graph/ops/persist_mut_keyed.rs:81-93 | the operator refuses exactly the `'tick` lifetime, with its diagnostic; the storage type is the first type argument, or `Bag<_>` when none is given |
| PersistMutKeyed.Init | hydroflow_lang/src/graph/ops/persist_mut_keyed.rs:98-103 | the state starts at tick 0 with no key stored |
| PersistMutKeyed.Apply | hydroflow_lang/src/graph/ops/persist_mut_keyed.rs:120-126 | an unpersist item removes its key and a persist item stores its key (for sets, its value under that key); no other key changes |
| PersistMutKeyed.NextTick | hydroflow_lang/src/graph/ops/persist_mut_keyed.rs:118-119 | the stored tick becomes the later of itself and the tick after the current one |
| PersistMutKeyed.Invoke | hydroflow_lang/src/graph/ops/persist_mut_keyed.rs:105-141 | one pull invocation applies every input item in order, emits the whole store, advances the stored tick past the current tick, and always reschedules |
| PersistMutKeyed.OutputHolds | hydroflow_lang/src/graph/ops/persist_mut_keyed.rs:127-139 | the emitted pairs are exactly the stored ones, and a key is stored exactly when some pair with it is emitted |
| PersistMutKeyed.ApplyAllAppend | hydroflow_lang/src/graph/ops/persist_mut_keyed.rs:118-126 | applying `a + b` equals applying `a` and then `b` |
| PersistMutKeyed.ApplyAllUntouched | hydroflow_lang/src/graph/ops/persist_mut_keyed.rs:118-126 | items with other keys leave a key's presence and values unchanged |
| PersistMutKeyed.LastItemDecides | hydroflow_lang/src/graph/ops/persist_mut_keyed.rs:118-126 | the last item for a key decides it: after an unpersist no pair with the key is emitted; after a persist the key is stored, and with keyed sets the pair is emitted |
| PersistMutKeyed.InvokeTwice | hydroflow_lang/src/graph/ops/persist_mut_keyed.rs:105-141 | two invocations leave the store that one invocation on the concatenated inputs leaves |
| Storage.VecPersistAll | hydroflow/examples/deletable_state/main.rs:50-52 | persisting into a `Vec` pushes at the end: persisting items one by one appends them all, in order, after what was stored |
| Storage.SetPersist | hydroflow/examples/deletable_state/main.rs:62-64 | the set afterwards holds its old members and the item, without duplicates |
| Storage.SetUnpersist | hydroflow/examples/deletable_state/main.rs:72-74 | the set afterwards holds its old members except the item |
| Storage.SetPersistUnpersist | hydroflow/examples/deletable_state/main.rs:62-74 | unpersisting a freshly persisted item restores the set, and persisting twice equals persisting once |
| Storage.BagPersist | hydroflow/examples/deletable_state/main.rs:80-82 | the bag's multiset gains one copy of the item |
| Storage.BagUnpersist | hydroflow/examples/deletable_state/main.rs:90-92 | every copy of the item leaves the bag, and the other counts stay |
| Storage.BagUnpersistAfterPersists | hydroflow/examples/deletable_state/main.rs:80-92 | unpersisting after any number of persists of an item leaves the bag without that item and otherwise as before |
| Storage.KeyedCountPersist | hydroflow/examples/deletable_state/main.rs:149-151 | a known key's count goes up by one and keeps its value; a new key gets the value with count 1; other keys are untouched |
| Storage.KeyedCountUnpersist | hydroflow/examples/deletable_state/main.rs:162-164 | the key is removed and other keys are untouched |
| Storage.KeyedCountIterYields | hydroflow/examples/deletable_state/main.rs:153-158 | iterating the keyed counts yields each stored `(key, value)` pair as often as its count, and nothing else |
| Storage.KeyedSetPersist | hydroflow/examples/deletable_state/main.rs:170-172 | the key's set gains the value, keeps its old values, and other keys are untouched |
| Storage.KeyedSetUnpersist | hydroflow/examples/deletable_state/main.rs:187-189 | the key and all its values are removed, and other keys are untouched |
| Storage.KeyedSetNext | hydroflow/examples/deletable_state/main.rs:197-218 | the keyed-set iterator ends exactly when the current set and the remaining entries are used up |
| Storage.KeyedSetNextYieldsPending | hydroflow/examples/deletable_state/main.rs:197-218 | each `next` returns the first pending pair and leaves the rest pending |
| Storage.KeyedSetDrain | hydroflow/examples/deletable_state/main.rs:197-218 | draining the iterator yields exactly its pending pairs, in order |
| Storage.KeyedSetIterYields | hydroflow/examples/deletable_state/main.rs:174-181 | iterating the keyed sets yields each stored `(key, value)` pair exactly once |
| Bags.Default | hydroflow/src/util/bag.rs:7-11 | a new bag is empty |
| Bags.ContentsCount | hydroflow/src/util/bag.rs:7-11 | the bag's multiset agrees with the stored counts, and its size is the tracked length |
| Bags.Insert | hydroflow/src/util/bag.rs:15-18 | inserting raises the item's count and the length by one and changes no other count |
| Bags.RemoveOne | hydroflow/src/util/bag.rs:21-34 | removing one copy lowers a present item's count and the length by one; an absent item leaves the bag unchanged |
| Bags.Remove | hydroflow/src/util/bag.rs:37-41 | removing an item drops all its copies, and the length shrinks by its count |
| Bags.Len | hydroflow/src/util/bag.rs:44-46 | `len` is the number of items counted with multiplicity |
| Bags.Extend | hydroflow/src/util/bag.rs:49-53 | extending adds each item of the sequence once |
| Bags.IntoIter | hydroflow/src/util/bag.rs:64-66 | iterating the bag yields each item as often as its count, `len` items in all |
| Bags.IterYieldsContents | hydroflow/src/util/bag.rs:56-97 | the borrowing iterator yields the same items as `into_iter`, each item as often as its count |
| Bags.InsertContents | hydroflow/src/util/bag.rs:15-18 | as multisets, insert adds one copy |
| Bags.RemoveOneContents | hydroflow/src/util/bag.rs:21-34 | as multisets, `remove_one` takes away one copy |
| Bags.RemoveContents | hydroflow/src/util/bag.rs:37-41 | as multisets, `remove` zeroes the item |
| Bags.ExtendContents | hydroflow/src/util/bag.rs:49-53 | as multisets, `extend` adds the sequence's multiset |
| Bags.RemoveOneUndoesInsert | hydroflow/src/util/bag.rs:15-34 | `remove_one` after `insert` of the same item restores the contents and the length |
| RepeatIter.Next | hydroflow/src/util/bag.rs:81-97 | the repeat iterator ends exactly when no repeat is pending and the parent iterator is empty |
| RepeatIter.NextYieldsPending | hydroflow/src/util/bag.rs:81-97 | each `next` returns the first pending item and leaves the rest pending |
| RepeatIter.Drain | hydroflow/src/util/bag.rs:78-97 | draining the iterator yields exactly its pending items, in order |
| RepeatIter.FlattenCounts | hydroflow/src/util/bag.rs:56-66 | flattening `(item, count)` entries yields each item as often as its total count |
| RepeatIter.CopiesMultiset | hydroflow/src/util/bag.rs:65 | `repeat_n(x, n)` yields `x` exactly `n` times and nothing else |
| HalfSetJoin.Default | hydroflow/src/compiled/pull/half_join_state/set.rs:35-42 | a new half-join state stores no rows and queues no matches |
| HalfSetJoin.KeysAreStored | hydroflow/src/compiled/pull/half_join_state/set.rs:13-22 | a key is in the table exactly when some row with that key is stored |
| HalfSetJoin.Clear | hydroflow/src/compiled/pull/half_join_state/set.rs:43-48 | clearing gives back the default state |
| HalfSetJoin.Build | hydroflow/src/compiled/pull/half_join_state/set.rs:56-75 | `build` reports true exactly for a row not stored before; it adds the row, appending it to the key's list, and a repeated row changes nothing |
| HalfSetJoin.Probe | hydroflow/src/compiled/pull/half_join_state/set.rs:77-92 | `probe` returns the first match and queues the others at the back, in table order; an absent key finds nothing and changes nothing |
| HalfSetJoin.ProbeFindsEveryMatch | hydroflow/src/compiled/pull/half_join_state/set.rs:77-92 | from an empty queue, the returned match and the queued ones are every stored match of the key, each exactly once |
| HalfSetJoin.PopMatch | hydroflow/src/compiled/pull/half_join_state/set.rs:94-96 | `pop_match` takes the front of the queue, first in first out, and returns none exactly when the queue is empty |
| HalfSetJoin.IterYieldsEachRowOnce | hydroflow/src/compiled/pull/half_join_state/set.rs:24-32 | the rows `iter` yields (in the table's hash order) are exactly the stored ones, each exactly once on a valid state |
| HalfSetJoin.LenCountsKeys | hydroflow/src/compiled/pull/half_join_state/set.rs:98-101 | `len` counts keys: it is at most the number of rows, and zero exactly when there are none |
| JoinPull.InitKeys | hydroflow_lang/src/graph/ops/join.rs:238-246 | on a new tick, the generated code re-probes the stored rows of the side with fewer keys and the expanded code re-probes the left side's rows; otherwise nothing is re-probed |
| JoinPull.TakeRow | hydroflow_lang/src/graph/ops/join.rs:256-266 | the generated code takes a re-probe row from the back and the expanded code from the front |
| JoinPull.ReprobeRows | hydroflow_lang/src/graph/ops/join.rs:256-274 | re-probing saved rows leaves the inputs and tables alone and uses up at least one row per emitted match |
| JoinPull.Next | hydroflow_lang/src/graph/ops/join.rs:248-299 | one `next` of the join's iterator either emits and makes progress, or finds every input, queue and re-probe row used up |
| JoinPull.NextGenerated | hydroflow_lang/src/graph/ops/join.rs:248-299 | the generated loop's order: pop the queues, re-probe, then pull the inputs |
| JoinPull.NextExpanded | hydroflow/examples/hello_world2/main.rs:438-485 | the expanded loop's evident order: the rhs match queue, then re-probing the saved lhs rows, the lhs match queue, the lhs input, and the rhs input |
| JoinPull.PullInputs | hydroflow_lang/src/graph/ops/join.rs:280-298 | pulling consumes at least one input row per emitted match, and ends only with both inputs drained |
| JoinPull.Run | hydroflow_lang/src/graph/ops/join.rs:215-299 | running the iterator to the end drains both inputs, both queues and the re-probe rows |
| JoinExactlyOnce.RunEmitsOwed | hydroflow_lang/src/graph/ops/join.rs:248-299 | from any state the loop invariant holds in, the iterator emits each owed pair exactly once and nothing else |
| JoinExactlyOnce.ExactlyOnce | hydroflow_lang/src/graph/ops/join.rs:215-299 | one run outputs each pair whose left and right rows are stored or read, once; a pair whose rows were both stored before only on a new tick. Each table ends with its old rows plus the rows read |
| JoinOperator.Persistences | hydroflow_lang/src/graph/ops/join.rs:147-183 | `'mutable` on either input is refused with its diagnostic; otherwise no argument gives `'tick` twice, one is used for both inputs, two are taken in order |
| JoinOperator.NewTick | hydroflow_lang/src/graph/ops/join.rs:303-308 | `is_new_tick` holds exactly when the stored tick is behind the current one, which then becomes the stored tick |
| JoinOperator.NewTickOncePerTick | hydroflow_lang/src/graph/ops/join.rs:303-308 | within one tick, only the first invocation sees a new tick |
| JoinOperator.Borrow | hydroflow_lang/src/graph/ops/join.rs:147-165 | a `'tick` input's state is empty when the tick has advanced; otherwise, and always for `'static`, the stored state is used |
| JoinOperator.Prologue | hydroflow_lang/src/graph/ops/join.rs:193-203 | the operator starts with empty tables and stored tick 0 |
| JoinOperator.Invoke | hydroflow_lang/src/graph/ops/join.rs:207-323 | one invocation outputs each matching pair of the final tables once, the old pairs only on a new tick. It keeps the rows read, and reschedules itself exactly when both inputs are `'static` |
| JoinOperator.EmptyJoinsInputsOnly | hydroflow_lang/src/graph/ops/join.rs:207-308 | with empty tables, the output is exactly the matching pairs of this invocation's inputs |
| JoinOperator.TickJoinsOnlyThisTick | hydroflow_lang/src/graph/ops/join.rs:147-165 | with `'tick` on both inputs, a new tick joins only that tick's rows |
| JoinOperator.StaticReplaysOnNewTick | hydroflow_lang/src/graph/ops/join.rs:303-308 | with `'static` on both inputs, a new tick outputs every pair of the stored and new rows |
| JoinOperator.SameTickOnlyNewPairs | hydroflow_lang/src/graph/ops/join.rs:303-308 | a second invocation in the same tick outputs only pairs with at least one new row |
| JoinOperator.FreshRun | hydroflow_lang/src/graph/ops/join.rs:193-323 | a fresh operator outputs exactly the matching input pairs and stores exactly the inputs |
| JoinOperator.DedupExample | hydroflow_lang/src/graph/ops/join.rs:15-20 | the documented example: a duplicated left row yields its match only once |
| JoinOperator.HelloTick0 | hydroflow_lang/src/graph/ops/join.rs:52-82 | the documented first tick: `hello world` joined with `hello oakland`, for every lifetime |
| JoinOperator.TickExample | hydroflow_lang/src/graph/ops/join.rs:52-65 | the documented `'tick` run: the second tick's `san francisco` row finds no partner |
| JoinOperator.StaticExample | hydroflow_lang/src/graph/ops/join.rs:69-82 | the documented `'static` run: the second tick outputs both the old and the new pair |
| JoinOperator.HelloWorld2Step | hydroflow/examples/hello_world2/main.rs:404-485 | one tick of the example's `'static` join, given what it stored before, outputs every pair with right values up to that tick |
| JoinOperator.HelloWorld2First | hydroflow/examples/hello_world2/main.rs:404-485 | the example's first tick outputs `(7, (1, 0))` and `(7, (2, 0))` |
| JoinOperator.HelloWorld2Join | hydroflow/examples/hello_world2/main.rs:404-485 | over ticks 0 to 2, the join's state and output are those the example's inputs determine |
| JoinOperator.HelloWorld2JoinTicks | hydroflow/examples/hello_world2/main.rs:840-888 | ticks 0, 1 and 2 output exactly the pairs the example's assertions list |
| Scheduler.AtMostOnce | hydroflow/src/scheduled/graph.rs:240-253 | in a well-formed scheduler a subgraph is queued at most once, in one stratum |
| Scheduler.Default | hydroflow/src/scheduled/graph.rs:51-83 | a new scheduler has one empty stratum, tick 0, no subgraphs, no handoffs and no events |
| Scheduler.InitStratum | hydroflow/src/scheduled/graph.rs:552-558 | the stratum list grows with empty queues until it holds the given stratum, and existing queues stay |
| Scheduler.MakeEdge | hydroflow/src/scheduled/graph.rs:560-582 | a new handoff with no predecessors or successors is appended, and its id is returned for both ports |
| Scheduler.AttachReader | hydroflow/src/scheduled/graph.rs:497-505 | the subgraph becomes a successor of exactly the handoffs it receives from |
| Scheduler.AttachWriter | hydroflow/src/scheduled/graph.rs:497-505 | the subgraph becomes a predecessor of exactly the handoffs it sends to |
| Scheduler.AddSubgraphStratified | hydroflow/src/scheduled/graph.rs:422-459 | the new subgraph gets the next id, is scheduled at the back of its stratum's queue, and is linked to its ports' handoffs |
| Scheduler.AddSubgraphKeepsWf | hydroflow/src/scheduled/graph.rs:422-459 | adding a subgraph keeps the scheduler well formed: queued ids name subgraphs of that stratum, queued exactly when flagged, and handoff links agree in both directions |
| Scheduler.Schedule | hydroflow/src/scheduled/graph.rs:345-350 | scheduling queues a subgraph at the back of its stratum only if it was not already scheduled |
| Scheduler.ScheduleKeepsWf | hydroflow/src/scheduled/graph.rs:240-253 | scheduling keeps the scheduler well formed |
| Scheduler.ScheduleAll | hydroflow/src/scheduled/graph.rs:339-353 | after scheduling a list, exactly the listed and the previously scheduled subgraphs are scheduled |
| Scheduler.ReceiveAll | hydroflow/src/scheduled/graph.rs:339-353 | receiving events schedules their targets, counts the newly scheduled ones, and reports whether any event was external |
| Scheduler.TryRecvEvents | hydroflow/src/scheduled/graph.rs:339-353 | `try_recv_events` empties the event queue, schedules every target, and returns the count of newly scheduled subgraphs and whether any event was external |
| Scheduler.Seek | hydroflow/src/scheduled/graph.rs:275-312 | the stratum search stops at a stratum with work, or at stratum 0 of a later tick with nothing found |
| Scheduler.SeekWrap | hydroflow/src/scheduled/graph.rs:289-303 | past the last stratum the search starts the next tick; it stops either at a stratum with work in a later tick, or at stratum 0 with nothing found |
| Scheduler.SeekKeepsWf | hydroflow/src/scheduled/graph.rs:275-312 | the search keeps the scheduler well formed |
| Scheduler.SeekSameGraph | hydroflow/src/scheduled/graph.rs:275-312 | the search changes no handoff, no subgraph's stratum or links, and not the number of strata |
| Scheduler.SeekTicks | hydroflow/src/scheduled/graph.rs:275-312 | the search moves at most one tick on, or two when external events arrive |
| Scheduler.SeekCurrentTick | hydroflow/src/scheduled/graph.rs:284-301 | restricted to the current tick, the search finds the first non-empty stratum, or starts the next tick when none is left |
| Scheduler.NextStratum | hydroflow/src/scheduled/graph.rs:269-313 | `next_stratum` keeps the graph well formed; it returns true only at a stratum with work, and false after moving to stratum 0 of a later tick |
| Scheduler.NextStratumFindsFirstWork | hydroflow/src/scheduled/graph.rs:269-313 | within the current tick it returns true exactly when some later stratum has work, and stops at the first such stratum |
| Scheduler.SeekDefersInternal | hydroflow/src/scheduled/graph.rs:296-309 | with no external event, the search schedules the queued internal events at the tick's wrap but returns false |
| Scheduler.NextStratumDefersInternal | hydroflow/src/scheduled/graph.rs:269-313 | a subgraph rescheduled only by an internal event does not run until the next tick |
| Scheduler.DefaultIsIdle | hydroflow/src/scheduled/graph.rs:269-313 | a new scheduler has no work and moves on to tick 1 |
| Scheduler.Woken | hydroflow/src/scheduled/graph.rs:240-253 | the woken subgraphs are the successors of exactly the non-empty out-handoffs |
| Scheduler.Pop | hydroflow/src/scheduled/graph.rs:229-236 | the front subgraph of the current stratum is dequeued and unscheduled, and the events it sends are queued |
| Scheduler.RunOne | hydroflow/src/scheduled/graph.rs:229-253 | running one subgraph unschedules it and schedules the successors of its non-empty out-handoffs |
| Scheduler.RunStratum | hydroflow/src/scheduled/graph.rs:226-256 | `run_stratum` returns true exactly when it ran a subgraph, and runs one whenever the stratum has work; it consumes one effect per run |
| Scheduler.RunStratumStays | hydroflow/src/scheduled/graph.rs:226-256 | `run_stratum` stays in its stratum and tick, only appends pending events, and stops only once the stratum's queue is empty or the supplied effects are used up |
| Scheduler.RunStratumRuns | hydroflow/src/scheduled/graph.rs:226-256 | every subgraph `run_stratum` runs belongs to the current stratum and runs at the current tick |
| Scheduler.RunStratumKeepsWf | hydroflow/src/scheduled/graph.rs:226-256 | `run_stratum` keeps the scheduler well formed |
| Scheduler.Drive | hydroflow/src/scheduled/graph.rs:178-202 | the shared loop of `run_tick` and `run_available` reports work done exactly when something ran |
| Scheduler.DriveKeepsWf | hydroflow/src/scheduled/graph.rs:178-202 | the loop keeps the scheduler well formed and runs each subgraph in its own stratum |
| Scheduler.DriveOrdered | hydroflow/src/scheduled/graph.rs:178-202 | subgraphs run in order of tick and then stratum, never before the starting point |
| Scheduler.RunTick | hydroflow/src/scheduled/graph.rs:178-187 | `run_tick` runs only this tick's subgraphs, in stratum order, and ends at stratum 0 of the next tick |
| Scheduler.RunAvailable | hydroflow/src/scheduled/graph.rs:193-202 | `run_available` runs subgraphs in tick and stratum order, and reports work done exactly when something ran |
| Scheduler.RunAvailableDefersInternal | hydroflow/src/scheduled/graph.rs:193-202 | with only internal events pending, `run_available` does no work, and leaves their targets scheduled for the next tick |
| Algebra.Max | lattices/src/algebra.rs:12-16 | `max` is an upper bound of both arguments and equals one of them |
| Algebra.MaxLaws | lattices/src/algebra.rs:12-16 | `max` on `u32` passes the associativity, idempotency, commutativity and identity checkers with identity 0 |
| Algebra.WrappingIsCongruent | lattices/src/algebra.rs:17-27 | `wrapping_add` and `wrapping_mul` give the one `u32` congruent to the exact sum or product modulo 2^32, so they agree with plain addition when it does not overflow |
| Algebra.WrappingNeg | lattices/src/algebra.rs:17-27 | `wrapping_neg` is the additive inverse modulo 2^32, zero only for zero |
| Algebra.WrappingAddAssoc | lattices/src/algebra.rs:17-27 | wrapping addition is associative |
| Algebra.WrappingMulAssoc | lattices/src/algebra.rs:17-27 | wrapping multiplication is associative |
| Algebra.WrappingLeftDistributes | lattices/src/algebra.rs:17-27 | wrapping multiplication distributes over wrapping addition from the left |
| Algebra.WrappingRightDistributes | lattices/src/algebra.rs:17-27 | and from the right |
| Algebra.WrappingRing | lattices/src/algebra.rs:17-27 | `u32` with wrapping `+`, `*` and negation passes the ring checker (and so the semiring checker) |
| Algebra.BoolSemiring | lattices/src/algebra.rs:42 | `bool` with logical or as addition, logical and as multiplication, `false` and `true` passes the semiring checker |
| Algebra.BoolOrCommutativeMonoid | lattices/src/algebra.rs:242-249 | `\|\|` with `false` passes the commutative-monoid checker |
| Algebra.BoolAndMonoid | lattices/src/algebra.rs:190-197 | `&&` with `true` passes the monoid checker, and `false` absorbs it |
| Algebra.BoolDistributive | lattices/src/algebra.rs:271-278 | `&&` distributes over `\|\|` on both sides |
| Algebra.FieldCheckerRefusesTwoElementField | lattices/src/algebra.rs:230-240 | the two-element field (exclusive or as addition, logical and as multiplication, each element its own negation, `true` its own multiplicative inverse) satisfies the corrected field checker, and the checker as written rejects it |
| Algebra.ConcatAssoc | lattices/src/algebra.rs:60-84 | concatenation of languages is associative |
| Algebra.ConcatEmptyStringRight | lattices/src/algebra.rs:60-84 | `{""}` is a right identity of concatenation |
| Algebra.ConcatEmptyStringLeft | lattices/src/algebra.rs:60-84 | `{""}` is a left identity of concatenation |
| Algebra.ConcatEmpty | lattices/src/algebra.rs:60-84 | the empty language annihilates concatenation on both sides |
| Algebra.ConcatDistributes | lattices/src/algebra.rs:60-84 | concatenation distributes over union on both sides |
| Algebra.LanguageSemiring | lattices/src/algebra.rs:60-84 | languages with union as addition, pairwise concatenation as multiplication, `{}` and `{""}` pass the semiring checker |
| Algebra.UnionCommutativeMonoid | lattices/src/algebra.rs:60-84 | union with `{}` passes the commutative-monoid checker |
| Algebra.ConcatMonoid | lattices/src/algebra.rs:60-84 | concatenation with `{""}` passes the monoid checker |
| Algebra.ConcatAbsorbing | lattices/src/algebra.rs:308-320 | `{}` is an absorbing element of concatenation |
| Algebra.ConcatDistributive | lattices/src/algebra.rs:271-278 | concatenation and union pass the distributivity checker |
| Polynomials.PolyEqIffCoefs | lattices/src/algebra.rs:96-104 | polynomial equality compares coefficient by coefficient, reading missing coefficients as zero |
| Polynomials.PolyEqEquivalence | lattices/src/algebra.rs:96-104 | polynomial equality is an equivalence that ignores trailing zeros |
| Polynomials.Add | lattices/src/algebra.rs:117-130 | the sum is as long as the longer operand |
| Polynomials.AddCoef | lattices/src/algebra.rs:117-130 | each coefficient of the sum is the sum of the coefficients |
| Polynomials.PolyMul | lattices/src/algebra.rs:132-142 | the product vector has length `len(a) + len(b)` |
| Polynomials.Mul | lattices/src/algebra.rs:132-142 | the nested loops compute the convolution of the coefficients |
| Polynomials.MulCoef | lattices/src/algebra.rs:132-142 | each coefficient of the product is the convolution sum |
| Polynomials.ConvAssoc | lattices/src/algebra.rs:132-142 | the convolution is associative |
| Polynomials.ConvUnits | lattices/src/algebra.rs:132-142 | `[1]` is a unit and `[]` annihilates the convolution |
| Polynomials.PolynomialSemiring | lattices/src/algebra.rs:155-170 | polynomials with `+`, `*`, `[]` and `[1]` pass the semiring checker under polynomial equality |
| Polynomials.AddCommutativeMonoid | lattices/src/algebra.rs:117-130 | polynomial addition with `[]` passes the commutative-monoid checker |
| Polynomials.MulMonoid | lattices/src/algebra.rs:132-142 | polynomial multiplication with `[1]` passes the monoid checker |
| Polynomials.MulAbsorbing | lattices/src/algebra.rs:132-142 | `[]` absorbs polynomial multiplication |
| Polynomials.MulDistributive | lattices/src/algebra.rs:117-142 | polynomial multiplication distributes over addition |
| Semirings.FindIndex | lattices/src/semiring.rs:56-64 | `find` returns the first item the predicate accepts, or none exactly when no item is accepted |
| Semirings.TestProperties | lattices/src/semiring.rs:33-122 | the test passes only when the first identities found satisfy every law on the items; it panics in the commutativity group exactly when `+` does not commute, in the associativity group exactly when `+` commutes but `+` or `*` does not associate, for a missing additive identity exactly when those laws hold and no item is recognised as zero, and in the identity or absorption group only when the identities found break that law |
| Semirings.LawsPass | lattices/src/semiring.rs:33-122 | conversely, items on which every law holds pass the test |
| Semirings.SemiringPasses | lattices/src/semiring.rs:33-122 | a genuine semiring passes the test on every item list in which the recognisers find its zero and one |
| Semirings.LawsFromSemiring | lattices/src/semiring.rs:33-122 | a genuine semiring satisfies every law the test checks, on every item list |
| Semirings.Naturals | lattices/src/semiring.rs:139-155 | the recognisers accept exactly 0 and exactly 1 |
| Semirings.NaturalNumberSemiring | lattices/src/semiring.rs:124-155 | natural numbers under `+` and `*` form a semiring |
| Semirings.NaturalNumberPasses | lattices/src/semiring.rs:124-155 | the natural-number test passes on every list holding 0 and 1 |
| Semirings.NaturalNumberIdentitiesFound | lattices/src/semiring.rs:139-155 | the recognisers find 0 and 1 in any list holding them |
| Semirings.NaturalNumberTestPasses | lattices/src/semiring.rs:223-231 | the test's run on 0, 1, 2, 3, 4 passes |
| Semirings.BooleanOps | lattices/src/semiring.rs:172-188 | the recognisers accept exactly `false` and exactly `true` |
| Semirings.BooleansSemiring | lattices/src/semiring.rs:157-188 | booleans under `\|\|` and `&&` form a semiring |
| Semirings.BooleansPass | lattices/src/semiring.rs:157-188 | the boolean test passes on every list holding `false` and `true` |
| Semirings.BooleansIdentitiesFound | lattices/src/semiring.rs:172-188 | the recognisers find `false` and `true` in any list holding them |
| Semirings.BooleansLawsOn | lattices/src/semiring.rs:157-188 | the boolean laws hold on every list |
| Semirings.BooleansTestPasses | lattices/src/semiring.rs:233 | the test's run on `false`, `true` passes |
| Semirings.BooleansWithoutZeroPanics | lattices/src/semiring.rs:56-59 | a list without `false` panics looking for the additive identity |

## Left out

- `run`, `run_async`, `run_available_async`, `recv_events` and `recv_events_async` (graph.rs:209-224, 318-400) block or await on the event channel. Only the non-blocking `try_recv_events` is modelled.
- Events sent by a subgraph during a run are appended to the event queue. They are received at the next `try_recv_events`, so the channel's timing is not modelled.
- Event ids are assumed valid, as the source assumes when it indexes `subgraphs[sg_id]`.
- `add_subgraph`, `add_subgraph_n_m` and `add_subgraph_stratified_n_m` are left out. They delegate to the modelled stratified form with stratum 0 or with port lists.
- `add_state`, `context_mut`, the async task-spawning API (`spawn_task`), port senders and receivers, and the meta-graph and diagnostics accessors of graph.rs are left out. They hold no scheduling logic.
- `PortList`'s `set_graph_meta` is not part of this model. Attaching a subgraph to its ports is modelled as adding it to each port's handoff successors (receive side) or predecessors (send side).
- Subgraph bodies are not modelled. They are caller-supplied `Effect`s, and the run loops stop when the supplied effects run out. This is the bound on otherwise unbounded runs.
- `JoinOperator.Borrow`: assumes that `MonotonicMap::get_mut_clear` clears a `'tick` state once the tick has advanced, because `MonotonicMap` is not part of this model.
- Hash-map and hash-set iteration order is not specified. It is a caller-supplied key order, or insertion order in `Tables`.
- join.rs:240-242 flat-maps over `iter()` again, although `iter()` already yields `(key, value)` rows. The model re-probes exactly `iter()`'s rows, as hello_world2 does.
- `JoinOperator.Persistences`: requires at most two lifetime arguments. The operator's argument count is limited to 0..=2 (join.rs:91), and join.rs:182 is `unreachable!()` otherwise.
- A non-default join-state type argument of `join` is left out. Only `HalfSetJoinState` is modelled.
- `Sort.Invoke`: requires a lifetime other than `'mutable`, because `sort` has no `'mutable` arm.
- `sort`'s stratum delay on its input (sort.rs:55) is a scheduling constraint. It is not modelled.
- The push form of `persist_mut_keyed` (persist_mut_keyed.rs:143-167) is left out. It replays the store once per tick and then persists each passing item without ever unpersisting. Only the pull form is modelled.
- The `MapUnion` persistence impls of deletable_state (main.rs:95-144) are left out. They need the lattices crate's map-union type.
- `JoinPull.NextExpanded`: follows the evident order of hello_world2's expanded join loop (main.rs:427-447), which is the order the example's assertions need. As written, that text would not run. On a new tick it keeps the `RefMut` of the left state (from :427) inside `lhs_keys`, and every loop pass borrows the same `RefCell` mutably again (:438), which panics. It also moves `lhs_keys` out of the closure (:447), calls `next` on an immutable binding, and maps the `RefMut` to an iterator rather than a reference (:431). The model takes the left state's rows once, as `iter()` would yield them, and re-probes them one by one.
- `PersistMutKeyed.Init`: models only the two keyed stores with a `PersistenceKeyed` impl, `HashMap<K, (V, usize)>` and `HashMap<K, HashSet<V>>` (deletable_state/main.rs:146-190). The operator's default storage `Bag<_>` (persist_mut_keyed.rs:90-93) has only `Persistence` and `PersistenceMut` impls (main.rs:77-92), so the keyed operator cannot be instantiated with it. `Configure` still returns it as `DefaultStorage`, but no state is modelled for it.
- The example's graph-building code and channel plumbing in hello_world2 are left out. The join's per-tick inputs are derived from its handoffs.
- hello_world2's assertion that tick 3 has no entry is covered by `Scheduler.RunAvailableDefersInternal`, the general mechanism. No concrete trace of the whole example graph is modelled.
- Items of `sort` are integers under their usual order, not an arbitrary `Ord` type.
- `RepeatIter.Next`: a zero repeat count is not modelled. The iterator requires positive counts (`Positive`), which `Bag` and the keyed counts maintain.
- `usize` and `u32` overflow panics are not modelled for `NaturalNumber`, `Polynomial` coefficients, bag counts and lengths, ticks, or the `persist_mut_keyed` tick. These use unbounded naturals. Only the algebra tests' explicit wrapping `u32` arithmetic is modelled with its wrap-around.
- The `f64` tests of algebra.rs (44-58) are left out, because floating point is not modelled.
- `Subsets` of semiring.rs (190-221) is left out. The test never runs it, and its `is_multiplicative_identity` compares the set with `true`, so it has no meaningful multiplicative identity.
- The `todo!()` checkers `quasi_group` and `divisability` (algebra.rs:173-188) are left out. They have no behaviour.
- `Polynomial::evaluate` (algebra.rs:144-152) is left out, because the semiring test never calls it. `new` and `new_from` (107-115) are the model's sequence literals.
- Algebra: the checkers range over a list of sample items. The model states each law over all values of the type, which implies the check on every list.
- `Semirings.TestProperties`: reports the group of checks that failed (commutativity, associativity, identities, distribution, absorption, or one of the two identity lookups), not the failing assertion within the group or its message, because which tuple `cartesian_power` yields first is not modelled.

## Findings

| source | as written | input that shows it | evidently intended | confidence | as-written member | corrected member |
|---|---|---|---|---|---|---|
| lattices/src/algebra.rs:239 | `field` checks `nonzero_inverse(items, f, one, zero, b)`: the additive operation `f` against `one`, with the additive inverse `b` | GF(2): `f` = xor, `g` = and, zero `false`, one `true`, `b` = identity. `xor(true, true)` is `false`, not `true`, so the check fails | every non-zero element has a multiplicative inverse under `g` with identity `one`; `field` would need a second, multiplicative-inverse argument for this, since `b` gives additive inverses (the corrected predicate takes one, `inv`) | not executed | Algebra.FieldAsWritten, Algebra.FieldCheckerRefusesTwoElementField | Algebra.Field |
