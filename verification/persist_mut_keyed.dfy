/** The `persist_mut_keyed` operator on its pull side: it keeps a keyed store and the tick it was
    last brought up to date for. Each invocation applies the incoming `((k, v), unpersist)` items
    in order (an unpersist forgets key `k`, anything else persists `(k, v)`), replays the whole
    store, and asks to be scheduled again. */
module PersistMutKeyed {
  import opened Wrappers
  import opened Tables
  import opened Lifetimes
  import opened RepeatIter
  import opened Storage

  /** The type argument used when none is given. */
  const DefaultStorage: string := "#root::util::Bag<_>"

  /** What code generation settles on: the storage type the state is declared with. */
  datatype Config = Config(storage: string)

  /** The operator's argument check: an explicit lone `'tick` is an error, since the operator only
      persists; anything else is accepted, and the storage type is the first type argument, or a
      bag when there is none. */
  function Configure(opName: string, persistenceArgs: seq<Persistence>, typeArgs: seq<string>): (r: Result<Config>)
    ensures r.Err? <==> persistenceArgs == [Tick]
    ensures r.Err? ==> r.message == "`" + opName + "()` can only have `'static` persistence."
    ensures r.Ok? && typeArgs != [] ==> r.value.storage == typeArgs[0]
    ensures r.Ok? && typeArgs == [] ==> r.value.storage == DefaultStorage
  {
    if persistenceArgs == [Tick] then Err("`" + opName + "()` can only have `'static` persistence.")
    else Ok(Config(if typeArgs != [] then typeArgs[0] else DefaultStorage))
  }

  /** The keyed stores that implement `PersistenceKeyed`, so the operator can be instantiated
      with them. The default `Bag<_>` implements only the unkeyed traits and has no state here. */
  datatype Store<K, V> =
    | Counts(counts: Table<K, (V, nat)>)   // `HashMap<K, (V, usize)>`
    | Sets(sets: Table<K, seq<V>>)         // `HashMap<K, HashSet<V>>`

  ghost predicate ValidStore<K(!new), V>(s: Store<K, V>)
  {
    match s
    case Counts(t) => Tables.Valid(t) && CountsPositive(t)
    case Sets(t) => Tables.Valid(t) && SetsValid(t)
  }

  /** The operator's state: the tick it next expects, and the store. */
  datatype State<K, V> = State(tick: nat, store: Store<K, V>)

  /** The prologue: tick 0, and the store's default, which is empty. */
  function Init<K(!new), V>(sets: bool): (st: State<K, V>)
    ensures st.tick == 0 && ValidStore(st.store) && st.store.Sets? == sets
    ensures forall k :: !HasKey(st.store, k)
  {
    State(0, if sets then Sets([]) else Counts([]))
  }

  /** `k` has an entry in the store. */
  function HasKey<K(==,!new), V>(s: Store<K, V>, k: K): bool
  {
    match s
    case Counts(t) => Get(t, k).Some?
    case Sets(t) => Get(t, k).Some?
  }

  /** One input item: `((k, v), unpersist)`. */
  function Apply<K(==,!new), V(==,!new)>(s: Store<K, V>, item: ((K, V), bool)): (r: Store<K, V>)
    requires ValidStore(s)
    ensures ValidStore(r) && r.Sets? == s.Sets?
    ensures item.1 ==> !HasKey(r, item.0.0)
    ensures !item.1 ==> HasKey(r, item.0.0)
    ensures !item.1 && r.Sets? ==> item.0.1 in Get(r.sets, item.0.0).value
    ensures forall j :: j != item.0.0 ==> HasKey(r, j) == HasKey(s, j)
  {
    var ((k, v), unpersist) := item;
    match s
    case Counts(t) => Counts(if unpersist then KeyedCountUnpersist(t, k) else KeyedCountPersist(t, k, v))
    case Sets(t) => Sets(if unpersist then KeyedSetUnpersist(t, k) else KeyedSetPersist(t, k, v))
  }

  /** The input items, applied in order. */
  function ApplyAll<K(==,!new), V(==,!new)>(s: Store<K, V>, input: seq<((K, V), bool)>): (r: Store<K, V>)
    requires ValidStore(s)
    ensures ValidStore(r) && r.Sets? == s.Sets?
    decreases |input|
  {
    if input == [] then s else ApplyAll(Apply(s, input[0]), input[1..])
  }

  /** `iter()` over the store, drained: what the operator emits. */
  function Output<K(==,!new), V(==,!new)>(s: Store<K, V>): seq<(K, V)>
  {
    match s
    case Counts(t) => Pending(KeyedCountIter(t))
    case Sets(t) => SetPending(KeyedSetIterOf(t))
  }

  /** The tick bookkeeping: a state not yet brought up to date for the current tick is marked as
      done for it by storing the next tick; a state already ahead keeps its tick. */
  function NextTick(stored: nat, current: nat): (r: nat)
    ensures r > current && r >= stored
    ensures stored > current ==> r == stored
    ensures stored <= current ==> r == current + 1
  {
    if stored <= current then 1 + current else stored
  }

  /** The result of one invocation: the new state, the items emitted, and whether the operator's
      subgraph asked to be scheduled again. */
  datatype Invocation<K, V> = Invocation(state: State<K, V>, output: seq<(K, V)>, reschedule: bool)

  /** One pull-side invocation in tick `current`. Both branches of the tick test apply the input
      and replay the whole store, so only the stored tick depends on it. */
  function Invoke<K(==,!new), V(==,!new)>(st: State<K, V>, current: nat, input: seq<((K, V), bool)>): (r: Invocation<K, V>)
    requires ValidStore(st.store)
    ensures ValidStore(r.state.store) && r.state.store.Sets? == st.store.Sets?
    ensures r.state.tick > current && r.state.tick >= st.tick
    ensures r.state.store == ApplyAll(st.store, input)
    ensures r.output == Output(r.state.store)
    ensures r.reschedule
  {
    var store := ApplyAll(st.store, input);
    Invocation(State(NextTick(st.tick, current), store), Output(store), true)
  }

  /** The emitted items are exactly what the store holds: for the counted store each key with its
      first value (as often as it was persisted), for the set store each key with each of its
      values. In particular the output mentions exactly the keys that have an entry. */
  lemma OutputHolds<K(!new), V(!new)>(s: Store<K, V>, k: K, v: V)
    requires ValidStore(s)
    ensures s.Counts? ==> ((k, v) in Output(s) <==> Get(s.counts, k).Some? && Get(s.counts, k).value.0 == v)
    ensures s.Sets? ==> ((k, v) in Output(s) <==> Get(s.sets, k).Some? && v in Get(s.sets, k).value)
    ensures HasKey(s, k) <==> exists w :: (k, w) in Output(s)
  {
    match s
    case Counts(t) =>
      KeyedCountIterYields(t, k, v);
      if Get(t, k).Some? {
        var first := Get(t, k).value.0;
        KeyedCountIterYields(t, k, first);
        assert (k, Get(t, k).value) in t;
      }
      forall w | (k, w) in Output(s) ensures HasKey(s, k) {
        KeyedCountIterYields(t, k, w);
      }
    case Sets(t) =>
      KeyedSetIterYields(t);
      if Get(t, k).Some? {
        assert (k, Get(t, k).value) in t;
        var w := Get(t, k).value[0];
        assert (k, w) in Output(s);
      }
  }

  /** Replaying a prefix, then the rest, is replaying all of it. */
  lemma {:induction false} ApplyAllAppend<K(!new), V(!new)>(s: Store<K, V>, a: seq<((K, V), bool)>, b: seq<((K, V), bool)>)
    requires ValidStore(s)
    ensures ApplyAll(s, a + b) == ApplyAll(ApplyAll(s, a), b)
    decreases |a|
  {
    if a == [] {
      assert a + b == b;
    } else {
      var s1 := Apply(s, a[0]);
      assert (a + b)[0] == a[0] && (a + b)[1..] == a[1..] + b;
      assert ApplyAll(s, a + b) == ApplyAll(s1, a[1..] + b);
      ApplyAllAppend(s1, a[1..], b);
    }
  }

  /** Items about other keys leave `k`'s entry alone: whether it has one, and in the set store,
      which values it holds. */
  lemma {:induction false} ApplyAllUntouched<K(!new), V(!new)>(s: Store<K, V>, input: seq<((K, V), bool)>, k: K)
    requires ValidStore(s)
    requires forall i :: 0 <= i < |input| ==> input[i].0.0 != k
    ensures HasKey(ApplyAll(s, input), k) == HasKey(s, k)
    ensures s.Sets? ==> Get(ApplyAll(s, input).sets, k) == Get(s.sets, k)
    decreases |input|
  {
    if input != [] {
      var s1 := Apply(s, input[0]);
      assert s.Sets? ==> Get(s1.sets, k) == Get(s.sets, k);
      ApplyAllUntouched(s1, input[1..], k);
    }
  }

  /** The last item about `k` decides whether `k` survives the invocation: after an unpersist it
      is gone and the output has nothing for it; after a persist of `(k, v)` it is there, and the
      set store emits `(k, v)`. */
  lemma LastItemDecides<K(!new), V(!new)>(s: Store<K, V>, input: seq<((K, V), bool)>, i: nat)
    requires ValidStore(s)
    requires i < |input| && forall j :: i < j < |input| ==> input[j].0.0 != input[i].0.0
    ensures var r := ApplyAll(s, input);
            var ((k, v), unpersist) := input[i];
            && (unpersist <==> !HasKey(r, k))
            && (unpersist ==> forall w :: (k, w) !in Output(r))
            && (!unpersist && r.Sets? ==> (k, v) in Output(r))
  {
    var ((k, v), unpersist) := input[i];
    assert input == input[..i] + [input[i]] + input[i + 1..];
    var s0 := ApplyAll(s, input[..i]);
    ApplyAllAppend(s, input[..i] + [input[i]], input[i + 1..]);
    ApplyAllAppend(s, input[..i], [input[i]]);
    assert ApplyAll(s0, [input[i]]) == Apply(s0, input[i]);
    var s1 := Apply(s0, input[i]);
    ApplyAllUntouched(s1, input[i + 1..], k);
    var r := ApplyAll(s1, input[i + 1..]);
    forall w ensures (k, w) in Output(r) ==> HasKey(r, k) {
      OutputHolds(r, k, w);
    }
    if !unpersist && r.Sets? {
      OutputHolds(r, k, v);
    }
  }

  /** Invocations in later ticks replay what earlier ones stored: feeding the same stream in two
      invocations or in one leaves the same store behind. */
  lemma InvokeTwice<K(!new), V(!new)>(st: State<K, V>, t1: nat, t2: nat, a: seq<((K, V), bool)>, b: seq<((K, V), bool)>)
    requires ValidStore(st.store)
    ensures Invoke(Invoke(st, t1, a).state, t2, b).state.store == Invoke(st, t2, a + b).state.store
  {
    ApplyAllAppend(st.store, a, b);
  }
}
