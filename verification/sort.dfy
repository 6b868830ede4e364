/** The `sort` operator: with `'tick` it emits this tick's input in ascending order; with
    `'static` it keeps every item it has ever received and emits all of them, in order, each
    tick. Items are modelled as integers under their usual order. */
module Sort {
  import opened Wrappers
  import opened Lifetimes

  predicate Sorted(s: seq<int>)
  {
    forall i, j :: 0 <= i < j < |s| ==> s[i] <= s[j]
  }

  /** The lifetime argument: none means `'tick`, one is taken as given, and more than one is
      reported and treated as `'static`. The second component is the diagnostic, if any. */
  function ParseLifetime(opName: string, args: seq<Persistence>): (r: (Persistence, Option<string>))
    ensures r.1.None? <==> |args| <= 1
    ensures |args| == 1 ==> r.0 == args[0]
    ensures args == [] ==> r.0 == Tick
    ensures |args| > 1 ==> (r.0 == Static
      && r.1.value == "Operator `" + opName + "` expects zero or one persistence lifetime generic arguments")
  {
    if args == [] then (Tick, None)
    else if |args| == 1 then (args[0], None)
    else (Static, Some("Operator `" + opName + "` expects zero or one persistence lifetime generic arguments"))
  }

  /** `x` put into its place in a sorted sequence. */
  function InsertSorted(x: int, s: seq<int>): (r: seq<int>)
    requires Sorted(s)
    ensures Sorted(r) && multiset(r) == multiset(s) + multiset{x}
    decreases |s|
  {
    if s == [] || x <= s[0] then
      SortedCons(x, s);
      [x] + s
    else
      assert s == [s[0]] + s[1..];
      var rest := InsertSorted(x, s[1..]);
      SortedCons(s[0], rest);
      [s[0]] + rest
  }

  /** A sorted sequence stays sorted behind an element no larger than its head. */
  lemma SortedCons(h: int, t: seq<int>)
    requires Sorted(t) && (t != [] ==> h <= t[0])
    ensures Sorted([h] + t)
  {
  }

  /** `sort_unstable`: an ascending permutation of the input. */
  function SortSeq(s: seq<int>): (r: seq<int>)
    ensures Sorted(r) && multiset(r) == multiset(s)
    decreases |s|
  {
    if s == [] then []
    else
      assert s == [s[0]] + s[1..];
      InsertSorted(s[0], SortSeq(s[1..]))
  }

  /** A sorted sequence starts with its least element. */
  lemma HeadIsLeast(s: seq<int>, x: int)
    requires Sorted(s) && x in s
    ensures s[0] <= x
  {
  }

  /** There is only one ascending arrangement of a multiset of integers, so an unstable sort
      still has a single possible outcome. */
  lemma {:induction false} SortedUnique(a: seq<int>, b: seq<int>)
    requires Sorted(a) && Sorted(b) && multiset(a) == multiset(b)
    ensures a == b
    decreases |a|
  {
    assert |a| == |multiset(a)| == |multiset(b)| == |b|;
    if a != [] {
      SortedSameHead(a, b);
      SortedUnique(a[1..], b[1..]);
      assert a == [a[0]] + a[1..];
      assert b == [b[0]] + b[1..];
    }
  }

  /** Two ascending arrangements of one multiset start alike, and what follows is again two
      ascending arrangements of one multiset. */
  lemma SortedSameHead(a: seq<int>, b: seq<int>)
    requires Sorted(a) && Sorted(b) && multiset(a) == multiset(b) && a != []
    ensures b != [] && a[0] == b[0]
    ensures Sorted(a[1..]) && Sorted(b[1..]) && multiset(a[1..]) == multiset(b[1..])
  {
    assert a[0] in multiset(a);
    assert a[0] in b;
    assert b[0] in multiset(b);
    assert b[0] in a;
    HeadIsLeast(b, a[0]);
    HeadIsLeast(a, b[0]);
    SortedTail(a);
    SortedTail(b);
    MultisetTail(a);
    MultisetTail(b);
  }

  lemma SortedTail(s: seq<int>)
    requires Sorted(s) && s != []
    ensures Sorted(s[1..])
  {
  }

  lemma MultisetTail(s: seq<int>)
    requires s != []
    ensures multiset(s[1..]) == multiset(s) - multiset{s[0]}
  {
    assert s == [s[0]] + s[1..];
  }

  /** The `'static` state: the stored vector, kept sorted. */
  datatype SortState = SortState(stored: seq<int>)

  /** One invocation of the operator in a tick: the new state and the items emitted. */
  datatype Emission = Emission(state: SortState, output: seq<int>)

  /** One invocation. `'tick` sorts the input and keeps nothing; `'static` extends the stored
      vector by the input, sorts it, and emits a copy of all of it. The code has no arm for
      `'mutable`. */
  function Invoke(persistence: Persistence, st: SortState, input: seq<int>): (r: Emission)
    requires persistence != Mutable
    ensures Sorted(r.output)
    ensures persistence == Tick ==> r.state == st && multiset(r.output) == multiset(input)
    ensures persistence == Static ==> (r.output == r.state.stored
      && multiset(r.output) == multiset(st.stored) + multiset(input))
  {
    match persistence
    case Tick => Emission(st, SortSeq(input))
    case Static =>
      var v := SortSeq(st.stored + input);
      Emission(SortState(v), v)
  }

  /** The operator's state starts empty. */
  function Init(): (st: SortState)
  {
    SortState([])
  }

  /** With `'static`, every tick emits every item received so far, in order: after feeding `a`
      and then `b`, the output is the same as feeding both at once. */
  lemma StaticAccumulates(a: seq<int>, b: seq<int>)
    ensures Invoke(Static, Invoke(Static, Init(), a).state, b).output == SortSeq(a + b)
  {
    var o1 := Invoke(Static, Init(), a);
    var o2 := Invoke(Static, o1.state, b);
    assert Init().stored + a == a;
    SortedUnique(o2.output, SortSeq(a + b));
  }

  /** An ascending run written out element by element is sorted. */
  lemma {:induction false} SortedRun(s: seq<int>)
    requires forall i :: 0 <= i < |s| - 1 ==> s[i] <= s[i + 1]
    ensures Sorted(s)
    decreases |s|
  {
    if s != [] {
      SortedRun(s[1..]);
      SortedCons(s[0], s[1..]);
      assert [s[0]] + s[1..] == s;
    }
  }

  lemma SortedFive(a: int, b: int, c: int, d: int, e: int)
    requires a <= b <= c <= d <= e
    ensures Sorted([a, b, c, d, e])
  {
    SortedRun([a, b, c, d, e]);
  }

  /** An invocation's output is pinned down by what it must be: the one ascending arrangement of
      the items it has to emit. */
  lemma StaticOutputIs(st: SortState, input: seq<int>, expected: seq<int>)
    requires Sorted(expected) && multiset(expected) == multiset(st.stored) + multiset(input)
    ensures Invoke(Static, st, input).output == expected
    ensures Invoke(Static, st, input).state.stored == expected
  {
    SortedUnique(Invoke(Static, st, input).output, expected);
  }

  lemma TickOutputIs(st: SortState, input: seq<int>, expected: seq<int>)
    requires Sorted(expected) && multiset(expected) == multiset(input)
    ensures Invoke(Tick, st, input).output == expected
  {
    SortedUnique(Invoke(Tick, st, input).output, expected);
  }

  /** The behaviour documented for `'static`: 6, 3, 4 give 3, 4, 6; then 1 and 7 added give
      1, 3, 4, 6, 7. */
  lemma StaticExample(first: seq<int>, second: seq<int>)
    requires first == [6, 3, 4] && second == [1, 7]
    ensures Invoke(Static, Init(), first).output == [3, 4, 6]
    ensures Invoke(Static, Invoke(Static, Init(), first).state, second).output == [1, 3, 4, 6, 7]
  {
    StaticFirstTick(first);
    StaticSecondTick(Invoke(Static, Init(), first).state, second);
  }

  lemma StaticFirstTick(first: seq<int>)
    requires first == [6, 3, 4]
    ensures Invoke(Static, Init(), first).state.stored == [3, 4, 6]
  {
    var sorted := [3, 4, 6];
    SortedRun(sorted);
    assert multiset(sorted) == multiset(Init().stored) + multiset(first);
    StaticOutputIs(Init(), first, sorted);
  }

  lemma StaticSecondTick(st: SortState, second: seq<int>)
    requires st.stored == [3, 4, 6] && second == [1, 7]
    ensures Invoke(Static, st, second).output == [1, 3, 4, 6, 7]
  {
    var sorted := [1, 3, 4, 6, 7];
    SortedFive(1, 3, 4, 6, 7);
    assert multiset(sorted) == multiset(st.stored) + multiset(second);
    StaticOutputIs(st, second, sorted);
  }

  /** The behaviour documented for `'tick`, the default: 2, 3, 1 give 1, 2, 3. */
  lemma TickExample(input: seq<int>)
    requires input == [2, 3, 1]
    ensures Invoke(ParseLifetime("sort", []).0, Init(), input).output == [1, 2, 3]
  {
    var sorted := [1, 2, 3];
    SortedRun(sorted);
    assert multiset(sorted) == multiset(input);
    TickOutputIs(Init(), input, sorted);
  }
}
