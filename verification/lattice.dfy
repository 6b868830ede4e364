/** The `Merge` trait of the lattices crate, `merge_owned`, the merge-based comparison
    `naive_cmp`, and the one-element `Unit` lattice. A lattice type is modelled by its merge
    function, which returns the new value of `self` and whether it changed. */
module Lattices {
  import opened Wrappers

  /** `merge(&mut self, other) -> bool`: the new `self`, and the returned flag. */
  type MergeFn<!S> = (S, S) -> (S, bool)

  /** The join the merge computes. */
  function Join<S>(merge: MergeFn<S>, a: S, b: S): S
  {
    merge(a, b).0
  }

  /** The contract every `merge` implementation must keep: the join is associative,
      commutative and idempotent, and the flag is true exactly when `self` changed. */
  ghost predicate MergeContract<S(!new)>(merge: MergeFn<S>)
  {
    && (forall a, b, c :: Join(merge, Join(merge, a, b), c) == Join(merge, a, Join(merge, b, c)))
    && (forall a, b :: Join(merge, a, b) == Join(merge, b, a))
    && (forall a :: Join(merge, a, a) == a)
    && (forall a, b :: merge(a, b).1 <==> merge(a, b).0 != a)
  }

  /** `merge_owned(this, delta)`: `this` (here `current`) after merging `delta` into it; it is
      unchanged exactly when the merge reports no change. */
  function MergeOwned<S(==,!new)>(merge: MergeFn<S>, current: S, delta: S): (r: S)
    ensures MergeContract(merge) ==> Join(merge, current, r) == r && Join(merge, delta, r) == r
    ensures MergeContract(merge) ==> (r == current <==> !merge(current, delta).1)
  {
    JoinIsUpperBound(merge, current, delta);
    merge(current, delta).0
  }

  /** Under the merge contract the join lies above both of its arguments: merging either of them
      into it changes nothing. */
  lemma JoinIsUpperBound<S(!new)>(merge: MergeFn<S>, a: S, b: S)
    ensures MergeContract(merge) ==> Join(merge, a, Join(merge, a, b)) == Join(merge, a, b)
    ensures MergeContract(merge) ==> Join(merge, b, Join(merge, a, b)) == Join(merge, a, b)
  {
    if MergeContract(merge) {
      assert Join(merge, a, Join(merge, a, b)) == Join(merge, Join(merge, a, a), b);
      assert Join(merge, b, Join(merge, b, a)) == Join(merge, Join(merge, b, b), a);
      assert Join(merge, a, b) == Join(merge, b, a);
    }
  }

  /** `std::cmp::Ordering`. */
  datatype Ordering = Less | Equal | Greater

  /** `naive_cmp(self, other)`: merge each into a copy of the other and read the two flags. */
  function NaiveCmp<S>(merge: MergeFn<S>, a: S, b: S): (r: Option<Ordering>)
  {
    match (merge(a, b).1, merge(b, a).1)
    case (true, true) => None
    case (true, false) => Some(Less)
    case (false, true) => Some(Greater)
    case (false, false) => Some(Equal)
  }

  /** Comparing the other way round swaps `Less` and `Greater`. */
  lemma NaiveCmpFlip<S>(merge: MergeFn<S>, a: S, b: S)
    ensures NaiveCmp(merge, b, a) == match NaiveCmp(merge, a, b)
                                     case Some(Less) => Some(Greater)
                                     case Some(Greater) => Some(Less)
                                     case other => other
  {
  }

  /** Under the merge contract the comparison is the lattice order: `Equal` exactly for equal
      values (so `naive_cmp(a, a)` is `Equal`), `Less` exactly when `a` lies strictly below `b`
      (their join is `b`), and `None` exactly when the two are incomparable. */
  lemma NaiveCmpIsOrder<S(!new)>(merge: MergeFn<S>, a: S, b: S)
    requires MergeContract(merge)
    ensures NaiveCmp(merge, a, b) == Some(Equal) <==> a == b
    ensures NaiveCmp(merge, a, b) == Some(Less) <==> a != b && Join(merge, a, b) == b
    ensures NaiveCmp(merge, a, b) == None <==> Join(merge, a, b) != a && Join(merge, a, b) != b
  {
    assert Join(merge, a, b) == Join(merge, b, a);
    if a == b {
      assert Join(merge, a, a) == a;
    }
  }

  /** The `Unit` lattice, which holds no state. */
  datatype Unit = Unit

  /** `Unit::merge`: nothing to merge, never a change. */
  function UnitMerge(current: Unit, other: Unit): (r: (Unit, bool))
  {
    (current, false)
  }

  /** `Unit`'s merge keeps the contract. */
  lemma UnitIsLattice()
    ensures MergeContract(UnitMerge)
  {
  }

  /** `lattice_from`: a `Unit` converts to itself. */
  function UnitLatticeFrom(other: Unit): (r: Unit)
  {
    other
  }

  /** `is_bot` and `is_top` are always true. */
  function UnitIsBot(u: Unit): (r: bool)
  {
    true
  }

  function UnitIsTop(u: Unit): (r: bool)
  {
    true
  }

  /** `is_bot` reports bottom and `is_top` reports top in the lattice order: a value is bottom
      when joining it into any value leaves that value alone, and top when joining any value into
      it leaves it alone. The single `Unit` value is both, and compares `Equal` to every value. */
  lemma UnitBotAndTop(u: Unit)
    ensures UnitIsBot(u) <==> forall v :: Join(UnitMerge, v, u) == v
    ensures UnitIsTop(u) <==> forall v :: Join(UnitMerge, u, v) == u
    ensures forall v :: NaiveCmp(UnitMerge, u, v) == Some(Equal)
  {
  }

  /** `lattice_from` converts between representations of the same lattice: it keeps the order
      and commutes with the join. */
  lemma UnitLatticeFromKeepsOrder(a: Unit, b: Unit)
    ensures NaiveCmp(UnitMerge, UnitLatticeFrom(a), UnitLatticeFrom(b)) == NaiveCmp(UnitMerge, a, b)
    ensures UnitLatticeFrom(Join(UnitMerge, a, b)) == Join(UnitMerge, UnitLatticeFrom(a), UnitLatticeFrom(b))
  {
  }
}
