/** The semiring law test of the lattices crate: a type offers addition, multiplication and two
    recognisers for its identities, and `test_properties` runs through every law over every
    tuple drawn from a list of sample items, panicking at the first law that fails. The two
    instances it is run on are the natural numbers and the booleans. */
module Semirings {
  import opened Wrappers
  import Algebra

  /** What a type provides: `add`, `multiply`, `is_additive_identity` and
      `is_multiplicative_identity`. */
  datatype Ops<!S> = Ops(add: (S, S) -> S, mul: (S, S) -> S, isZero: S -> bool, isOne: S -> bool)

  /** The test's groups of checks, in the order it makes them. Within a group the laws are checked
      tuple by tuple, in an order the model does not fix, so a failure names the group. */
  datatype Check =
    | AddCommutes
    | Associativity
    | FindAdditiveIdentity
    | FindMultiplicativeIdentity
    | Identities
    | Distributes
    | Absorbs

  /** How the test ends: it passes, or panics in one of its checks. */
  datatype Verdict = Pass | Panic(check: Check)

  /** `items.iter().find(p)`, as the index of the first item `p` accepts. */
  function FindIndex<S>(items: seq<S>, p: S -> bool): (r: Option<nat>)
    ensures r.None? <==> forall i :: 0 <= i < |items| ==> !p(items[i])
    ensures r.Some? ==> r.value < |items| && p(items[r.value])
    ensures r.Some? ==> forall j :: 0 <= j < r.value ==> !p(items[j])
    decreases |items|
  {
    if items == [] then None
    else if p(items[0]) then Some(0)
    else match FindIndex(items[1..], p)
      case None => None
      case Some(i) => Some(i + 1)
  }

  // The laws, over the sample items.

  predicate CommutesOn<S(==)>(f: (S, S) -> S, items: seq<S>)
  {
    forall a, b | a in items && b in items :: f(a, b) == f(b, a)
  }

  predicate AssociatesOn<S(==)>(f: (S, S) -> S, items: seq<S>)
  {
    forall a, b, c | a in items && b in items && c in items :: f(f(a, b), c) == f(a, f(b, c))
  }

  /** Only `a + 0 = a` is checked for the additive identity. */
  predicate RightIdentityOn<S(==)>(f: (S, S) -> S, e: S, items: seq<S>)
  {
    forall a | a in items :: f(a, e) == a
  }

  predicate IdentityOn<S(==)>(f: (S, S) -> S, e: S, items: seq<S>)
  {
    forall a | a in items :: f(a, e) == a && f(e, a) == a
  }

  /** c(a + b) = ca + cb and (a + b)c = ac + bc. */
  predicate DistributesOn<S(==)>(o: Ops<S>, items: seq<S>)
  {
    forall a, b, c | a in items && b in items && c in items ::
      o.mul(c, o.add(a, b)) == o.add(o.mul(c, a), o.mul(c, b))
      && o.mul(o.add(a, b), c) == o.add(o.mul(a, c), o.mul(b, c))
  }

  predicate AbsorbsOn<S(==)>(f: (S, S) -> S, z: S, items: seq<S>)
  {
    forall a | a in items :: f(a, z) == z && f(z, a) == z
  }

  /** Every law the test checks holds on `items`, with `zero` and `one` as the identities. */
  predicate LawsOn<S(==)>(o: Ops<S>, items: seq<S>, zero: S, one: S)
  {
    && CommutesOn(o.add, items)
    && AssociatesOn(o.add, items)
    && AssociatesOn(o.mul, items)
    && RightIdentityOn(o.add, zero, items)
    && IdentityOn(o.mul, one, items)
    && DistributesOn(o, items)
    && AbsorbsOn(o.mul, zero, items)
  }

  /** `test_properties(items)`: the checks in order; the identities are the first items the
      recognisers accept, and a missing one panics before any identity law is checked. */
  function TestProperties<S(==)>(o: Ops<S>, items: seq<S>): (r: Verdict)
    ensures r == Pass ==> exists i, j ::
      && 0 <= i < |items| && 0 <= j < |items|
      && o.isZero(items[i]) && o.isOne(items[j])
      && LawsOn(o, items, items[i], items[j])
    ensures r == Panic(FindAdditiveIdentity) <==> (
      && CommutesOn(o.add, items) && AssociatesOn(o.add, items) && AssociatesOn(o.mul, items)
      && forall i :: 0 <= i < |items| ==> !o.isZero(items[i]))
    ensures r == Panic(AddCommutes) <==> !CommutesOn(o.add, items)
    ensures r == Panic(Associativity) <==>
              CommutesOn(o.add, items) && !(AssociatesOn(o.add, items) && AssociatesOn(o.mul, items))
    ensures r == Panic(FindMultiplicativeIdentity) ==> forall j :: 0 <= j < |items| ==> !o.isOne(items[j])
    ensures r == Panic(Identities) ==> exists i, j ::
      && 0 <= i < |items| && 0 <= j < |items| && o.isZero(items[i]) && o.isOne(items[j])
      && !(RightIdentityOn(o.add, items[i], items) && IdentityOn(o.mul, items[j], items))
    ensures r == Panic(Distributes) ==> !DistributesOn(o, items)
    ensures r == Panic(Absorbs) ==> exists i ::
      0 <= i < |items| && o.isZero(items[i]) && !AbsorbsOn(o.mul, items[i], items)
  {
    if !CommutesOn(o.add, items) then Panic(AddCommutes)
    else if !(AssociatesOn(o.add, items) && AssociatesOn(o.mul, items)) then Panic(Associativity)
    else match FindIndex(items, o.isZero)
      case None => Panic(FindAdditiveIdentity)
      case Some(i) =>
        match FindIndex(items, o.isOne)
        case None => Panic(FindMultiplicativeIdentity)
        case Some(j) =>
          var zero, one := items[i], items[j];
          if !(RightIdentityOn(o.add, zero, items) && IdentityOn(o.mul, one, items)) then Panic(Identities)
          else if !DistributesOn(o, items) then Panic(Distributes)
          else if !AbsorbsOn(o.mul, zero, items) then Panic(Absorbs)
          else Pass
  }

  /** The converse of the test's verdict: if every law holds on the items, with the first
      items the recognisers accept as the identities, the test passes. */
  lemma LawsPass<S>(o: Ops<S>, items: seq<S>, zero: S, one: S)
    requires exists i :: FindIndex(items, o.isZero) == Some(i) && items[i] == zero
    requires exists j :: FindIndex(items, o.isOne) == Some(j) && items[j] == one
    requires LawsOn(o, items, zero, one)
    ensures TestProperties(o, items) == Pass
  {
  }

  /** A genuine semiring passes the test on every list in which the recognisers find its zero and
      its one. */
  lemma SemiringPasses<S(!new)>(o: Ops<S>, items: seq<S>, zero: S, one: S)
    requires Algebra.Semiring(Algebra.Same<S>, o.add, o.mul, zero, one)
    requires exists i :: FindIndex(items, o.isZero) == Some(i) && items[i] == zero
    requires exists j :: FindIndex(items, o.isOne) == Some(j) && items[j] == one
    ensures TestProperties(o, items) == Pass
  {
    LawsFromSemiring(o, items, zero, one);
  }

  /** A genuine semiring satisfies every law the test checks, on every item list. */
  lemma LawsFromSemiring<S(!new)>(o: Ops<S>, items: seq<S>, zero: S, one: S)
    requires Algebra.Semiring(Algebra.Same<S>, o.add, o.mul, zero, one)
    ensures LawsOn(o, items, zero, one)
  {
    forall a, b, c | a in items && b in items && c in items
      ensures o.add(o.add(a, b), c) == o.add(a, o.add(b, c))
      ensures o.mul(o.mul(a, b), c) == o.mul(a, o.mul(b, c))
      ensures o.mul(c, o.add(a, b)) == o.add(o.mul(c, a), o.mul(c, b))
      ensures o.mul(o.add(a, b), c) == o.add(o.mul(a, c), o.mul(b, c))
    {
      assert Algebra.Same(o.add(a, o.add(b, c)), o.add(o.add(a, b), c));
      assert Algebra.Same(o.mul(a, o.mul(b, c)), o.mul(o.mul(a, b), c));
      assert Algebra.Same(o.mul(c, o.add(a, b)), o.add(o.mul(c, a), o.mul(c, b)));
      assert Algebra.Same(o.mul(o.add(a, b), c), o.add(o.mul(a, c), o.mul(b, c)));
    }
    forall a, b | a in items && b in items ensures o.add(a, b) == o.add(b, a) {
      assert Algebra.Same(o.add(a, b), o.add(b, a));
    }
    forall a | a in items
      ensures o.add(a, zero) == a && o.mul(a, one) == a && o.mul(one, a) == a
      ensures o.mul(a, zero) == zero && o.mul(zero, a) == zero
    {
      assert Algebra.Same(o.add(a, zero), a);
      assert Algebra.Same(o.mul(a, one), a) && Algebra.Same(o.mul(one, a), a);
      assert Algebra.Same(o.mul(a, zero), zero) && Algebra.Same(o.mul(zero, a), zero);
    }
  }

  // ---------------------------------------------------------------------------------------------
  // `NaturalNumber`: `usize` under `+` and `*`

  datatype NaturalNumber = NaturalNumber(n: nat)

  function NatAdd(a: NaturalNumber, b: NaturalNumber): NaturalNumber
  {
    NaturalNumber(a.n + b.n)
  }

  function NatMul(a: NaturalNumber, b: NaturalNumber): NaturalNumber
  {
    NaturalNumber(a.n * b.n)
  }

  function NatIsZero(a: NaturalNumber): bool
  {
    a.n == 0
  }

  function NatIsOne(a: NaturalNumber): bool
  {
    a.n == 1
  }

  function Naturals(): (o: Ops<NaturalNumber>)
    ensures forall x :: o.isZero(x) <==> x == NaturalNumber(0)
    ensures forall x :: o.isOne(x) <==> x == NaturalNumber(1)
  {
    Ops(NatAdd, NatMul, NatIsZero, NatIsOne)
  }

  lemma MulLaws(x: nat, y: nat, z: nat)
    ensures x * (y * z) == (x * y) * z
    ensures x * (y + z) == x * y + x * z
    ensures (y + z) * x == y * x + z * x
  {
  }

  /** The natural numbers form a semiring under `+` and `*` with zero 0 and one 1. */
  lemma NaturalNumberSemiring()
    ensures Algebra.Semiring(Algebra.Same<NaturalNumber>, NatAdd, NatMul, NaturalNumber(0), NaturalNumber(1))
  {
    NatAddCommutativeMonoid();
    NatMulMonoid();
    NatDistributive();
  }

  lemma NatAddCommutativeMonoid()
    ensures Algebra.CommutativeMonoid(Algebra.Same<NaturalNumber>, NatAdd, NaturalNumber(0))
  {
  }

  lemma NatMulMonoid()
    ensures Algebra.Monoid(Algebra.Same<NaturalNumber>, NatMul, NaturalNumber(1))
    ensures Algebra.AbsorbingElement(Algebra.Same<NaturalNumber>, NatMul, NaturalNumber(0))
  {
    NatMulAssociates();
    NatMulUnits();
  }

  lemma NatMulAssociates()
    ensures Algebra.Associativity(Algebra.Same<NaturalNumber>, NatMul)
  {
    forall a: NaturalNumber, b: NaturalNumber, c: NaturalNumber
      ensures NatMul(a, NatMul(b, c)) == NatMul(NatMul(a, b), c)
    {
      MulLaws(a.n, b.n, c.n);
    }
  }

  lemma NatMulUnits()
    ensures Algebra.Identity(Algebra.Same<NaturalNumber>, NatMul, NaturalNumber(1))
    ensures Algebra.AbsorbingElement(Algebra.Same<NaturalNumber>, NatMul, NaturalNumber(0))
  {
    forall a: NaturalNumber
      ensures NatMul(a, NaturalNumber(1)) == a && NatMul(NaturalNumber(1), a) == a
      ensures NatMul(a, NaturalNumber(0)) == NaturalNumber(0) && NatMul(NaturalNumber(0), a) == NaturalNumber(0)
    {
    }
  }

  lemma NatDistributive()
    ensures Algebra.Distributive(Algebra.Same<NaturalNumber>, NatAdd, NatMul)
  {
    forall a: NaturalNumber, b: NaturalNumber, c: NaturalNumber
      ensures NatMul(a, NatAdd(b, c)) == NatAdd(NatMul(a, b), NatMul(a, c))
      ensures NatMul(NatAdd(b, c), a) == NatAdd(NatMul(b, a), NatMul(c, a))
    {
      MulLaws(a.n, b.n, c.n);
    }
  }

  /** On every list holding 0 and 1, the test passes. */
  lemma NaturalNumberPasses(items: seq<NaturalNumber>)
    requires NaturalNumber(0) in items && NaturalNumber(1) in items
    ensures TestProperties(Naturals(), items) == Pass
  {
    NaturalNumberIdentitiesFound(items);
    NaturalNumberSemiring();
    SemiringPasses(Naturals(), items, NaturalNumber(0), NaturalNumber(1));
  }

  /** The recognisers pick out 0 and 1 from any list holding them. */
  lemma NaturalNumberIdentitiesFound(items: seq<NaturalNumber>)
    requires NaturalNumber(0) in items && NaturalNumber(1) in items
    ensures exists i :: FindIndex(items, Naturals().isZero) == Some(i) && items[i] == NaturalNumber(0)
    ensures exists j :: FindIndex(items, Naturals().isOne) == Some(j) && items[j] == NaturalNumber(1)
  {
    var zero := FindIndex(items, NatIsZero);
    var one := FindIndex(items, NatIsOne);
    assert zero.Some? && items[zero.value] == NaturalNumber(0);
    assert one.Some? && items[one.value] == NaturalNumber(1);
  }

  /** The test's run on 0, 1, 2, 3, 4 passes. */
  lemma NaturalNumberTestPasses(items: seq<NaturalNumber>)
    requires items == [NaturalNumber(0), NaturalNumber(1), NaturalNumber(2), NaturalNumber(3), NaturalNumber(4)]
    ensures TestProperties(Naturals(), items) == Pass
  {
    assert items[0] == NaturalNumber(0) && items[1] == NaturalNumber(1);
    NaturalNumberPasses(items);
  }

  // ---------------------------------------------------------------------------------------------
  // `Booleans`: `bool` under `||` and `&&`

  datatype Booleans = Booleans(b: bool)

  function BoolAdd(x: Booleans, y: Booleans): Booleans
  {
    Booleans(x.b || y.b)
  }

  function BoolMul(x: Booleans, y: Booleans): Booleans
  {
    Booleans(x.b && y.b)
  }

  function BoolIsZero(x: Booleans): bool
  {
    x.b == false
  }

  function BoolIsOne(x: Booleans): bool
  {
    x.b == true
  }

  function BooleanOps(): (o: Ops<Booleans>)
    ensures forall x :: o.isZero(x) <==> x == Booleans(false)
    ensures forall x :: o.isOne(x) <==> x == Booleans(true)
  {
    Ops(BoolAdd, BoolMul, BoolIsZero, BoolIsOne)
  }

  /** The booleans form a semiring under `||` and `&&` with zero `false` and one `true`. */
  lemma BooleansSemiring()
    ensures Algebra.Semiring(Algebra.Same<Booleans>, BoolAdd, BoolMul, Booleans(false), Booleans(true))
  {
    assert Algebra.Associativity(Algebra.Same<Booleans>, BoolAdd);
    assert Algebra.Associativity(Algebra.Same<Booleans>, BoolMul);
    assert Algebra.LeftDistributes(Algebra.Same<Booleans>, BoolAdd, BoolMul);
    assert Algebra.RightDistributes(Algebra.Same<Booleans>, BoolAdd, BoolMul);
  }

  /** On every list holding `false` and `true`, the test passes. */
  lemma BooleansPass(items: seq<Booleans>)
    requires Booleans(false) in items && Booleans(true) in items
    ensures TestProperties(BooleanOps(), items) == Pass
  {
    BooleansIdentitiesFound(items);
    BooleansSemiring();
    SemiringPasses(BooleanOps(), items, Booleans(false), Booleans(true));
  }

  /** The recognisers pick out `false` and `true` from any list holding them. */
  lemma BooleansIdentitiesFound(items: seq<Booleans>)
    requires Booleans(false) in items && Booleans(true) in items
    ensures exists i :: FindIndex(items, BooleanOps().isZero) == Some(i) && items[i] == Booleans(false)
    ensures exists j :: FindIndex(items, BooleanOps().isOne) == Some(j) && items[j] == Booleans(true)
  {
    var zero := FindIndex(items, BoolIsZero);
    var one := FindIndex(items, BoolIsOne);
    assert zero.Some? && items[zero.value] == Booleans(false);
    assert one.Some? && items[one.value] == Booleans(true);
  }

  /** The boolean laws hold on every list, whatever it holds. */
  lemma BooleansLawsOn(items: seq<Booleans>)
    ensures LawsOn(BooleanOps(), items, Booleans(false), Booleans(true))
  {
    BooleansSemiring();
    LawsFromSemiring(BooleanOps(), items, Booleans(false), Booleans(true));
  }

  /** The test's run on `false`, `true` passes. */
  lemma BooleansTestPasses(items: seq<Booleans>)
    requires items == [Booleans(false), Booleans(true)]
    ensures TestProperties(BooleanOps(), items) == Pass
  {
    assert items[0] == Booleans(false) && items[1] == Booleans(true);
    BooleansPass(items);
  }

  /** Without its zero in the list, the test panics looking for the additive identity. */
  lemma BooleansWithoutZeroPanics(items: seq<Booleans>)
    requires items == [Booleans(true)]
    ensures TestProperties(BooleanOps(), items) == Panic(FindAdditiveIdentity)
  {
    var o := BooleanOps();
    BooleansLawsOn(items);
    assert CommutesOn(o.add, items) && AssociatesOn(o.add, items) && AssociatesOn(o.mul, items);
    assert FindIndex(items, o.isZero) == None;
  }
}
