/** The algebraic-law checkers of the lattices crate's `algebra` tests, stated over all values
    instead of a finite sample, and the instances the tests check: `u32` under `max`, `u32` under
    wrapping addition and multiplication, booleans under `|` and `&`, and sets of strings under
    union and pairwise concatenation. Every checker compares with the type's own equality,
    passed in as `eq`. */
module Algebra {

  // ---------------------------------------------------------------------------------------------
  // The checkers

  /** `associativity`: a(bc) = (ab)c. */
  ghost predicate Associativity<S(!new)>(eq: (S, S) -> bool, f: (S, S) -> S)
  {
    forall a, b, c :: eq(f(a, f(b, c)), f(f(a, b), c))
  }

  /** `commutativity`: xy = yx. */
  ghost predicate Commutativity<S(!new)>(eq: (S, S) -> bool, f: (S, S) -> S)
  {
    forall x, y :: eq(f(x, y), f(y, x))
  }

  /** `idempotency`: xx = x. */
  ghost predicate Idempotency<S(!new)>(eq: (S, S) -> bool, f: (S, S) -> S)
  {
    forall x :: eq(f(x, x), x)
  }

  /** `identity`: ea = a and ae = a. */
  ghost predicate Identity<S(!new)>(eq: (S, S) -> bool, f: (S, S) -> S, e: S)
  {
    forall a :: eq(f(e, a), a) && eq(f(a, e), a)
  }

  /** `inverse`: a b(a) = e and b(a) a = e. */
  ghost predicate Inverse<S(!new)>(eq: (S, S) -> bool, f: (S, S) -> S, e: S, b: S -> S)
  {
    forall a :: eq(f(a, b(a)), e) && eq(f(b(a), a), e)
  }

  /** `nonzero_inverse`: the inverse law for every `a` other than `zero`. */
  ghost predicate NonzeroInverse<S(!new)>(eq: (S, S) -> bool, f: (S, S) -> S, e: S, zero: S, b: S -> S)
  {
    forall a :: !eq(a, zero) ==> eq(f(a, b(a)), e) && eq(f(b(a), a), e)
  }

  /** `absorbing_element`: az = z and za = z. */
  ghost predicate AbsorbingElement<S(!new)>(eq: (S, S) -> bool, f: (S, S) -> S, z: S)
  {
    forall a :: eq(f(a, z), z) && eq(f(z, a), z)
  }

  /** `left_distributes`: a(b + c) = ab + ac, with `f` the sum and `g` the product. */
  ghost predicate LeftDistributes<S(!new)>(eq: (S, S) -> bool, f: (S, S) -> S, g: (S, S) -> S)
  {
    forall a, b, c :: eq(g(a, f(b, c)), f(g(a, b), g(a, c)))
  }

  /** `right_distributes`: (b + c)a = ba + ca. */
  ghost predicate RightDistributes<S(!new)>(eq: (S, S) -> bool, f: (S, S) -> S, g: (S, S) -> S)
  {
    forall a, b, c :: eq(g(f(b, c), a), f(g(b, a), g(c, a)))
  }

  ghost predicate Distributive<S(!new)>(eq: (S, S) -> bool, f: (S, S) -> S, g: (S, S) -> S)
  {
    LeftDistributes(eq, f, g) && RightDistributes(eq, f, g)
  }

  ghost predicate Semigroup<S(!new)>(eq: (S, S) -> bool, f: (S, S) -> S)
  {
    Associativity(eq, f)
  }

  ghost predicate Monoid<S(!new)>(eq: (S, S) -> bool, f: (S, S) -> S, e: S)
  {
    Semigroup(eq, f) && Identity(eq, f, e)
  }

  ghost predicate CommutativeMonoid<S(!new)>(eq: (S, S) -> bool, f: (S, S) -> S, zero: S)
  {
    Monoid(eq, f, zero) && Commutativity(eq, f)
  }

  ghost predicate Group<S(!new)>(eq: (S, S) -> bool, f: (S, S) -> S, e: S, b: S -> S)
  {
    Monoid(eq, f, e) && Inverse(eq, f, e, b)
  }

  ghost predicate AbelianGroup<S(!new)>(eq: (S, S) -> bool, f: (S, S) -> S, zero: S, b: S -> S)
  {
    Group(eq, f, zero, b) && Commutativity(eq, f)
  }

  /** `semiring`: `f` a commutative monoid with `zero`, `g` a monoid with `one`, `zero`
      absorbing for `g`, and `g` distributing over `f`. */
  ghost predicate Semiring<S(!new)>(eq: (S, S) -> bool, f: (S, S) -> S, g: (S, S) -> S, zero: S, one: S)
  {
    && CommutativeMonoid(eq, f, zero)
    && Monoid(eq, g, one)
    && AbsorbingElement(eq, g, zero)
    && Distributive(eq, f, g)
  }

  /** `ring`: a semiring in which `b` gives additive inverses. */
  ghost predicate Ring<S(!new)>(eq: (S, S) -> bool, f: (S, S) -> S, g: (S, S) -> S, zero: S, one: S, b: S -> S)
  {
    Semiring(eq, f, g, zero, one) && Inverse(eq, f, zero, b)
  }

  /** `field` as written: a ring whose nonzero elements must have inverses under the ADDITION
      `f`, reaching the multiplicative identity `one`. */
  ghost predicate FieldAsWritten<S(!new)>(eq: (S, S) -> bool, f: (S, S) -> S, g: (S, S) -> S, zero: S, one: S, b: S -> S)
  {
    Ring(eq, f, g, zero, one, b) && NonzeroInverse(eq, f, one, zero, b)
  }

  /** `field` as evidently intended: a ring whose nonzero elements have inverses `inv` under the
      MULTIPLICATION `g`. */
  ghost predicate Field<S(!new)>(eq: (S, S) -> bool, f: (S, S) -> S, g: (S, S) -> S, zero: S, one: S, b: S -> S, inv: S -> S)
  {
    Ring(eq, f, g, zero, one, b) && NonzeroInverse(eq, g, one, zero, inv)
  }

  /** Plain equality, for the types whose `PartialEq` is structural. */
  function Same<S(==)>(x: S, y: S): bool
  {
    x == y
  }

  // ---------------------------------------------------------------------------------------------
  // `u32`

  const Modulus: int := 0x1_0000_0000

  newtype u32 = x: int | 0 <= x < 0x1_0000_0000

  /** `u32::max`. */
  function Max(a: u32, b: u32): (r: u32)
    ensures r >= a && r >= b && (r == a || r == b)
  {
    if a >= b then a else b
  }

  /** `max` is associative, idempotent and commutative with identity 0: a commutative monoid
      in which every element is idempotent (a join semilattice with bottom 0). */
  lemma MaxLaws()
    ensures Associativity(Same<u32>, Max) && Idempotency(Same<u32>, Max) && Commutativity(Same<u32>, Max)
    ensures Identity(Same<u32>, Max, 0)
  {
  }

  /** `u32::wrapping_add`, `u32::wrapping_mul` and `0u32.wrapping_sub(x)`: the exact result
      reduced modulo 2^32. */
  function WrappingAdd(a: u32, b: u32): (r: u32)
  {
    ((a as int + b as int) % Modulus) as u32
  }

  function WrappingMul(a: u32, b: u32): (r: u32)
  {
    ((a as int * b as int) % Modulus) as u32
  }

  function WrappingNeg(a: u32): (r: u32)
    ensures WrappingAdd(a, r) == 0
    ensures a == 0 <==> r == 0
  {
    ((0 - a as int) % Modulus) as u32
  }

  /** Wrapping addition and multiplication give the one `u32` congruent to the exact result
      modulo 2^32; in particular they agree with the exact result when it fits. */
  lemma WrappingIsCongruent(a: u32, b: u32, r: u32)
    ensures r == WrappingAdd(a, b) <==> (r as int - (a as int + b as int)) % Modulus == 0
    ensures r == WrappingMul(a, b) <==> (r as int - a as int * b as int) % Modulus == 0
    ensures a as int + b as int < Modulus ==> WrappingAdd(a, b) as int == a as int + b as int
  {
    ResidueUnique(r as int, a as int + b as int);
    ResidueUnique(r as int, a as int * b as int);
  }

  /** A number in `[0, 2^32)` is the residue of `s` exactly when it differs from `s` by a multiple
      of 2^32. */
  lemma ResidueUnique(r: int, s: int)
    requires 0 <= r < Modulus
    ensures r == s % Modulus <==> (r - s) % Modulus == 0
  {
    var q, m := s / Modulus, s % Modulus;
    assert s == q * Modulus + m;
    ModShift(-q, r - m);
    assert r - s == (-q) * Modulus + (r - m);
  }

  /** Adding a multiple of the modulus does not change a residue. */
  lemma ModShift(k: int, z: int)
    ensures (k * Modulus + z) % Modulus == z % Modulus
  {
  }

  lemma ModAddLeft(x: int, y: int)
    ensures (x % Modulus + y) % Modulus == (x + y) % Modulus
  {
    ModShift(x / Modulus, x % Modulus + y);
  }

  lemma ModMulLeft(x: int, y: int)
    ensures ((x % Modulus) * y) % Modulus == (x * y) % Modulus
  {
    var q, r := x / Modulus, x % Modulus;
    assert x == q * Modulus + r;
    assert x * y == (q * y) * Modulus + r * y by {
      assert (q * Modulus + r) * y == q * Modulus * y + r * y;
    }
    ModShift(q * y, r * y);
  }

  lemma ModMulRight(x: int, y: int)
    ensures (x * (y % Modulus)) % Modulus == (x * y) % Modulus
  {
    ModMulLeft(y, x);
    assert x * (y % Modulus) == (y % Modulus) * x;
    assert x * y == y * x;
  }

  lemma AddValue(a: u32, b: u32)
    ensures WrappingAdd(a, b) as int == (a as int + b as int) % Modulus
  {
  }

  lemma MulValue(a: u32, b: u32)
    ensures WrappingMul(a, b) as int == (a as int * b as int) % Modulus
  {
  }

  lemma WrappingAddAssoc(a: u32, b: u32, c: u32)
    ensures WrappingAdd(a, WrappingAdd(b, c)) == WrappingAdd(WrappingAdd(a, b), c)
  {
    ModAddLeft(a as int + b as int, c as int);
    ModAddLeft(b as int + c as int, a as int);
  }

  lemma WrappingMulAssoc(a: u32, b: u32, c: u32)
    ensures WrappingMul(a, WrappingMul(b, c)) == WrappingMul(WrappingMul(a, b), c)
  {
    var x, y, z := a as int, b as int, c as int;
    ModMulRight(x, y * z);
    ModMulLeft(x * y, z);
    assert x * (y * z) == (x * y) * z;
  }

  lemma WrappingLeftDistributes(a: u32, b: u32, c: u32)
    ensures WrappingMul(a, WrappingAdd(b, c)) == WrappingAdd(WrappingMul(a, b), WrappingMul(a, c))
  {
    var x, y, z := a as int, b as int, c as int;
    var xy, xz := x * y, x * z;
    assert x * (y + z) == xy + xz;
    AddValue(b, c);
    MulValue(a, WrappingAdd(b, c));
    MulValue(a, b);
    MulValue(a, c);
    AddValue(WrappingMul(a, b), WrappingMul(a, c));
    ModMulRight(x, y + z);
    SumOfResidues(xy, xz);
  }

  lemma WrappingRightDistributes(a: u32, b: u32, c: u32)
    ensures WrappingMul(WrappingAdd(b, c), a) == WrappingAdd(WrappingMul(b, a), WrappingMul(c, a))
  {
    var x, y, z := a as int, b as int, c as int;
    var yx, zx := y * x, z * x;
    assert (y + z) * x == yx + zx;
    AddValue(b, c);
    MulValue(WrappingAdd(b, c), a);
    MulValue(b, a);
    MulValue(c, a);
    AddValue(WrappingMul(b, a), WrappingMul(c, a));
    ModMulLeft(y + z, x);
    SumOfResidues(yx, zx);
  }

  /** The residue of a sum is the residue of the sum of the residues. */
  lemma SumOfResidues(p: int, q: int)
    ensures (p % Modulus + q % Modulus) % Modulus == (p + q) % Modulus
  {
    ModAddLeft(p, q % Modulus);
    ModAddLeft(q, p);
    assert p + q % Modulus == q % Modulus + p;
    assert q + p == p + q;
  }

  /** Wrapping addition and multiplication make `u32` a ring (the integers modulo 2^32), with
      `0.wrapping_sub(x)` as negation and 0 absorbing for multiplication. */
  lemma WrappingRing()
    ensures Inverse(Same<u32>, WrappingAdd, 0, WrappingNeg)
    ensures Distributive(Same<u32>, WrappingAdd, WrappingMul)
    ensures AbsorbingElement(Same<u32>, WrappingMul, 0)
    ensures Ring(Same<u32>, WrappingAdd, WrappingMul, 0, 1, WrappingNeg)
    ensures Semiring(Same<u32>, WrappingAdd, WrappingMul, 0, 1)
  {
    WrappingLaws();
    WrappingUnits();
  }

  /** The three-variable laws: both operations associate, and multiplication distributes. */
  lemma WrappingLaws()
    ensures Associativity(Same<u32>, WrappingAdd) && Associativity(Same<u32>, WrappingMul)
    ensures Distributive(Same<u32>, WrappingAdd, WrappingMul)
  {
    forall a: u32, b: u32, c: u32
      ensures WrappingAdd(a, WrappingAdd(b, c)) == WrappingAdd(WrappingAdd(a, b), c)
      ensures WrappingMul(a, WrappingMul(b, c)) == WrappingMul(WrappingMul(a, b), c)
      ensures WrappingMul(a, WrappingAdd(b, c)) == WrappingAdd(WrappingMul(a, b), WrappingMul(a, c))
      ensures WrappingMul(WrappingAdd(b, c), a) == WrappingAdd(WrappingMul(b, a), WrappingMul(c, a))
    {
      WrappingAddAssoc(a, b, c);
      WrappingMulAssoc(a, b, c);
      WrappingLeftDistributes(a, b, c);
      WrappingRightDistributes(a, b, c);
    }
  }

  /** The laws about single elements: addition commutes with identity 0 and inverse
      `wrapping_neg`, multiplication has identity 1, and 0 absorbs it. */
  lemma WrappingUnits()
    ensures Commutativity(Same<u32>, WrappingAdd) && Identity(Same<u32>, WrappingAdd, 0)
    ensures Inverse(Same<u32>, WrappingAdd, 0, WrappingNeg)
    ensures Identity(Same<u32>, WrappingMul, 1) && AbsorbingElement(Same<u32>, WrappingMul, 0)
  {
    forall a: u32, b: u32 ensures WrappingAdd(a, b) == WrappingAdd(b, a) {
      AddValue(a, b);
      AddValue(b, a);
    }
    forall a: u32
      ensures WrappingAdd(0, a) == a && WrappingAdd(a, 0) == a
      ensures WrappingAdd(a, WrappingNeg(a)) == 0 && WrappingAdd(WrappingNeg(a), a) == 0
      ensures WrappingMul(1, a) == a && WrappingMul(a, 1) == a
      ensures WrappingMul(0, a) == 0 && WrappingMul(a, 0) == 0
    {
      AddValue(0, a);
      AddValue(a, 0);
      AddValue(WrappingNeg(a), a);
      AddValue(a, WrappingNeg(a));
      MulValue(1, a);
      MulValue(a, 1);
      MulValue(0, a);
      MulValue(a, 0);
    }
  }

  // ---------------------------------------------------------------------------------------------
  // `bool` under `|` and `&`

  function Or(x: bool, y: bool): (r: bool)
  {
    x || y
  }

  function And(x: bool, y: bool): (r: bool)
  {
    x && y
  }

  /** `|` and `&` make `bool` a semiring with zero `false` and one `true`. */
  lemma BoolSemiring()
    ensures Semiring(Same<bool>, Or, And, false, true)
  {
    BoolOrCommutativeMonoid();
    BoolAndMonoid();
    BoolDistributive();
  }

  lemma BoolOrCommutativeMonoid()
    ensures CommutativeMonoid(Same<bool>, Or, false)
  {
    assert Associativity(Same<bool>, Or);
    assert Identity(Same<bool>, Or, false);
  }

  lemma BoolAndMonoid()
    ensures Monoid(Same<bool>, And, true) && AbsorbingElement(Same<bool>, And, false)
  {
    assert Associativity(Same<bool>, And);
  }

  lemma BoolDistributive()
    ensures Distributive(Same<bool>, Or, And)
  {
    assert LeftDistributes(Same<bool>, Or, And);
  }

  /** `bool` is a field (the two-element field) under exclusive or and `&`, with each element
      its own negation and `true` its own inverse; the `field` checker as written refuses it,
      because it asks `true`'s additive inverse to sum to `true`. */
  function Xor(x: bool, y: bool): (r: bool)
  {
    x != y
  }

  function Itself(x: bool): (r: bool)
  {
    x
  }

  lemma FieldCheckerRefusesTwoElementField()
    ensures Field(Same<bool>, Xor, And, false, true, Itself, Itself)
    ensures !FieldAsWritten(Same<bool>, Xor, And, false, true, Itself)
  {
    BoolXorGroup();
    BoolAndMonoid();
    BoolXorDistributive();
    assert !Same(Xor(true, Itself(true)), true);
  }

  /** Exclusive or makes `bool` an abelian group with zero `false`, each element its own negation. */
  lemma BoolXorGroup()
    ensures AbelianGroup(Same<bool>, Xor, false, Itself)
  {
    assert Associativity(Same<bool>, Xor);
  }

  lemma BoolXorDistributive()
    ensures Distributive(Same<bool>, Xor, And)
  {
    assert LeftDistributes(Same<bool>, Xor, And);
  }

  // ---------------------------------------------------------------------------------------------
  // Sets of strings under union and pairwise concatenation

  function Union(x: set<string>, y: set<string>): (r: set<string>)
  {
    x + y
  }

  /** Every string of `x` followed by every string of `y`. */
  function Concat(x: set<string>, y: set<string>): (r: set<string>)
  {
    set a, b | a in x && b in y :: a + b
  }

  lemma ConcatAssoc(x: set<string>, y: set<string>, z: set<string>)
    ensures Concat(x, Concat(y, z)) == Concat(Concat(x, y), z)
  {
    forall s | s in Concat(x, Concat(y, z)) ensures s in Concat(Concat(x, y), z) {
      var a, t :| a in x && t in Concat(y, z) && s == a + t;
      var b, c :| b in y && c in z && t == b + c;
      assert s == (a + b) + c;
      assert a + b in Concat(x, y);
    }
    forall s | s in Concat(Concat(x, y), z) ensures s in Concat(x, Concat(y, z)) {
      var t, c :| t in Concat(x, y) && c in z && s == t + c;
      var a, b :| a in x && b in y && t == a + b;
      assert s == a + (b + c);
      assert b + c in Concat(y, z);
    }
  }

  lemma ConcatEmptyStringRight(x: set<string>)
    ensures Concat(x, {""}) == x
  {
    forall s | s in x ensures s in Concat(x, {""}) {
      assert s + "" == s;
    }
    forall s | s in Concat(x, {""}) ensures s in x {
      var a, b :| a in x && b == "" && s == a + b;
      assert s == a;
    }
  }

  lemma ConcatEmptyStringLeft(x: set<string>)
    ensures Concat({""}, x) == x
  {
    forall s | s in x ensures s in Concat({""}, x) {
      assert "" + s == s;
    }
    forall s | s in Concat({""}, x) ensures s in x {
      var a, b :| a == "" && b in x && s == a + b;
      assert s == b;
    }
  }

  lemma ConcatEmpty(x: set<string>)
    ensures Concat(x, {}) == {} && Concat({}, x) == {}
  {
    forall s ensures s !in Concat(x, {}) && s !in Concat({}, x) {
    }
  }

  lemma ConcatDistributes(a: set<string>, b: set<string>, c: set<string>)
    ensures Concat(a, Union(b, c)) == Union(Concat(a, b), Concat(a, c))
    ensures Concat(Union(b, c), a) == Union(Concat(b, a), Concat(c, a))
  {
    forall s | s in Concat(a, Union(b, c)) ensures s in Union(Concat(a, b), Concat(a, c)) {
      var u, v :| u in a && v in Union(b, c) && s == u + v;
    }
    forall s | s in Concat(Union(b, c), a) ensures s in Union(Concat(b, a), Concat(c, a)) {
      var u, v :| u in Union(b, c) && v in a && s == u + v;
    }
    forall s | s in Union(Concat(a, b), Concat(a, c)) ensures s in Concat(a, Union(b, c)) {
      if s in Concat(a, b) {
        var u, v :| u in a && v in b && s == u + v;
      } else {
        var u, v :| u in a && v in c && s == u + v;
      }
    }
    forall s | s in Union(Concat(b, a), Concat(c, a)) ensures s in Concat(Union(b, c), a) {
      if s in Concat(b, a) {
        var u, v :| u in b && v in a && s == u + v;
      } else {
        var u, v :| u in c && v in a && s == u + v;
      }
    }
  }

  /** Sets of strings form a semiring under union and concatenation, with zero the empty set
      and one the set holding only the empty string. */
  lemma LanguageSemiring()
    ensures Semiring(Same<set<string>>, Union, Concat, {}, {""})
  {
    UnionCommutativeMonoid();
    ConcatMonoid();
    ConcatAbsorbing();
    ConcatDistributive();
  }

  lemma UnionCommutativeMonoid()
    ensures CommutativeMonoid(Same<set<string>>, Union, {})
  {
    forall a, b, c ensures Union(a, Union(b, c)) == Union(Union(a, b), c) {
      assert a + (b + c) == (a + b) + c;
    }
    forall a, b ensures Union(a, b) == Union(b, a) {
      assert a + b == b + a;
    }
    forall a ensures Union({}, a) == a && Union(a, {}) == a {
      assert {} + a == a && a + {} == a;
    }
  }

  lemma ConcatMonoid()
    ensures Monoid(Same<set<string>>, Concat, {""})
  {
    forall a, b, c ensures Concat(a, Concat(b, c)) == Concat(Concat(a, b), c) {
      ConcatAssoc(a, b, c);
    }
    forall a ensures Concat({""}, a) == a && Concat(a, {""}) == a {
      ConcatEmptyStringLeft(a);
      ConcatEmptyStringRight(a);
    }
  }

  lemma ConcatAbsorbing()
    ensures AbsorbingElement(Same<set<string>>, Concat, {})
  {
    forall a ensures Concat(a, {}) == {} && Concat({}, a) == {} {
      ConcatEmpty(a);
    }
  }

  lemma ConcatDistributive()
    ensures Distributive(Same<set<string>>, Union, Concat)
  {
    forall a, b, c
      ensures Concat(a, Union(b, c)) == Union(Concat(a, b), Concat(a, c))
      ensures Concat(Union(b, c), a) == Union(Concat(b, a), Concat(c, a))
    {
      ConcatDistributes(a, b, c);
    }
  }
}
