/** The `Polynomial` type of the lattices crate's algebra tests: a coefficient vector, lowest
    degree first, compared up to trailing zeros, added coefficientwise and multiplied by the
    convolution of the two vectors. The tests check that it is a semiring with the empty
    polynomial as zero and `[1]` as one; here that is proved for all polynomials. Coefficients
    are `usize`, modelled as `nat`. */
module Polynomials {
  import Algebra

  type Poly = seq<nat>

  /** The coefficient of degree `i`; a vector implicitly continues with zeros. */
  function Coef(p: Poly, i: nat): nat
  {
    if i < |p| then p[i] else 0
  }

  // ---------------------------------------------------------------------------------------------
  // Equality

  /** `PartialEq`: walk both vectors together (`zip_longest`); paired coefficients must agree and
      a coefficient without a partner must be zero. */
  predicate PolyEq(p: Poly, q: Poly)
    decreases |p| + |q|
  {
    if p == [] && q == [] then true
    else if q == [] then p[0] == 0 && PolyEq(p[1..], [])
    else if p == [] then q[0] == 0 && PolyEq([], q[1..])
    else p[0] == q[0] && PolyEq(p[1..], q[1..])
  }

  /** Two polynomials are equal exactly when every coefficient agrees. */
  lemma {:induction false} PolyEqIffCoefs(p: Poly, q: Poly)
    ensures PolyEq(p, q) <==> forall i: nat :: Coef(p, i) == Coef(q, i)
    decreases |p| + |q|
  {
    if p == [] && q == [] {
    } else {
      var p', q' := if p == [] then [] else p[1..], if q == [] then [] else q[1..];
      PolyEqIffCoefs(p', q');
      assert forall i: nat :: Coef(p, i + 1) == Coef(p', i) && Coef(q, i + 1) == Coef(q', i);
      if forall i: nat :: Coef(p, i) == Coef(q, i) {
        assert Coef(p, 0) == Coef(q, 0);
      }
      if PolyEq(p, q) {
        forall i: nat ensures Coef(p, i) == Coef(q, i) {
          if i > 0 {
            assert Coef(p', i - 1) == Coef(q', i - 1);
          }
        }
      }
    }
  }

  /** The equality is an equivalence, and ignores trailing zeros. */
  lemma PolyEqEquivalence(p: Poly, q: Poly, r: Poly)
    ensures PolyEq(p, p)
    ensures PolyEq(p, q) ==> PolyEq(q, p)
    ensures PolyEq(p, q) && PolyEq(q, r) ==> PolyEq(p, r)
    ensures PolyEq(p + [0], p)
  {
    PolyEqIffCoefs(p, p);
    PolyEqIffCoefs(p, q);
    PolyEqIffCoefs(q, p);
    PolyEqIffCoefs(q, r);
    PolyEqIffCoefs(p, r);
    PolyEqIffCoefs(p + [0], p);
    assert forall i: nat :: Coef(p + [0], i) == Coef(p, i);
  }

  // ---------------------------------------------------------------------------------------------
  // Addition

  function Max(a: nat, b: nat): nat
  {
    if a >= b then a else b
  }

  /** `add`: paired coefficients summed, the longer vector's tail copied. */
  function Add(p: Poly, q: Poly): (r: Poly)
    ensures |r| == Max(|p|, |q|)
  {
    seq(Max(|p|, |q|), i requires 0 <= i < Max(|p|, |q|) =>
      if i < |p| && i < |q| then p[i] + q[i] else if i < |p| then p[i] else q[i])
  }

  /** Each coefficient of a sum is the sum of the coefficients. */
  lemma AddCoef(p: Poly, q: Poly, i: nat)
    ensures Coef(Add(p, q), i) == Coef(p, i) + Coef(q, i)
  {
  }

  // ---------------------------------------------------------------------------------------------
  // Multiplication

  /** The first `n` terms of the convolution at degree `k`: the sum of `p_i * x_(k - i)` over
      `i < n` with `i <= k`. */
  function Partial(p: Poly, x: Poly, k: nat, n: nat): nat
    decreases n
  {
    if n == 0 then 0
    else Partial(p, x, k, n - 1) + (if n - 1 <= k then Coef(p, n - 1) * Coef(x, k - (n - 1)) else 0)
  }

  /** The coefficient of degree `k` of the product. */
  function Conv(p: Poly, x: Poly, k: nat): nat
  {
    Partial(p, x, k, |p|)
  }

  /** The product as a function: one entry per degree below `|p| + |x|`. */
  function PolyMul(p: Poly, x: Poly): (r: Poly)
    ensures |r| == |p| + |x|
  {
    seq(|p| + |x|, k requires 0 <= k < |p| + |x| => Conv(p, x, k))
  }

  /** `mul`: a zero vector of length `|a| + |b|`, to which every pair of positions adds the
      product of its coefficients at the sum of the positions. */
  method Mul(a: Poly, b: Poly) returns (v: Poly)
    ensures v == PolyMul(a, b)
    ensures forall k: nat :: 0 <= k < |v| ==> v[k] == Conv(a, b, k)
  {
    v := seq(|a| + |b|, _ => 0);
    for i := 0 to |a|
      invariant |v| == |a| + |b|
      invariant forall k: nat :: 0 <= k < |v| ==> v[k] == Partial(a, b, k, i)
    {
      for j := 0 to |b|
        invariant |v| == |a| + |b|
        invariant forall k: nat :: 0 <= k < |v| ==>
          v[k] == Partial(a, b, k, i) + (if i <= k < i + j then a[i] * b[k - i] else 0)
      {
        v := v[i + j := v[i + j] + a[i] * b[j]];
      }
    }
  }

  /** The convolution can be summed over any range that covers `p`. */
  lemma {:induction false} PartialCovers(p: Poly, x: Poly, k: nat, n: nat)
    requires n >= |p|
    ensures Partial(p, x, k, n) == Conv(p, x, k)
    decreases n
  {
    if n > |p| {
      PartialCovers(p, x, k, n - 1);
    }
  }

  /** Every coefficient of the product is the convolution, also past the vector's end. */
  lemma MulCoef(p: Poly, x: Poly, k: nat)
    ensures Coef(PolyMul(p, x), k) == Conv(p, x, k)
  {
    if k >= |p| + |x| {
      PartialBeyond(p, x, k, |p|);
    }
  }

  lemma {:induction false} PartialBeyond(p: Poly, x: Poly, k: nat, n: nat)
    requires n <= |p| && k >= |p| + |x|
    ensures Partial(p, x, k, n) == 0
    decreases n
  {
    if n > 0 {
      PartialBeyond(p, x, k, n - 1);
    }
  }

  /** The convolution only looks at coefficients. */
  lemma {:induction false} PartialCoefs(p: Poly, q: Poly, x: Poly, y: Poly, k: nat, n: nat)
    requires forall i: nat :: Coef(p, i) == Coef(q, i)
    requires forall i: nat :: Coef(x, i) == Coef(y, i)
    ensures Partial(p, x, k, n) == Partial(q, y, k, n)
    decreases n
  {
    if n > 0 {
      PartialCoefs(p, q, x, y, k, n - 1);
    }
  }

  lemma ConvCoefs(p: Poly, q: Poly, x: Poly, y: Poly, k: nat)
    requires forall i: nat :: Coef(p, i) == Coef(q, i)
    requires forall i: nat :: Coef(x, i) == Coef(y, i)
    ensures Conv(p, x, k) == Conv(q, y, k)
  {
    var n := Max(|p|, |q|);
    PartialCovers(p, x, k, n);
    PartialCovers(q, y, k, n);
    PartialCoefs(p, q, x, y, k, n);
  }

  lemma Distribute(a: nat, b: nat, c: nat)
    ensures a * (b + c) == a * b + a * c
    ensures (b + c) * a == b * a + c * a
  {
  }

  /** The convolution is additive in each argument. */
  lemma {:induction false} PartialAddLeft(p: Poly, q: Poly, x: Poly, k: nat, n: nat)
    ensures Partial(Add(p, q), x, k, n) == Partial(p, x, k, n) + Partial(q, x, k, n)
    decreases n
  {
    if n > 0 {
      PartialAddLeft(p, q, x, k, n - 1);
      AddCoef(p, q, n - 1);
      if n - 1 <= k {
        Distribute(Coef(x, k - (n - 1)), Coef(p, n - 1), Coef(q, n - 1));
      }
    }
  }

  lemma {:induction false} PartialAddRight(p: Poly, x: Poly, y: Poly, k: nat, n: nat)
    ensures Partial(p, Add(x, y), k, n) == Partial(p, x, k, n) + Partial(p, y, k, n)
    decreases n
  {
    if n > 0 {
      PartialAddRight(p, x, y, k, n - 1);
      if n - 1 <= k {
        AddCoef(x, y, k - (n - 1));
        Distribute(Coef(p, n - 1), Coef(x, k - (n - 1)), Coef(y, k - (n - 1)));
      }
    }
  }

  lemma ConvAddLeft(p: Poly, q: Poly, x: Poly, k: nat)
    ensures Conv(Add(p, q), x, k) == Conv(p, x, k) + Conv(q, x, k)
  {
    var n := Max(|p|, |q|);
    PartialAddLeft(p, q, x, k, n);
    PartialCovers(p, x, k, n);
    PartialCovers(q, x, k, n);
  }

  lemma ConvAddRight(p: Poly, x: Poly, y: Poly, k: nat)
    ensures Conv(p, Add(x, y), k) == Conv(p, x, k) + Conv(p, y, k)
  {
    PartialAddRight(p, x, y, k, |p|);
  }

  /** `c` times every coefficient. */
  function Scale(c: nat, p: Poly): (r: Poly)
    ensures |r| == |p|
  {
    seq(|p|, i requires 0 <= i < |p| => c * p[i])
  }

  lemma MulAssoc(a: nat, b: nat, c: nat)
    ensures a * (b * c) == (a * b) * c
  {
  }

  lemma {:induction false} PartialScale(c: nat, p: Poly, x: Poly, k: nat, n: nat)
    ensures Partial(Scale(c, p), x, k, n) == c * Partial(p, x, k, n)
    decreases n
  {
    if n > 0 {
      PartialScale(c, p, x, k, n - 1);
      var t := if n - 1 <= k then Coef(p, n - 1) * Coef(x, k - (n - 1)) else 0;
      if n - 1 <= k {
        assert Coef(Scale(c, p), n - 1) == c * Coef(p, n - 1);
        MulAssoc(c, Coef(p, n - 1), Coef(x, k - (n - 1)));
      }
      Distribute(c, Partial(p, x, k, n - 1), t);
    }
  }

  /** Shifting the left factor up one degree shifts the product. */
  lemma {:induction false} PartialShift(p: Poly, x: Poly, k: nat, n: nat)
    ensures Partial([0] + p, x, k + 1, n + 1) == Partial(p, x, k, n)
    ensures Partial([0] + p, x, 0, n + 1) == 0
    decreases n
  {
    assert Coef([0] + p, 0) == 0;
    if n > 0 {
      PartialShift(p, x, k, n - 1);
      assert Coef([0] + p, n) == Coef(p, n - 1);
    }
  }

  /** The product's coefficients, peeling the left factor's constant term: `a * x` is
      `a_0 x` plus `(a_1 + a_2 X + ...) * x` shifted up one degree. */
  lemma ConvPeel(a: Poly, x: Poly, k: nat)
    requires a != []
    ensures Conv(a, x, k) == a[0] * Coef(x, k) + (if k == 0 then 0 else Conv(a[1..], x, k - 1))
  {
    var rest := [0] + a[1..];
    forall i: nat ensures Coef(a, i) == Coef(Add([a[0]], rest), i) {
      AddCoef([a[0]], rest, i);
    }
    ConvCoefs(a, Add([a[0]], rest), x, x, k);
    ConvAddLeft([a[0]], rest, x, k);
    PartialShift(a[1..], x, if k == 0 then 0 else k - 1, |a[1..]|);
  }

  /** Multiplication is associative, coefficient by coefficient. */
  lemma {:induction false} ConvAssoc(a: Poly, b: Poly, c: Poly, k: nat)
    ensures Conv(a, PolyMul(b, c), k) == Conv(PolyMul(a, b), c, k)
    decreases |a|
  {
    var ab := PolyMul(a, b);
    if a == [] {
      forall i: nat ensures Coef(ab, i) == Coef([], i) {
        MulCoef(a, b, i);
      }
      ConvCoefs(ab, [], c, c, k);
    } else {
      var a0, tail := a[0], a[1..];
      var tb := PolyMul(tail, b);
      var split := Add(Scale(a0, b), [0] + tb);
      forall m: nat ensures Coef(ab, m) == Coef(split, m) {
        MulCoef(a, b, m);
        ConvPeel(a, b, m);
        AddCoef(Scale(a0, b), [0] + tb, m);
        if m > 0 {
          MulCoef(tail, b, m - 1);
        }
      }
      ConvCoefs(ab, split, c, c, k);
      ConvAddLeft(Scale(a0, b), [0] + tb, c, k);
      PartialScale(a0, b, c, k, |b|);
      PartialShift(tb, c, if k == 0 then 0 else k - 1, |tb|);
      ConvPeel(a, PolyMul(b, c), k);
      MulCoef(b, c, k);
      if k > 0 {
        ConvAssoc(tail, b, c, k - 1);
      }
    }
  }

  /** `[1]` is a two-sided identity for multiplication, and `[]` absorbs it. */
  lemma {:induction false} PartialOneRight(p: Poly, k: nat, n: nat)
    ensures Partial(p, [1], k, n) == if n > k then Coef(p, k) else 0
    decreases n
  {
    if n > 0 {
      PartialOneRight(p, k, n - 1);
    }
  }

  lemma ConvUnits(p: Poly, k: nat)
    ensures Conv([1], p, k) == Coef(p, k)
    ensures Conv(p, [1], k) == Coef(p, k)
    ensures Conv([], p, k) == 0
    ensures Conv(p, [], k) == 0
  {
    PartialOneRight(p, k, Max(|p|, k + 1));
    PartialCovers(p, [1], k, Max(|p|, k + 1));
    PartialBeyond(p, [], k + |p|, |p|);
    PartialEmpty(p, k, |p|);
  }

  lemma {:induction false} PartialEmpty(p: Poly, k: nat, n: nat)
    ensures Partial(p, [], k, n) == 0
    decreases n
  {
    if n > 0 {
      PartialEmpty(p, k, n - 1);
    }
  }

  // ---------------------------------------------------------------------------------------------
  // The semiring

  /** Polynomials form a semiring under `add` and `mul`, compared with their own `PartialEq`,
      with the empty polynomial as zero and `[1]` as one. */
  lemma PolynomialSemiring()
    ensures Algebra.Semiring(PolyEq, Add, PolyMul, [], [1])
  {
    AddCommutativeMonoid();
    MulMonoid();
    MulAbsorbing();
    MulDistributive();
  }

  lemma AddCommutativeMonoid()
    ensures Algebra.CommutativeMonoid(PolyEq, Add, [])
  {
    forall a, b, c ensures PolyEq(Add(a, Add(b, c)), Add(Add(a, b), c)) {
      forall i: nat ensures Coef(Add(a, Add(b, c)), i) == Coef(Add(Add(a, b), c), i) {
        AddCoef(a, Add(b, c), i);
        AddCoef(b, c, i);
        AddCoef(Add(a, b), c, i);
        AddCoef(a, b, i);
      }
      PolyEqIffCoefs(Add(a, Add(b, c)), Add(Add(a, b), c));
    }
    forall a, b ensures PolyEq(Add(a, b), Add(b, a)) {
      forall i: nat ensures Coef(Add(a, b), i) == Coef(Add(b, a), i) {
        AddCoef(a, b, i);
        AddCoef(b, a, i);
      }
      PolyEqIffCoefs(Add(a, b), Add(b, a));
    }
    forall a ensures PolyEq(Add([], a), a) && PolyEq(Add(a, []), a) {
      forall i: nat ensures Coef(Add([], a), i) == Coef(a, i) && Coef(Add(a, []), i) == Coef(a, i) {
        AddCoef([], a, i);
        AddCoef(a, [], i);
      }
      PolyEqIffCoefs(Add([], a), a);
      PolyEqIffCoefs(Add(a, []), a);
    }
  }

  lemma MulMonoid()
    ensures Algebra.Monoid(PolyEq, PolyMul, [1])
  {
    forall a, b, c ensures PolyEq(PolyMul(a, PolyMul(b, c)), PolyMul(PolyMul(a, b), c)) {
      forall k: nat ensures Coef(PolyMul(a, PolyMul(b, c)), k) == Coef(PolyMul(PolyMul(a, b), c), k) {
        MulCoef(a, PolyMul(b, c), k);
        MulCoef(PolyMul(a, b), c, k);
        ConvAssoc(a, b, c, k);
      }
      PolyEqIffCoefs(PolyMul(a, PolyMul(b, c)), PolyMul(PolyMul(a, b), c));
    }
    forall a ensures PolyEq(PolyMul([1], a), a) && PolyEq(PolyMul(a, [1]), a) {
      forall k: nat ensures Coef(PolyMul([1], a), k) == Coef(a, k) && Coef(PolyMul(a, [1]), k) == Coef(a, k) {
        MulCoef([1], a, k);
        MulCoef(a, [1], k);
        ConvUnits(a, k);
      }
      PolyEqIffCoefs(PolyMul([1], a), a);
      PolyEqIffCoefs(PolyMul(a, [1]), a);
    }
  }

  lemma MulAbsorbing()
    ensures Algebra.AbsorbingElement(PolyEq, PolyMul, [])
  {
    forall a ensures PolyEq(PolyMul(a, []), []) && PolyEq(PolyMul([], a), []) {
      forall k: nat ensures Coef(PolyMul(a, []), k) == Coef([], k) && Coef(PolyMul([], a), k) == Coef([], k) {
        MulCoef(a, [], k);
        MulCoef([], a, k);
        ConvUnits(a, k);
      }
      PolyEqIffCoefs(PolyMul(a, []), []);
      PolyEqIffCoefs(PolyMul([], a), []);
    }
  }

  lemma MulDistributive()
    ensures Algebra.Distributive(PolyEq, Add, PolyMul)
  {
    forall a, b, c ensures PolyEq(PolyMul(a, Add(b, c)), Add(PolyMul(a, b), PolyMul(a, c))) {
      forall k: nat ensures Coef(PolyMul(a, Add(b, c)), k) == Coef(Add(PolyMul(a, b), PolyMul(a, c)), k) {
        MulCoef(a, Add(b, c), k);
        AddCoef(PolyMul(a, b), PolyMul(a, c), k);
        MulCoef(a, b, k);
        MulCoef(a, c, k);
        ConvAddRight(a, b, c, k);
      }
      PolyEqIffCoefs(PolyMul(a, Add(b, c)), Add(PolyMul(a, b), PolyMul(a, c)));
    }
    forall a, b, c ensures PolyEq(PolyMul(Add(b, c), a), Add(PolyMul(b, a), PolyMul(c, a))) {
      forall k: nat ensures Coef(PolyMul(Add(b, c), a), k) == Coef(Add(PolyMul(b, a), PolyMul(c, a)), k) {
        MulCoef(Add(b, c), a, k);
        AddCoef(PolyMul(b, a), PolyMul(c, a), k);
        MulCoef(b, a, k);
        MulCoef(c, a, k);
        ConvAddLeft(b, c, a, k);
      }
      PolyEqIffCoefs(PolyMul(Add(b, c), a), Add(PolyMul(b, a), PolyMul(c, a)));
    }
  }
}
