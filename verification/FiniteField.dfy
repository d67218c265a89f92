/** An arbitrary finite field of characteristic two, standing for the 128-bit field of the
    protocol. Subtraction is addition, and division is multiplication by an inverse.

    The laws are wrapped in predicates, so that a lemma which only carries a field around does
    not instantiate them: a law enters a proof when it is named. */
module FiniteField {

  type Elem(==, !new)

  datatype Field = Field(
    elems: set<Elem>,
    zero: Elem,
    one: Elem,
    add: (Elem, Elem) -> Elem,
    mul: (Elem, Elem) -> Elem,
    inv: Elem -> Elem)
  {
    ghost predicate AddCommutes(a: Elem, b: Elem) { add(a, b) == add(b, a) }

    ghost predicate AddAssociates(a: Elem, b: Elem, c: Elem) {
      add(add(a, b), c) == add(a, add(b, c))
    }

    ghost predicate AddCancels(a: Elem) { add(a, a) == zero && add(a, zero) == a }

    ghost predicate MulCommutes(a: Elem, b: Elem) { mul(a, b) == mul(b, a) }

    ghost predicate MulAssociates(a: Elem, b: Elem, c: Elem) {
      mul(mul(a, b), c) == mul(a, mul(b, c))
    }

    ghost predicate MulDistributes(a: Elem, b: Elem, c: Elem) {
      mul(a, add(b, c)) == add(mul(a, b), mul(a, c))
    }

    ghost predicate HasUnit(a: Elem) {
      mul(a, one) == a && (a != zero ==> mul(a, inv(a)) == one)
    }

    ghost predicate Listed(a: Elem) { a in elems }

    ghost predicate Valid() {
      && zero != one
      && (forall a :: Listed(a))
      && (forall a, b :: AddCommutes(a, b))
      && (forall a, b, c :: AddAssociates(a, b, c))
      && (forall a :: AddCancels(a))
      && (forall a, b :: MulCommutes(a, b))
      && (forall a, b, c :: MulAssociates(a, b, c))
      && (forall a, b, c :: MulDistributes(a, b, c))
      && (forall a :: HasUnit(a))
    }

    /** Every additive law at once: a goal that only rearranges sums follows from this. */
    lemma {:induction false} Additive()
      requires Valid()
      ensures forall a, b :: add(a, b) == add(b, a)
      ensures forall a, b, c :: add(add(a, b), c) == add(a, add(b, c))
      ensures forall a :: add(a, a) == zero
      ensures forall a :: add(a, zero) == a
    {
      forall a, b ensures add(a, b) == add(b, a) { assert AddCommutes(a, b); }
      forall a, b, c ensures add(add(a, b), c) == add(a, add(b, c)) { assert AddAssociates(a, b, c); }
      forall a ensures add(a, a) == zero { assert AddCancels(a); }
      forall a ensures add(a, zero) == a { assert AddCancels(a); }
    }

    lemma {:induction false} Comm(a: Elem, b: Elem)
      requires Valid()
      ensures mul(a, b) == mul(b, a)
    {
      assert MulCommutes(a, b);
    }

    lemma {:induction false} Assoc(a: Elem, b: Elem, c: Elem)
      requires Valid()
      ensures mul(mul(a, b), c) == mul(a, mul(b, c))
    {
      assert MulAssociates(a, b, c);
    }

    lemma {:induction false} Dist(a: Elem, b: Elem, c: Elem)
      requires Valid()
      ensures mul(a, add(b, c)) == add(mul(a, b), mul(a, c))
      ensures mul(add(b, c), a) == add(mul(b, a), mul(c, a))
    {
      assert MulDistributes(a, b, c);
      Comm(a, add(b, c));
      Comm(a, b);
      Comm(a, c);
    }

    /** A factor moves out of either side of a product. */
    lemma {:induction false} Swap(a: Elem, x: Elem, b: Elem)
      requires Valid()
      ensures mul(a, mul(x, b)) == mul(x, mul(a, b))
      ensures mul(mul(x, a), b) == mul(x, mul(a, b))
    {
      Assoc(a, x, b);
      Comm(a, x);
      Assoc(x, a, b);
    }

    lemma {:induction false} Units(a: Elem)
      requires Valid()
      ensures mul(a, one) == a && mul(one, a) == a
      ensures mul(a, zero) == zero && mul(zero, a) == zero
    {
      assert HasUnit(a);
      Comm(a, one);
      Comm(a, zero);
      Dist(a, zero, zero);
      Additive();
    }

    lemma {:induction false} Foil(a: Elem, b: Elem, c: Elem, d: Elem)
      requires Valid()
      ensures mul(add(a, b), add(c, d)) == add(add(mul(a, c), mul(a, d)), add(mul(b, c), mul(b, d)))
    {
      Dist(add(c, d), a, b);
      Dist(a, c, d);
      Dist(b, c, d);
    }

    /** The product of two nonzero elements is nonzero, and a sum is zero only for equals. */
    lemma {:induction false} NoZeroDivisors(a: Elem, b: Elem)
      requires Valid()
      ensures mul(a, b) == zero <==> a == zero || b == zero
    {
      Units(a);
      Units(b);
      if a != zero {
        assert HasUnit(a);
        Comm(a, inv(a));
        Assoc(inv(a), a, b);
        Units(inv(a));
      }
    }

    lemma {:induction false} ZeroSum(a: Elem, b: Elem)
      requires Valid()
      ensures add(a, b) == zero <==> a == b
    {
      Additive();
      assert add(add(a, b), b) == a;
    }

    /** Dividing by a nonzero element undoes multiplying by it. */
    lemma {:induction false} Divide(a: Elem, z: Elem)
      requires Valid() && z != zero
      ensures mul(z, mul(a, inv(z))) == a
    {
      Swap(z, a, inv(z));
      assert HasUnit(z);
      Units(a);
    }
  }

  // ---------------------------------------------------------------- roots

  ghost function Quadratic(K: Field, c0: Elem, c1: Elem, c2: Elem, x: Elem): Elem {
    K.add(c0, K.mul(x, K.add(c1, K.mul(x, c2))))
  }

  ghost function Roots(K: Field, c0: Elem, c1: Elem, c2: Elem): set<Elem> {
    set x | x in K.elems && Quadratic(K, c0, c1, c2, x) == K.zero
  }

  /** Two roots of a quadratic determine its linear coefficient from its leading one. */
  lemma {:induction false} TwoRoots(K: Field, c0: Elem, c1: Elem, c2: Elem, r: Elem, s: Elem)
    requires K.Valid() && r != s
    requires Quadratic(K, c0, c1, c2, r) == K.zero == Quadratic(K, c0, c1, c2, s)
    ensures K.add(c1, K.mul(K.add(r, s), c2)) == K.zero
  {
    var rs, e := K.add(r, s), K.add(c1, K.mul(K.add(r, s), c2));
    K.ZeroSum(c0, K.mul(r, K.add(c1, K.mul(r, c2))));
    K.ZeroSum(c0, K.mul(s, K.add(c1, K.mul(s, c2))));
    DifferenceOfRoots(K, c1, c2, r, s);
    K.ZeroSum(K.mul(r, K.add(c1, K.mul(r, c2))), K.mul(s, K.add(c1, K.mul(s, c2))));
    K.NoZeroDivisors(rs, e);
    K.ZeroSum(r, s);
  }

  /** `r (c1 + r c2) + s (c1 + s c2) = (r + s) (c1 + (r + s) c2)`. */
  lemma {:induction false} DifferenceOfRoots(K: Field, c1: Elem, c2: Elem, r: Elem, s: Elem)
    requires K.Valid()
    ensures K.add(K.mul(r, K.add(c1, K.mul(r, c2))), K.mul(s, K.add(c1, K.mul(s, c2))))
      == K.mul(K.add(r, s), K.add(c1, K.mul(K.add(r, s), c2)))
  {
    var rs := K.add(r, s);
    K.Dist(r, c1, K.mul(r, c2));
    K.Dist(s, c1, K.mul(s, c2));
    K.Dist(rs, c1, K.mul(rs, c2));
    K.Dist(c1, r, s);
    K.Dist(c2, r, s);
    K.Foil(r, s, K.mul(r, c2), K.mul(s, c2));
    K.Swap(r, s, c2);
    K.Additive();
  }

  lemma {:induction false} ThreeRoots(K: Field, c0: Elem, c1: Elem, c2: Elem, r: Elem, s: Elem, t: Elem)
    requires K.Valid() && r != s && s != t && r != t
    requires Quadratic(K, c0, c1, c2, r) == K.zero == Quadratic(K, c0, c1, c2, s)
    requires Quadratic(K, c0, c1, c2, t) == K.zero
    ensures c0 == c1 == c2 == K.zero
  {
    TwoRoots(K, c0, c1, c2, r, s);
    TwoRoots(K, c0, c1, c2, r, t);
    var a, b := K.add(r, s), K.add(r, t);
    K.ZeroSum(c1, K.mul(a, c2));
    K.ZeroSum(c1, K.mul(b, c2));
    K.ZeroSum(K.mul(a, c2), K.mul(b, c2));
    K.Dist(c2, a, b);
    K.NoZeroDivisors(K.add(a, b), c2);
    assert K.add(a, b) == K.add(s, t) by { K.Additive(); }
    K.ZeroSum(s, t);
    K.Units(a);
    K.Units(r);
    K.Additive();
  }

  lemma {:induction false} SmallSet<T>(s: set<T>, n: nat)
    requires |s| > n
    ensures exists x :: x in s && |s - {x}| >= n
  {
    var x :| x in s;
    assert |s - {x}| == |s| - 1;
  }

  /** A quadratic that is not the zero polynomial has at most two roots. */
  lemma {:induction false} AtMostTwoRoots(K: Field, c0: Elem, c1: Elem, c2: Elem)
    requires K.Valid()
    requires c0 != K.zero || c1 != K.zero || c2 != K.zero
    ensures |Roots(K, c0, c1, c2)| <= 2
  {
    var R := Roots(K, c0, c1, c2);
    if |R| > 2 {
      SmallSet(R, 2);
      var r :| r in R && |R - {r}| >= 2;
      SmallSet(R - {r}, 1);
      var s :| s in R - {r} && |R - {r} - {s}| >= 1;
      var t :| t in R - {r} - {s};
      ThreeRoots(K, c0, c1, c2, r, s, t);
    }
  }

  /** A line that is not the zero polynomial has at most one root. */
  lemma {:induction false} AtMostOneRoot(K: Field, c0: Elem, c1: Elem, E: set<Elem>)
    requires K.Valid()
    requires c0 != K.zero || c1 != K.zero
    requires forall x :: x in E ==> K.add(c0, K.mul(x, c1)) == K.zero
    ensures |E| <= 1
  {
    if |E| > 1 {
      SmallSet(E, 1);
      var r :| r in E && |E - {r}| >= 1;
      var s :| s in E - {r};
      K.ZeroSum(c0, K.mul(r, c1));
      K.ZeroSum(c0, K.mul(s, c1));
      K.Dist(c1, r, s);
      K.ZeroSum(K.mul(r, c1), K.mul(s, c1));
      K.NoZeroDivisors(K.add(r, s), c1);
      K.ZeroSum(r, s);
      K.Units(r);
    }
  }
}
