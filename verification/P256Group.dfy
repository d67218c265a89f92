/** The curve's sum: closed, commutative and with inverses, from the primality of the field's modulus alone. */
module P256Group {
  import M = Montgomery
  import opened NumberTheory
  import opened Residue
  import opened P256Curve
  import opened P256Scalar

  // ---------------------------------------------------------------- a line and the cubic

  /** The cubic less the square of the line of slope `l` through `(x1, y1)`. */
  ghost function Gap(b: int, l: int, x1: int, y1: int, x: int): int {
    x * x * x - 3 * x + b - (l * (x - x1) + y1) * (l * (x - x1) + y1)
  }

  /** What is left of it after the product over its three roots: a linear term and a constant. */
  ghost function Linear(l: int, x1: int, y1: int, x2: int, x3: int): int {
    -3 - 2 * l * (y1 - l * x1) - (x1 * x2 + x1 * x3 + x2 * x3)
  }

  ghost function Constant(b: int, l: int, x1: int, y1: int, x2: int, x3: int): int {
    b - (y1 - l * x1) * (y1 - l * x1) + x1 * x2 * x3
  }

  lemma {:induction false} GapIsLinear(b: int, l: int, x1: int, y1: int, x2: int, x3: int, x: int)
    requires x3 == l * l - (x1 + x2)
    ensures Gap(b, l, x1, y1, x) ==
      (x - x1) * (x - x2) * (x - x3) + Linear(l, x1, y1, x2, x3) * x + Constant(b, l, x1, y1, x2, x3)
  {
  }

  lemma {:induction false} TangentLinear(l: int, x1: int, y1: int, x3: int)
    requires x3 == l * l - (x1 + x1)
    ensures Linear(l, x1, y1, x1, x3) == 3 * (x1 * x1) - 3 - l * (2 * y1)
  {
  }

  /** When the gap vanishes at the first two roots and the linear term does, it vanishes at the third. */
  lemma {:induction false} ThirdRoot(p: nat, b: int, l: int, x1: int, y1: int, x2: int, x3: int)
    requires x3 == l * l - (x1 + x2) && Eq(Gap(b, l, x1, y1, x1), 0, p) && Eq(Linear(l, x1, y1, x2, x3), 0, p)
    ensures Eq(Gap(b, l, x1, y1, x3), 0, p)
  {
    var a, c := Linear(l, x1, y1, x2, x3), Constant(b, l, x1, y1, x2, x3);
    GapIsLinear(b, l, x1, y1, x2, x3, x1);
    GapIsLinear(b, l, x1, y1, x2, x3, x3);
    VanishingFactor(x1 - x1, x1 - x2, x1 - x3);
    VanishingFactor(x3 - x3, x3 - x1, x3 - x2);
    hide Gap, Linear, Constant;
    EqProduct(a, 0, x1, x1, p);
    EqProduct(a, 0, x3, x3, p);
    EqSum(a * x1 + c, 0, a * x1, 0, p);
    EqSum(a * x3, 0, c, 0, p);
  }

  lemma {:induction false} VanishingFactor(zero: int, u: int, v: int)
    requires zero == 0
    ensures zero * u * v == 0 && u * v * zero == 0
  {
  }

  /** Two different roots make the linear term vanish. */
  lemma {:induction false} ChordLinear(p: nat, b: int, l: int, x1: int, y1: int, x2: int, x3: int)
    requires Prime(p) && x3 == l * l - (x1 + x2) && !Eq(x2, x1, p)
    requires Eq(Gap(b, l, x1, y1, x1), 0, p) && Eq(Gap(b, l, x1, y1, x2), 0, p)
    ensures Eq(Linear(l, x1, y1, x2, x3), 0, p)
  {
    assert p >= 2;
    var a, c := Linear(l, x1, y1, x2, x3), Constant(b, l, x1, y1, x2, x3);
    GapIsLinear(b, l, x1, y1, x2, x3, x1);
    GapIsLinear(b, l, x1, y1, x2, x3, x2);
    VanishingFactor(x1 - x1, x1 - x2, x1 - x3);
    VanishingFactor(x2 - x2, x2 - x1, x2 - x3);
    EqDifference(x2, x1, p);
    EqZero(a, p);
    EqZero(a * (x2 - x1), p);
    hide Gap, Linear, Constant, Prime;
    EqSum(a * x2 + c, 0, a * x1 + c, 0, p);
    M.SubTimes(x2, x1, a);
    assert a * (x2 - x1) == (a * x2 + c) - (a * x1 + c);
    NoZeroDivisors(p, a, x2 - x1);
  }

  /** The line meets the curve at `(x1, y1)`. */
  lemma {:induction false} GapAtBase(p: nat, b: int, l: int, x1: int, y1: int)
    requires Eq(y1 * y1, x1 * x1 * x1 - 3 * x1 + b, p)
    ensures Eq(Gap(b, l, x1, y1, x1), 0, p)
  {
    OnTheLine(l, 0, y1);
    EqDifference(y1 * y1, x1 * x1 * x1 - 3 * x1 + b, p);
    EqSum(x1 * x1 * x1 - 3 * x1 + b, y1 * y1, y1 * y1, y1 * y1, p);
  }

  lemma {:induction false} OnTheLine(l: int, zero: int, y: int)
    requires zero == 0
    ensures l * zero + y == y
  {
  }

  /** And at any other point of the curve that it goes through. */
  lemma {:induction false} GapOnLine(p: nat, b: int, l: int, x1: int, y1: int, x2: int, y2: int)
    requires Eq(y2 * y2, x2 * x2 * x2 - 3 * x2 + b, p) && Eq(l * (x2 - x1), y2 - y1, p)
    ensures Eq(Gap(b, l, x1, y1, x2), 0, p)
  {
    var line := l * (x2 - x1) + y1;
    EqSum(l * (x2 - x1), y2 - y1, y1, y1, p);
    EqProduct(line, y2, line, y2, p);
    EqSum(x2 * x2 * x2 - 3 * x2 + b, y2 * y2, line * line, y2 * y2, p);
  }

  // ---------------------------------------------------------------- closure

  /** Where the gap vanishes at its third root, the group law's third point is on the curve. */
  lemma {:induction false} ThroughOnCurve(p: nat, b: int, l: int, s: Affine, t: Affine)
    requires p > 0 && s.Finite? && t.Finite? && Eq(Gap(b, l, s.x, s.y, l * l - (s.x + t.x)), 0, p)
    ensures OnCurve(p, b, Through(p, l, s, t))
  {
    var x3 := l * l - (s.x + t.x);
    var r := Through(p, l, s, t);
    EqReduced(x3, p);
    EqReduced(l * (s.x - r.x) - s.y, p);
    hide Eq;
    Ordinate(p, l, s.x, s.y, r.x, x3, r.y);
    Cube(p, b, r.x, x3);
    GapVanishes(p, b, l, s.x, s.y, x3);
    Transitive(p, r.y * r.y, (l * (x3 - s.x) + s.y) * (l * (x3 - s.x) + s.y), x3 * x3 * x3 - 3 * x3 + b);
    Transitive(p, r.y * r.y, x3 * x3 * x3 - 3 * x3 + b, r.x * r.x * r.x - 3 * r.x + b);
  }

  lemma {:induction false} Transitive(p: nat, u: int, v: int, w: int)
    requires Eq(u, v, p) && (Eq(v, w, p) || Eq(w, v, p))
    ensures Eq(u, w, p)
  {
  }

  lemma {:induction false} GapVanishes(p: nat, b: int, l: int, x1: int, y1: int, x3: int)
    requires Eq(Gap(b, l, x1, y1, x3), 0, p)
    ensures Eq((l * (x3 - x1) + y1) * (l * (x3 - x1) + y1), x3 * x3 * x3 - 3 * x3 + b, p)
  {
    EqDifference(x3 * x3 * x3 - 3 * x3 + b, (l * (x3 - x1) + y1) * (l * (x3 - x1) + y1), p);
    EqZero(Gap(b, l, x1, y1, x3), p);
  }

  /** The ordinate is the line's, negated. */
  lemma {:induction false} Ordinate(p: nat, l: int, x1: int, y1: int, x: int, x3: int, y: int)
    requires Eq(x, x3, p) && Eq(y, l * (x1 - x) - y1, p)
    ensures Eq(y * y, (l * (x3 - x1) + y1) * (l * (x3 - x1) + y1), p)
  {
    assert p > 0;
    var line := l * (x3 - x1) + y1;
    Self(p, x1);
    Self(p, l);
    Self(p, y1);
    hide Eq;
    EqSum(x1, x1, x, x3, p);
    EqProduct(l, l, x1 - x, x1 - x3, p);
    EqSum(l * (x1 - x), l * (x1 - x3), y1, y1, p);
    Negated(l, x1, x3, y1);
    Transitive(p, y, l * (x1 - x) - y1, -line);
    EqProduct(y, -line, y, -line, p);
    SquareOfNegated(line);
  }

  lemma {:induction false} Self(p: nat, a: int)
    requires p > 0
    ensures Eq(a, a, p)
  {
  }

  lemma {:induction false} Negated(l: int, x1: int, x3: int, y1: int)
    ensures l * (x1 - x3) - y1 == -(l * (x3 - x1) + y1)
  {
  }

  lemma {:induction false} SquareOfNegated(a: int)
    ensures -a * -a == a * a
  {
  }

  lemma {:induction false} Cube(p: nat, b: int, x: int, x3: int)
    requires Eq(x, x3, p)
    ensures Eq(x * x * x - 3 * x + b, x3 * x3 * x3 - 3 * x3 + b, p)
  {
    assert p > 0;
    Self(p, 3);
    Self(p, b);
    hide Eq;
    EqProduct(x, x3, x, x3, p);
    EqProduct(x * x, x3 * x3, x, x3, p);
    EqProduct(3, 3, x, x3, p);
    EqSum(x * x * x, x3 * x3 * x3, 3 * x, 3 * x3, p);
    EqSum(x * x * x - 3 * x, x3 * x3 * x3 - 3 * x3, b, b, p);
  }

  lemma {:induction false} ChordOnCurve(p: nat, b: int, s: Affine, t: Affine)
    requires Prime(p) && OnCurve(p, b, s) && OnCurve(p, b, t) && s.Finite? && t.Finite? && s.x != t.x
    ensures p >= 2 && OnCurve(p, b, Through(p, ChordSlope(p, s, t), s, t))
  {
    assert p >= 2;
    ResiduesDiffer(p, t.x, s.x);
    EqDifference(t.x, s.x, p);
    EqZero(t.x - s.x, p);
    QuotientIs(t.y - s.y, t.x - s.x, p);
    var l := ChordSlope(p, s, t);
    var x3 := l * l - (s.x + t.x);
    hide Eq, Prime, Gap, Linear, Quotient;
    GapAtBase(p, b, l, s.x, s.y);
    GapOnLine(p, b, l, s.x, s.y, t.x, t.y);
    ChordLinear(p, b, l, s.x, s.y, t.x, x3);
    ThirdRoot(p, b, l, s.x, s.y, t.x, x3);
    ThroughOnCurve(p, b, l, s, t);
  }

  lemma {:induction false} TangentOnCurve(p: nat, b: int, s: Affine)
    requires Prime(p) && OnCurve(p, b, s) && s.Finite? && (s.y + s.y) % p != 0
    ensures p >= 2 && OnCurve(p, b, Through(p, TangentSlope(p, s), s, s))
  {
    assert p >= 2;
    EqZero(2 * s.y, p);
    QuotientIs(3 * (s.x * s.x) - 3, 2 * s.y, p);
    var l := TangentSlope(p, s);
    var x3 := l * l - (s.x + s.x);
    TangentLinear(l, s.x, s.y, x3);
    hide Prime, Gap, Linear, Quotient;
    EqSum(3 * (s.x * s.x) - 3, 3 * (s.x * s.x) - 3, l * (2 * s.y), 3 * (s.x * s.x) - 3, p);
    hide Eq;
    GapAtBase(p, b, l, s.x, s.y);
    ThirdRoot(p, b, l, s.x, s.y, s.x, x3);
    ThroughOnCurve(p, b, l, s, s);
  }

  /** The sum of two points of the curve is a point of the curve. */
  lemma {:induction false} SumOnCurve(p: nat, b: int, s: Affine, t: Affine)
    requires Prime(p) && OnCurve(p, b, s) && OnCurve(p, b, t)
    ensures p >= 2 && OnCurve(p, b, EcAdd(p, s, t))
  {
    assert p >= 2;
    if s.Finite? && t.Finite? && !(s.x == t.x && (s.y + t.y) % p == 0) {
      if s == t {
        TangentOnCurve(p, b, s);
      } else {
        if s.x == t.x { EqualOrOpposite(p, b, s, t); }
        ChordOnCurve(p, b, s, t);
      }
      hide OnCurve, Prime, Through, TangentSlope, ChordSlope;
    }
  }

  // ---------------------------------------------------------------- commutativity and inverses

  /** Both orders give one chord. */
  lemma {:induction false} ChordCommutes(p: nat, s: Affine, t: Affine)
    requires Prime(p) && s.Finite? && t.Finite? && s.x < p && t.x < p && s.x != t.x
    ensures p >= 2 && Through(p, ChordSlope(p, s, t), s, t) == Through(p, ChordSlope(p, t, s), t, s)
  {
    assert p >= 2;
    SlopeCommutes(p, s, t);
    var l := ChordSlope(p, s, t);
    var r := Through(p, l, s, t);
    ResiduesDiffer(p, t.x, s.x);
    EqDifference(t.x, s.x, p);
    EqZero(t.x - s.x, p);
    QuotientIs(t.y - s.y, t.x - s.x, p);
    hide Prime, Quotient;
    BothOrdinates(l, s.x, t.x, r.x);
    EqSum(l * (t.x - s.x), t.y - s.y, l * (s.x - r.x) - t.y, l * (s.x - r.x) - t.y, p);
  }

  lemma {:induction false} BothOrdinates(l: int, x1: int, x2: int, x: int)
    ensures l * (x2 - x) == l * (x2 - x1) + l * (x1 - x)
  {
  }

  lemma {:induction false} SlopeCommutes(p: nat, s: Affine, t: Affine)
    requires Prime(p) && p >= 2 && s.Finite? && t.Finite? && s.x < p && t.x < p && s.x != t.x
    ensures ChordSlope(p, s, t) == ChordSlope(p, t, s)
  {
    var n, d := t.y - s.y, t.x - s.x;
    ResiduesDiffer(p, s.x, t.x);
    EqDifference(s.x, t.x, p);
    EqDifference(t.x, s.x, p);
    EqZero(d, p);
    EqZero(-d, p);
    QuotientIs(n, d, p);
    QuotientIs(-n, -d, p);
    var l, l' := Quotient(n, d, p), Quotient(-n, -d, p);
    NegatedProduct(l', d);
    NegatedProduct(l', -d);
    EqSum(0, 0, l' * -d, -n, p);
    QuotientUnique(l', n, d, p);
    ResiduesDiffer(p, l, l');
  }

  lemma {:induction false} NegatedProduct(a: int, d: int)
    ensures a * -d == -(a * d)
  {
  }

  lemma {:induction false} SumCommutes(p: nat, b: int, s: Affine, t: Affine)
    requires Prime(p) && OnCurve(p, b, s) && OnCurve(p, b, t)
    ensures p >= 2 && EcAdd(p, s, t) == EcAdd(p, t, s)
  {
    assert p >= 2;
    if s.Finite? && t.Finite? && s != t && !(s.x == t.x && (s.y + t.y) % p == 0) {
      if s.x == t.x { EqualOrOpposite(p, b, s, t); }
      ChordCommutes(p, s, t);
      hide OnCurve, Prime, Through, ChordSlope;
    }
  }

  /** The point across the axis. */
  function Opposite(p: nat, s: Affine): Affine
    requires p > 0
  {
    if s.Infinity? then Infinity else Finite(s.x, (p - s.y) % p)
  }

  /** It is on the curve, and the two sum to infinity. */
  lemma {:induction false} SumWithOpposite(p: nat, b: int, s: Affine)
    requires p >= 2 && OnCurve(p, b, s)
    ensures OnCurve(p, b, Opposite(p, s)) && EcAdd(p, s, Opposite(p, s)) == Infinity
  {
    if s.Finite? {
      var v: int := s.y;
      var y := (p - v) % p;
      EqReduced(p - v, p);
      EqBy(p - v, -v, 1, p);
      Self(p, v);
      Transitive(p, y, p - v, -v);
      EqProduct(y, -v, y, -v, p);
      SquareOfNegated(v);
      EqSum(v, v, y, -v, p);
      EqZero(v + y, p);
    }
  }

  // ---------------------------------------------------------------- the group

  /** Of the group only associativity is left to assume. */
  lemma {:induction false} GroupOf(p: nat, b: int)
    requires Prime(p) && p >= 2 && (forall s, t, u :: Associates(p, b, s, t, u)) && (forall s :: NoTwoTorsion(p, b, s))
    ensures CurveGroup(p, b)
  {
    hide OnCurve, EcAdd, Prime, Associates, NoTwoTorsion;
    forall s, t ensures Closed(p, b, s, t) && Commutes(p, b, s, t) {
      if OnCurve(p, b, s) && OnCurve(p, b, t) {
        SumOnCurve(p, b, s, t);
        SumCommutes(p, b, s, t);
      }
    }
  }

  /** Multiples of a point of order two alternate between infinity and the point. */
  lemma {:induction false} OrderTwo(p: nat, n: nat, s: Affine)
    requires p >= 2 && s.Finite? && (s.y + s.y) % p == 0
    ensures Multiple(p, n, s) == if n % 2 == 0 then Infinity else s
  {
    if n > 0 { OrderTwo(p, n - 1, s); }
  }

  /** A point that an odd multiplier annihilates does not have order two. */
  lemma {:induction false} OddOrder(p: nat, b: int, order: nat, s: Affine)
    requires p >= 2 && order % 2 == 1 && (OnCurve(p, b, s) ==> Multiple(p, order, s) == Infinity)
    ensures NoTwoTorsion(p, b, s)
  {
    if s.Finite? {
      EqZero(2 * s.y, p);
      hide OnCurve, EcAdd, Multiple;
      if (s.y + s.y) % p == 0 { OrderTwo(p, order, s); }
    }
  }

  // ---------------------------------------------------------------- multiples

  lemma {:induction false} MultipleOfInfinity(p: nat, n: nat)
    requires p >= 2
    ensures Multiple(p, n, Infinity) == Infinity
  {
    if n > 0 { MultipleOfInfinity(p, n - 1); }
  }

  lemma {:induction false} MultipleProduct(p: nat, b: int, n: nat, d: nat, s: Affine)
    requires CurveGroup(p, b) && OnCurve(p, b, s)
    ensures 0 <= n * d && Multiple(p, n, Multiple(p, d, s)) == Multiple(p, n * d, s)
    decreases n
  {
    hide OnCurve, EcAdd;
    if n == 0 {
      assert n * d == 0;
    } else {
      MultipleProduct(p, b, n - 1, d, s);
      MultipleSum(p, b, (n - 1) * d, d, s);
      M.SubTimes(n, 1, d);
    }
  }

  /** A multiple depends on its multiplier modulo the order. */
  lemma {:induction false} MultipleModulo(p: nat, b: int, order: nat, k: nat, s: Affine)
    requires CurveGroup(p, b) && OnCurve(p, b, s) && order > 0 && Multiple(p, order, s) == Infinity
    ensures 0 <= k % order && Multiple(p, k, s) == Multiple(p, k % order, s)
  {
    M.NonNegative(k, order);
    var q: nat, r: nat := k / order, k % order;
    assert k == q * order + r;
    hide OnCurve, EcAdd, Multiple;
    MultipleProduct(p, b, q, order, s);
    MultipleOfInfinity(p, q);
    MultipleSum(p, b, q * order, r, s);
    AddInfinity(p, Multiple(p, r, s));
  }

  lemma {:induction false} SameMultiple(p: nat, b: int, order: nat, k: nat, l: nat, s: Affine)
    requires CurveGroup(p, b) && OnCurve(p, b, s) && order > 0 && Multiple(p, order, s) == Infinity && Eq(k, l, order)
    ensures Multiple(p, k, s) == Multiple(p, l, s)
  {
    hide OnCurve, EcAdd, Multiple;
    MultipleModulo(p, b, order, k, s);
    MultipleModulo(p, b, order, l, s);
  }

  /** Below a prime order no multiple of a finite point is infinite. */
  lemma {:induction false} NoSmallOrder(p: nat, b: int, order: nat, k: nat, s: Affine)
    requires CurveGroup(p, b) && OnCurve(p, b, s) && s.Finite? && Prime(order) && Multiple(p, order, s) == Infinity
    requires 0 < k < order
    ensures Multiple(p, k, s).Finite?
  {
    assert order >= 2;
    EqZero(k, order);
    M.ModUnique(k, 0, k, order);
    InverseIs(k, order);
    var j := Inverse(k, order);
    hide OnCurve, EcAdd, Multiple, Eq, Prime, CurveGroup, Inverse;
    MultipleProduct(p, b, j, k, s);
    SameMultiple(p, b, order, j * k, 1, s);
    OnceIs(p, s);
    if Multiple(p, k, s) == Infinity { MultipleOfInfinity(p, j); }
  }

  lemma {:induction false} OnceIs(p: nat, s: Affine)
    requires p >= 2
    ensures Multiple(p, 1, s) == s
  {
    assert Multiple(p, 0, s) == Infinity;
  }
}
