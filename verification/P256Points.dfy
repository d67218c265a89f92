/** Complete point addition and doubling in the circuit. */
module P256Points {
  import M = Montgomery
  import opened Powers
  import opened Assignments
  import opened NumberTheory
  import opened Residue
  import opened P256Field
  import opened P256Gadgets
  import opened P256Curve

  datatype Point = Point(x: Rep, y: Rep, infinity: int)

  /** Coordinates are 256-bit words and the flag is a bit. */
  ghost predicate Formed(p: nat, a: Point) {
    IsWord(a.x, p) && IsWord(a.y, p) && IsBit(a.infinity)
  }

  /** The coordinates stand for the point's; infinity is `(0, 0, 1)`. */
  ghost predicate Represents(p: nat, a: Point, s: Affine) {
    Formed(p, a) &&
    match s
    case Infinity => a.infinity == 1 && Eq(a.x.value, 0, p) && Eq(a.y.value, 0, p)
    case Finite(x, y) => a.infinity == 0 && Eq(a.x.value, x, p) && Eq(a.y.value, y, p)
  }

  // ---------------------------------------------------------------- the cases

  datatype AddControl = AddControl(sameX: int, oppositeY: int, finite: int, doubleCase: int, active: int)

  ghost predicate ControlMeans(p: nat, a: Point, b: Point, k: AddControl) {
    && IsBit(k.sameX) && IsBit(k.oppositeY) && IsBit(k.finite) && IsBit(k.doubleCase) && IsBit(k.active)
    && (k.sameX == 1 <==> Eq(a.x.value, b.x.value, p))
    && (k.oppositeY == 1 <==> Eq(a.y.value + b.y.value, 0, p))
    && (k.finite == 1 <==> a.infinity == 0 && b.infinity == 0)
    && (k.doubleCase == 1 <==> k.finite == 1 && k.sameX == 1 && k.oppositeY == 0)
    && (k.active == 1 <==> k.finite == 1 && (k.sameX == 0 || k.oppositeY == 0))
  }

  lemma {:induction false} BitProducts(x: int, y: int)
    requires IsBit(x) && IsBit(y)
    ensures IsBit(x * y) && (x * y == 1 <==> x == 1 && y == 1) && IsBit(1 - x)
  {
  }

  /** Word differences fit, and are zero exactly for congruent words. */
  lemma {:induction false} DifferenceOfWords(p: nat, x: Rep, y: Rep)
    requires IsModulus(p) && IsWord(x, p) && IsWord(y, p)
    ensures Testable(RepSub(p, x, y), p) && RepSub(p, x, y).bound == 4
    ensures Eq(RepSub(p, x, y).value, 0, p) <==> Eq(y.value, x.value, p)
  {
    assert p > 0 by { Wide265(p); TwoFiftySix(); }
    RepKeeps(p, x, y, 1);
    EqDifference(x.value, y.value, p);
    EqZero(x.value - y.value, p);
    EqZero(RepSub(p, x, y).value, p);
    hide Pow2, IsModulus;
  }

  lemma {:induction false} SumOfWords(p: nat, x: Rep, y: Rep)
    requires IsModulus(p) && IsWord(x, p) && IsWord(y, p)
    ensures Testable(RepAdd(x, y), p) && RepAdd(x, y).bound == 4
  {
    assert p > 0 by { Wide265(p); TwoFiftySix(); }
    RepKeeps(p, x, y, 1);
    hide Pow2, IsModulus;
  }

  method AddControls(c: Circuit, p: nat, a: Point, b: Point) returns (k: AddControl)
    requires Prime(p) && IsModulus(p) && (c.satisfied ==> Formed(p, a) && Formed(p, b))
    modifies c
    ensures Emits(c, 1066, 8)
    ensures Extends(c) && Completes(c)
    ensures c.satisfied ==> ControlMeans(p, a, b, k)
  {
    assert p >= 2;
    hide Pow2, IsModulus, Prime, Eq, IsWord, Testable;
    if c.satisfied {
      DifferenceOfWords(p, b.x, a.x);
      SumOfWords(p, a.y, b.y);
    }
    var sameX := ZeroTest(c, p, RepSub(p, b.x, a.x));
    var oppositeY := ZeroTest(c, p, RepAdd(a.y, b.y));
    var finite := AndBit(c, 1 - a.infinity, 1 - b.infinity);
    var doubleKind := AndBit(c, sameX, 1 - oppositeY);
    var doubleCase := AndBit(c, finite, doubleKind);
    var genericCase := AndBit(c, finite, 1 - sameX);
    k := AddControl(sameX, oppositeY, finite, doubleCase, doubleCase + genericCase);
    if c.satisfied {
      BitProducts(1 - a.infinity, 1 - b.infinity);
      BitProducts(sameX, 1 - oppositeY);
      BitProducts(finite, doubleKind);
      BitProducts(finite, 1 - sameX);
    }
  }

  // ---------------------------------------------------------------- the slope

  /** The numerator and denominator of the slope that the flags choose. */
  function Numerator(a: Point, b: Point, k: AddControl): int {
    if k.active != 1 then 0
    else if k.doubleCase == 1 then 3 * (a.x.value * a.x.value) - 3
    else b.y.value - a.y.value
  }

  function Denominator(a: Point, b: Point, k: AddControl): int {
    if k.active != 1 then 1
    else if k.doubleCase == 1 then 2 * a.y.value
    else b.x.value - a.x.value
  }

  ghost predicate InFormula(v: int) {
    0 <= v < Pow2(262)
  }

  /** Everything below `2^262` is below 66 moduli. */
  lemma {:induction false} FormulaFits(p: nat, r: Rep)
    requires IsModulus(p) && r.bound == 66 && 0 <= r.value < Pow2(262)
    ensures r.Fits(p)
  {
    Pow2Sum(6, 256);
    assert Pow2(6) == 64;
    hide Pow2;
  }

  lemma {:induction false} FormulaWords(p: nat, a: Point, b: Point, x2: Rep)
    requires IsModulus(p) && Formed(p, a) && Formed(p, b) && IsWord(x2, p)
    ensures InFormula(RepSub(p, RepScale(3, x2), Rep(3, 2)).value) && InFormula(RepSub(p, b.y, a.y).value)
    ensures InFormula(RepSub(p, b.x, a.x).value) && InFormula(RepScale(2, a.y).value)
  {
    Pow2Sum(6, 256);
    assert Pow2(6) == 64;
    TwoFiftySix();
    hide Pow2;
  }

  /** The value the two flags pick. */
  ghost function Picked(k: AddControl, double: int, chord: int, idle: int): int {
    if k.active == 0 then idle else if k.doubleCase == 1 then double else chord
  }

  /** Selects the numerator and denominator: the doubling's, the chord's, or the idle division `0 / 1`. */
  method SelectOperands(c: Circuit, k: AddControl, doubleN: Rep, chordN: Rep, doubleD: Rep, chordD: Rep)
      returns (numerator: Rep, denominator: Rep)
    requires c.satisfied ==> IsBit(k.doubleCase) && IsBit(k.active) && InFormula(doubleN.value) && InFormula(chordN.value)
    requires c.satisfied ==> InFormula(doubleD.value) && InFormula(chordD.value)
    modifies c
    ensures Emits(c, 1048, 4)
    ensures Extends(c) && Completes(c)
    ensures numerator.bound == denominator.bound == 66 && InFormula(numerator.value) && InFormula(denominator.value)
    ensures c.satisfied ==> numerator.value == Picked(k, doubleN.value, chordN.value, 0)
    ensures c.satisfied ==> denominator.value == Picked(k, doubleD.value, chordD.value, 1)
  {
    hide Pow2;
    OneInFormula();
    var selectedN := SelectRep(c, 262, k.doubleCase, doubleN, chordN, 66);
    var selectedD := SelectRep(c, 262, k.doubleCase, doubleD, chordD, 66);
    numerator := SelectRep(c, 262, k.active, selectedN, Rep(0, 2), 66);
    denominator := SelectRep(c, 262, k.active, selectedD, Rep(1, 2), 66);
  }

  lemma {:induction false} OneInFormula()
    ensures InFormula(0) && InFormula(1)
  {
    Pow2Monotone(8, 262);
    assert Pow2(8) == 256;
  }

  method SelectedSlope(c: Circuit, p: nat, a: Point, b: Point, k: AddControl) returns (slope: Rep)
    requires Prime(p) && IsModulus(p)
    requires c.satisfied ==> Formed(p, a) && Formed(p, b) && ControlMeans(p, a, b, k) && !Eq(Denominator(a, b, k), 0, p)
    modifies c
    ensures Emits(c, 2090, 6)
    ensures IsWord(slope, p) && Extends(c) && Completes(c)
    ensures c.satisfied ==> Eq(slope.value * Denominator(a, b, k), Numerator(a, b, k), p)
  {
    assert p >= 2;
    hide Pow2, IsModulus, Prime, Eq, Multipliable, Divisible, IsWord, InFormula, RepSub, RepScale, Numerator, Denominator;
    var dy, dx := RepSub(p, b.y, a.y), RepSub(p, b.x, a.x);
    if c.satisfied { WordsMultiply(p, a.x, a.x); }
    var x2 := LazyMul(c, p, a.x, a.x);
    var doubleNumerator := RepSub(p, RepScale(3, x2), Rep(3, 2));
    var doubleDenominator := RepScale(2, a.y);
    if c.satisfied { FormulaWords(p, a, b, x2); }
    var numerator, denominator := SelectOperands(c, k, doubleNumerator, dy, doubleDenominator, dx);
    if c.satisfied { SlopeOperands(p, a, b, k, x2, numerator, denominator); }
    slope := LazyDivide(c, p, denominator, numerator);
    if c.satisfied { SlopeMeans(p, slope.value, denominator.value, Denominator(a, b, k), numerator.value, Numerator(a, b, k)); }
  }

  lemma {:induction false} WordsMultiply(p: nat, x: Rep, y: Rep)
    requires IsModulus(p) && IsWord(x, p) && IsWord(y, p)
    ensures Multipliable(x, y, p)
  {
  }

  /** The selected operands are the chosen numerator and denominator modulo `p`. */
  lemma {:induction false} SlopeOperands(p: nat, a: Point, b: Point, k: AddControl, x2: Rep, numerator: Rep, denominator: Rep)
    requires p >= 2 && IsModulus(p) && Eq(x2.value, a.x.value * a.x.value, p) && ControlMeans(p, a, b, k)
    requires numerator.bound == denominator.bound == 66
    requires InFormula(numerator.value) && InFormula(denominator.value)
    requires numerator.value == Picked(k, RepSub(p, RepScale(3, x2), Rep(3, 2)).value, RepSub(p, b.y, a.y).value, 0)
    requires denominator.value == Picked(k, RepScale(2, a.y).value, RepSub(p, b.x, a.x).value, 1)
    ensures Eq(numerator.value, Numerator(a, b, k), p) && Eq(denominator.value, Denominator(a, b, k), p)
    ensures !Eq(Denominator(a, b, k), 0, p) ==> Divisible(denominator, numerator, p)
  {
    FormulaFits(p, numerator);
    FormulaFits(p, denominator);
    hide Pow2, IsModulus;
    RepKeeps(p, RepScale(3, x2), Rep(3, 2), 1);
    RepKeeps(p, b.y, a.y, 1);
    RepKeeps(p, b.x, a.x, 1);
    Tripled(p, x2.value, a.x.value * a.x.value);
  }

  lemma {:induction false} Tripled(p: nat, x2: int, square: int)
    requires Eq(x2, square, p)
    ensures Eq(x2 * 3 - 3, 3 * square - 3, p)
  {
    EqProduct(x2, square, 3, 3, p);
    EqSum(x2 * 3, square * 3, 3, 3, p);
  }

  lemma {:induction false} SlopeMeans(p: nat, slope: int, d: int, d': int, n: int, n': int)
    requires Eq(slope * d, n, p) && Eq(d, d', p) && Eq(n, n', p)
    ensures Eq(slope * d', n', p)
  {
    EqProduct(slope, slope, d, d', p);
  }

  // ---------------------------------------------------------------- the third point

  lemma {:induction false} CandidateFits(p: nat, slope: Rep, x: Rep, y: Rep)
    requires IsModulus(p) && IsWord(slope, p) && IsWord(x, p) && IsWord(y, p)
    ensures Multipliable(slope, slope, p) && Multipliable(slope, RepSub(p, x, y), p)
    ensures RepAdd(x, y).Fits(p) && RepScale(2, x).Fits(p) && x.Fits(p) && RepAdd(x, y).bound == 4 && x.bound == 2
  {
    assert p > 0 by { Wide265(p); TwoFiftySix(); }
    RepKeeps(p, x, y, 2);
    hide Pow2, IsModulus;
  }

  /** The third point of a line of the given slope through `(x1, y1)`, where `target` is the sum of the abscissas. */
  method ThirdPoint(c: Circuit, p: nat, slope: Rep, x1: Rep, y1: Rep, target: Rep) returns (x3: Rep, y3: Rep)
    requires Prime(p) && IsModulus(p) && IsWord(slope, p)
    requires c.satisfied ==> IsWord(x1, p) && IsWord(y1, p) && target.Fits(p) && target.bound == 4
    modifies c
    ensures Emits(c, 1042, 2)
    ensures IsWord(x3, p) && IsWord(y3, p) && Extends(c) && Completes(c)
    ensures c.satisfied ==> Eq(x3.value, slope.value * slope.value - target.value, p)
    ensures c.satisfied ==> Eq(y3.value, slope.value * (x1.value - x3.value) - y1.value, p)
  {
    assert p >= 2;
    hide Pow2, IsModulus, Prime, Eq, Multipliable, IsWord;
    if c.satisfied { CandidateFits(p, slope, x1, y1); }
    x3 := LazyMulSub(c, p, slope, slope, target);
    if c.satisfied {
      CandidateFits(p, slope, x1, x3);
      CandidateFits(p, slope, y1, x3);
    }
    y3 := LazyMulSub(c, p, slope, RepSub(p, x1, x3), y1);
    if c.satisfied { OrdinateMeans(p, y3.value, slope.value, x1, x3, y1.value); }
  }

  lemma {:induction false} OrdinateMeans(p: nat, y3: int, slope: int, x1: Rep, x3: Rep, y1: int)
    requires p > 0 && Eq(y3, slope * RepSub(p, x1, x3).value - y1, p)
    ensures Eq(y3, slope * (x1.value - x3.value) - y1, p)
  {
    RepKeeps(p, x1, x3, 1);
    EqProduct(slope, slope, RepSub(p, x1, x3).value, x1.value - x3.value, p);
    EqSum(slope * RepSub(p, x1, x3).value, slope * (x1.value - x3.value), y1, y1, p);
  }

  /** The line's third point is the group law's. */
  lemma {:induction false} ThroughMeans(p: nat, slope: int, s: Affine, t: Affine, x1: int, y1: int, x2: int, x3: int, y3: int, lambda: nat)
    requires p > 0 && s.Finite? && t.Finite? && Eq(slope, lambda, p) && Eq(x1, s.x, p) && Eq(y1, s.y, p) && Eq(x2, t.x, p)
    requires Eq(x3, slope * slope - (x1 + x2), p) && Eq(y3, slope * (x1 - x3) - y1, p)
    ensures var r := Through(p, lambda, s, t); Eq(x3, r.x, p) && Eq(y3, r.y, p)
  {
    var square := lambda * lambda - (s.x + t.x);
    EqProduct(slope, lambda, slope, lambda, p);
    EqSum(x1, s.x, x2, t.x, p);
    EqSum(slope * slope, lambda * lambda, x1 + x2, s.x + t.x, p);
    EqReduced(square, p);
    var x := square % p;
    EqSum(x1, s.x, x3, x, p);
    EqProduct(slope, lambda, x1 - x3, s.x - x, p);
    EqSum(slope * (x1 - x3), lambda * (s.x - x), y1, s.y, p);
    EqReduced(lambda * (s.x - x) - s.y, p);
  }

  // ---------------------------------------------------------------- addition

  /** The outputs the flags choose. */
  ghost predicate Chosen(a: Point, b: Point, k: AddControl, candidate: Point, out: Point) {
    && (k.active == 1 ==> out.x.value == candidate.x.value && out.y.value == candidate.y.value)
    && (k.active == 0 && a.infinity == 1 ==> out.x.value == b.x.value && out.y.value == b.y.value)
    && (k.active == 0 && a.infinity == 0 && b.infinity == 1 ==> out.x.value == a.x.value && out.y.value == a.y.value)
    && (k.active == 0 && a.infinity == 0 && b.infinity == 0 ==> out.x.value == 0 && out.y.value == 0)
    && (out.infinity == a.infinity * b.infinity + k.finite * (k.sameX * k.oppositeY))
  }

  method SelectCanonical(c: Circuit, p: nat, choose: int, whenOne: Rep, whenZero: Rep) returns (r: Rep)
    requires IsModulus(p)
    modifies c
    ensures Emits(c, 256, 1)
    ensures IsWord(r, p) && Extends(c)
    ensures c.satisfied && choose == 1 ==> r.value == whenOne.value
    ensures c.satisfied && choose == 0 ==> r.value == whenZero.value
    ensures IsBit(choose) && 0 <= whenOne.value < Pow2(256) && 0 <= whenZero.value < Pow2(256) ==> Completes(c)
  {
    r := SelectRep(c, 256, choose, whenOne, whenZero, 2);
    WordFits(r.value, p);
  }

  method ChooseOutputs(c: Circuit, p: nat, a: Point, b: Point, k: AddControl, candidate: Point) returns (out: Point)
    requires IsModulus(p) && IsWord(candidate.x, p) && IsWord(candidate.y, p)
    requires c.satisfied ==> Formed(p, a) && Formed(p, b) && ControlMeans(p, a, b, k)
    modifies c
    ensures Emits(c, 1539, 9)
    ensures IsWord(out.x, p) && IsWord(out.y, p) && Extends(c) && Completes(c)
    ensures c.satisfied ==> Chosen(a, b, k, candidate, out)
  {
    hide Pow2, IsModulus, Eq;
    assert Pow2(256) > 0;
    var x0 := SelectCanonical(c, p, b.infinity, a.x, Rep(0, 2));
    var y0 := SelectCanonical(c, p, b.infinity, a.y, Rep(0, 2));
    var inactiveX := SelectCanonical(c, p, a.infinity, b.x, x0);
    var inactiveY := SelectCanonical(c, p, a.infinity, b.y, y0);
    var x := SelectCanonical(c, p, k.active, candidate.x, inactiveX);
    var y := SelectCanonical(c, p, k.active, candidate.y, inactiveY);
    var bothInfinity := AndBit(c, a.infinity, b.infinity);
    var opposite := AndBit(c, k.sameX, k.oppositeY);
    var finiteOpposite := AndBit(c, k.finite, opposite);
    out := Point(x, y, bothInfinity + finiteOpposite);
  }

  /** The denominator the circuit divides by is not zero, for points of the curve. */
  lemma {:induction false} DenominatorNonzero(p: nat, b: int, s: Affine, t: Affine, u: Point, v: Point, k: AddControl)
    requires Prime(p) && OnCurve(p, b, s) && OnCurve(p, b, t) && Represents(p, u, s) && Represents(p, v, t)
    requires ControlMeans(p, u, v, k)
    ensures !Eq(Denominator(u, v, k), 0, p)
  {
    assert p >= 2;
    M.ModUnique(1, 0, 1, p);
    M.ModUnique(0, 0, 0, p);
    if k.active == 1 {
      if k.doubleCase == 1 {
        ResiduesDiffer(p, s.x, t.x);
        EqualOrOpposite(p, b, s, t);
        hide Prime;
        EqSum(u.y.value, s.y, v.y.value, t.y, p);
        EqZero(s.y + t.y, p);
        EqSum(u.y.value, s.y, u.y.value, s.y, p);
      } else {
        hide Prime;
        EqDifference(v.x.value, u.x.value, p);
        EqZero(v.x.value - u.x.value, p);
      }
    }
  }

  /** In the active cases the slope is the group law's. */
  lemma {:induction false} SlopeIs(p: nat, b: int, s: Affine, t: Affine, u: Point, v: Point, k: AddControl, slope: int)
    requires Prime(p) && OnCurve(p, b, s) && OnCurve(p, b, t) && Represents(p, u, s) && Represents(p, v, t)
    requires ControlMeans(p, u, v, k) && k.active == 1 && Eq(slope * Denominator(u, v, k), Numerator(u, v, k), p)
    ensures !(s.x == t.x && (s.y + t.y) % p == 0)
    ensures s == t ==> Eq(slope, TangentSlope(p, s), p)
    ensures s != t ==> Eq(slope, ChordSlope(p, s, t), p)
  {
    assert p >= 2;
    DenominatorNonzero(p, b, s, t, u, v, k);
    ResiduesDiffer(p, s.x, t.x);
    ActiveCases(p, s, t, u, v, k);
    if s == t {
      TangentOperands(p, s, u.x.value, u.y.value);
      SlopeMeans(p, slope, 2 * u.y.value, 2 * s.y, 3 * (u.x.value * u.x.value) - 3, 3 * (s.x * s.x) - 3);
      QuotientUnique(slope, 3 * (s.x * s.x) - 3, 2 * s.y, p);
    } else {
      if s.x == t.x { EqualOrOpposite(p, b, s, t); }
      EqSum(v.y.value, t.y, u.y.value, s.y, p);
      EqSum(v.x.value, t.x, u.x.value, s.x, p);
      SlopeMeans(p, slope, v.x.value - u.x.value, t.x - s.x, v.y.value - u.y.value, t.y - s.y);
      QuotientUnique(slope, t.y - s.y, t.x - s.x, p);
    }
  }

  /** Which case an active addition is in. */
  lemma {:induction false} ActiveCases(p: nat, s: Affine, t: Affine, u: Point, v: Point, k: AddControl)
    requires p >= 2 && Represents(p, u, s) && Represents(p, v, t) && ControlMeans(p, u, v, k) && k.active == 1
    ensures s.Finite? && t.Finite?
    ensures k.sameX == 1 <==> Eq(s.x, t.x, p)
    ensures k.oppositeY == 1 <==> (s.y + t.y) % p == 0
    ensures k.doubleCase == 1 <==> k.sameX == 1
  {
    EqSum(u.y.value, s.y, v.y.value, t.y, p);
    EqZero(s.y + t.y, p);
  }

  lemma {:induction false} TangentOperands(p: nat, s: Affine, x: int, y: int)
    requires s.Finite? && Eq(x, s.x, p) && Eq(y, s.y, p)
    ensures Eq(2 * y, 2 * s.y, p) && Eq(3 * (x * x) - 3, 3 * (s.x * s.x) - 3, p)
  {
    EqProduct(2, 2, y, s.y, p);
    EqProduct(x, s.x, x, s.x, p);
    EqProduct(3, 3, x * x, s.x * s.x, p);
    EqSum(3 * (x * x), 3 * (s.x * s.x), 3, 3, p);
  }

  /** The chosen outputs represent the sum of the points. */
  lemma {:induction false} OutputsAreSum(
    p: nat, b: int, s: Affine, t: Affine, u: Point, v: Point, k: AddControl, slope: int, candidate: Point, out: Point
  )
    requires Prime(p) && OnCurve(p, b, s) && OnCurve(p, b, t) && Represents(p, u, s) && Represents(p, v, t)
    requires ControlMeans(p, u, v, k) && Eq(slope * Denominator(u, v, k), Numerator(u, v, k), p)
    requires Eq(candidate.x.value, slope * slope - (u.x.value + v.x.value), p)
    requires Eq(candidate.y.value, slope * (u.x.value - candidate.x.value) - u.y.value, p)
    requires Chosen(u, v, k, candidate, out) && IsWord(out.x, p) && IsWord(out.y, p)
    ensures Represents(p, out, EcAdd(p, s, t))
  {
    assert p >= 2;
    assert k.active == 1 || k.active == 0;
    hide Prime, OnCurve, IsWord, Eq, Numerator, Denominator, Chosen, ControlMeans, EcAdd, Represents;
    if k.active == 1 {
      SlopeIs(p, b, s, t, u, v, k, slope);
      ActiveCases(p, s, t, u, v, k);
      ActiveFlag(p, u, v, k, candidate, out);
      ActiveSum(p, s, t, u, v, slope, candidate, out);
    } else {
      InactiveOutputs(p, u, v, k, candidate, out);
      Inactive(p, s, t, u, v, k, out, b);
    }
  }

  lemma {:induction false} ActiveFlag(p: nat, u: Point, v: Point, k: AddControl, candidate: Point, out: Point)
    requires ControlMeans(p, u, v, k) && Chosen(u, v, k, candidate, out) && k.active == 1
    ensures out.x.value == candidate.x.value && out.y.value == candidate.y.value && out.infinity == 0
  {
    hide Eq;
    assert k.sameX * k.oppositeY == 0;
    assert u.infinity * v.infinity == 0;
  }

  lemma {:induction false} InactiveOutputs(p: nat, u: Point, v: Point, k: AddControl, candidate: Point, out: Point)
    requires ControlMeans(p, u, v, k) && Chosen(u, v, k, candidate, out) && k.active == 0
    ensures u.infinity == 1 ==> out.x.value == v.x.value && out.y.value == v.y.value
    ensures u.infinity == 0 && v.infinity == 1 ==> out.x.value == u.x.value && out.y.value == u.y.value
    ensures u.infinity == 0 && v.infinity == 0 ==> out.x.value == 0 && out.y.value == 0
    ensures out.infinity == u.infinity * v.infinity + k.finite * (k.sameX * k.oppositeY)
  {
  }

  lemma {:induction false} ActiveSum(p: nat, s: Affine, t: Affine, u: Point, v: Point, slope: int, candidate: Point, out: Point)
    requires p >= 2 && s.Finite? && t.Finite? && Represents(p, u, s) && Represents(p, v, t)
    requires !(s.x == t.x && (s.y + t.y) % p == 0)
    requires Eq(slope, if s == t then TangentSlope(p, s) else ChordSlope(p, s, t), p)
    requires Eq(candidate.x.value, slope * slope - (u.x.value + v.x.value), p)
    requires Eq(candidate.y.value, slope * (u.x.value - candidate.x.value) - u.y.value, p)
    requires out.x.value == candidate.x.value && out.y.value == candidate.y.value && out.infinity == 0
    requires IsWord(out.x, p) && IsWord(out.y, p)
    ensures Represents(p, out, EcAdd(p, s, t))
  {
    var lambda := if s == t then TangentSlope(p, s) else ChordSlope(p, s, t);
    assert EcAdd(p, s, t) == Through(p, lambda, s, t);
    hide TangentSlope, ChordSlope, Through, Eq, IsWord, EcAdd;
    ThroughMeans(p, slope, s, t, u.x.value, u.y.value, v.x.value, candidate.x.value, candidate.y.value, lambda);
  }

  lemma {:induction false} Inactive(p: nat, s: Affine, t: Affine, u: Point, v: Point, k: AddControl, out: Point, b: int)
    requires p >= 2 && OnCurve(p, b, s) && OnCurve(p, b, t) && Represents(p, u, s) && Represents(p, v, t)
    requires ControlMeans(p, u, v, k) && k.active == 0 && IsWord(out.x, p) && IsWord(out.y, p)
    requires out.infinity == u.infinity * v.infinity + k.finite * (k.sameX * k.oppositeY)
    requires u.infinity == 1 ==> out.x.value == v.x.value && out.y.value == v.y.value
    requires u.infinity == 0 && v.infinity == 1 ==> out.x.value == u.x.value && out.y.value == u.y.value
    requires u.infinity == 0 && v.infinity == 0 ==> out.x.value == 0 && out.y.value == 0
    ensures Represents(p, out, EcAdd(p, s, t))
  {
    BitProducts(u.infinity, v.infinity);
    BitProducts(k.sameX, k.oppositeY);
    BitProducts(k.finite, k.sameX * k.oppositeY);
    if s.Finite? && t.Finite? {
      ResiduesDiffer(p, s.x, t.x);
      EqSum(u.y.value, s.y, v.y.value, t.y, p);
      EqZero(s.y + t.y, p);
    }
    hide IsWord;
  }

  /** Complete addition: every satisfied run returns the sum, whichever case the points are in. */
  method AddComplete(c: Circuit, p: nat, u: Point, v: Point, ghost b: int, ghost s: Affine, ghost t: Affine) returns (out: Point)
    requires Prime(p) && IsModulus(p) && OnCurve(p, b, s) && OnCurve(p, b, t)
    requires c.satisfied ==> Represents(p, u, s) && Represents(p, v, t)
    modifies c
    ensures Emits(c, 5737, 25)
    ensures Extends(c) && Completes(c)
    ensures c.satisfied ==> Represents(p, out, EcAdd(p, s, t))
  {
    assert p >= 2;
    hide Pow2, IsModulus, Prime, Eq, IsWord, OnCurve, ControlMeans, EcAdd, Numerator, Denominator, Chosen, Represents;
    if c.satisfied { RepresentsFormed(p, u, s); RepresentsFormed(p, v, t); }
    var k := AddControls(c, p, u, v);
    if c.satisfied { DenominatorNonzero(p, b, s, t, u, v, k); }
    var slope := SelectedSlope(c, p, u, v, k);
    if c.satisfied { CandidateFits(p, slope, u.x, v.x); }
    var x3, y3 := ThirdPoint(c, p, slope, u.x, u.y, RepAdd(u.x, v.x));
    var candidate := Point(x3, y3, 0);
    out := ChooseOutputs(c, p, u, v, k, candidate);
    if c.satisfied { OutputsAreSum(p, b, s, t, u, v, k, slope.value, candidate, out); }
  }

  lemma {:induction false} RepresentsFormed(p: nat, a: Point, s: Affine)
    requires Represents(p, a, s)
    ensures Formed(p, a)
  {
  }

  // ---------------------------------------------------------------- doubling

  lemma {:induction false} DoublingFits(p: nat, u: Point, x2: Rep)
    requires IsModulus(p) && Formed(p, u) && IsWord(x2, p)
    ensures var n := RepAdd(RepSub(p, RepScale(3, x2), Rep(3, 2)), Rep(u.infinity * 3, 1));
      var d := RepAdd(RepScale(2, u.y), Rep(u.infinity, 1));
      && n.Fits(p) && n.bound == 9 && d.Fits(p) && d.bound == 5
      && Eq(n.value, x2.value * 3 - 3 + u.infinity * 3, p) && d.value == u.y.value * 2 + u.infinity
  {
    assert p > 3 by { Wide265(p); TwoFiftySix(); }
    hide Pow2, IsModulus;
    RepKeeps(p, x2, x2, 3);
    RepKeeps(p, RepScale(3, x2), Rep(3, 2), 1);
    RepKeeps(p, RepSub(p, RepScale(3, x2), Rep(3, 2)), Rep(u.infinity * 3, 1), 1);
    RepKeeps(p, u.y, u.y, 2);
    RepKeeps(p, RepScale(2, u.y), Rep(u.infinity, 1), 1);
    EqSum(RepSub(p, RepScale(3, x2), Rep(3, 2)).value, x2.value * 3 - 3, u.infinity * 3, u.infinity * 3, p);
  }

  /** The tangent's slope times its denominator, or zero at infinity. */
  lemma {:induction false} DoublingSlope(p: nat, s: Affine, u: Point, x2: int, slope: int)
    requires Prime(p) && Represents(p, u, s) && Eq(x2, u.x.value * u.x.value, p)
    requires Eq(slope * (u.y.value * 2 + u.infinity), x2 * 3 - 3 + u.infinity * 3, p)
    ensures s.Infinity? ==> Eq(slope, 0, p)
    ensures s.Finite? && !Eq(2 * s.y, 0, p) ==> Eq(slope, TangentSlope(p, s), p)
    ensures s.Finite? && Eq(2 * s.y, 0, p) ==> Eq(3 * (s.x * s.x) - 3, 0, p)
  {
    assert p >= 2;
    hide Prime;
    EqProduct(x2, u.x.value * u.x.value, 3, 3, p);
    EqSum(x2 * 3, u.x.value * u.x.value * 3, 3, 3, p);
    if s.Infinity? {
      InfinitySlope(p, u, x2, slope);
    } else {
      TangentOperands(p, s, u.x.value, u.y.value);
      SlopeMeans(p, slope, 2 * u.y.value, 2 * s.y, x2 * 3 - 3, 3 * (s.x * s.x) - 3);
      if !Eq(2 * s.y, 0, p) { QuotientUnique(slope, 3 * (s.x * s.x) - 3, 2 * s.y, p); }
      else {
        EqProduct(slope, slope, 2 * s.y, 0, p);
      }
    }
  }

  lemma {:induction false} InfinitySlope(p: nat, u: Point, x2: int, slope: int)
    requires p >= 2 && u.infinity == 1 && Eq(u.x.value, 0, p) && Eq(u.y.value, 0, p)
    requires Eq(x2, u.x.value * u.x.value, p) && Eq(slope * (u.y.value * 2 + 1), x2 * 3 - 3 + 3, p)
    ensures Eq(slope, 0, p)
  {
    EqProduct(u.x.value, 0, u.x.value, 0, p);
    EqProduct(x2, 0, 3, 3, p);
    EqProduct(u.y.value, 0, 2, 2, p);
    EqSum(u.y.value * 2, 0, 1, 1, p);
    EqProduct(slope, slope, u.y.value * 2 + 1, 1, p);
  }

  lemma {:induction false} DoublingOutputs(p: nat, s: Affine, u: Point, slope: int, x3: Rep, y3: Rep)
    requires p >= 2 && Represents(p, u, s) && IsWord(x3, p) && IsWord(y3, p)
    requires s.Infinity? ==> Eq(slope, 0, p)
    requires s.Finite? ==> (s.y + s.y) % p != 0 && Eq(slope, TangentSlope(p, s), p)
    requires Eq(x3.value, slope * slope - u.x.value * 2, p)
    requires Eq(y3.value, slope * (u.x.value - x3.value) - u.y.value, p)
    ensures Represents(p, Point(x3, y3, u.infinity), EcAdd(p, s, s))
  {
    hide IsWord;
    if s.Infinity? {
      hide Through;
      EqProduct(slope, 0, slope, 0, p);
      EqProduct(u.x.value, 0, 2, 2, p);
      EqSum(slope * slope, 0, u.x.value * 2, 0, p);
      EqProduct(slope, 0, u.x.value - x3.value, u.x.value - x3.value, p);
      EqSum(slope * (u.x.value - x3.value), 0, u.y.value, 0, p);
    } else {
      assert EcAdd(p, s, s) == Through(p, TangentSlope(p, s), s, s);
      hide TangentSlope, Through, Eq, EcAdd;
      ThroughMeans(p, slope, s, s, u.x.value, u.y.value, u.x.value, x3.value, y3.value, TangentSlope(p, s));
    }
  }

  /** The slope of the tangent, or zero at infinity. */
  method TangentDivision(c: Circuit, p: nat, u: Point, ghost s: Affine) returns (slope: Rep)
    requires Prime(p) && IsModulus(p) && (c.satisfied ==> Represents(p, u, s))
    modifies c
    ensures Emits(c, 1042, 2)
    ensures IsWord(slope, p) && Extends(c)
    ensures s.Infinity? || !Eq(2 * s.y, 0, p) ==> Completes(c)
    ensures c.satisfied && s.Infinity? ==> Eq(slope.value, 0, p)
    ensures c.satisfied && s.Finite? && !Eq(2 * s.y, 0, p) ==> Eq(slope.value, TangentSlope(p, s), p)
    ensures c.satisfied && s.Finite? && Eq(2 * s.y, 0, p) ==> Eq(3 * (s.x * s.x) - 3, 0, p)
  {
    assert p >= 2;
    hide Pow2, IsModulus, Prime, Eq, Multipliable, Divisible, IsWord, Represents, TangentSlope, RepSub, RepAdd, RepScale;
    if c.satisfied { RepresentsFormed(p, u, s); WordsMultiply(p, u.x, u.x); }
    var x2 := LazyMul(c, p, u.x, u.x);
    var numerator := RepAdd(RepSub(p, RepScale(3, x2), Rep(3, 2)), Rep(u.infinity * 3, 1));
    var denominator := RepAdd(RepScale(2, u.y), Rep(u.infinity, 1));
    if c.satisfied {
      DoublingFits(p, u, x2);
      DoublingDenominator(p, s, u, denominator, numerator);
    }
    slope := LazyDivide(c, p, denominator, numerator);
    if c.satisfied {
      DoublingRelation(p, slope.value, denominator.value, numerator.value, x2.value * 3 - 3 + u.infinity * 3);
      DoublingSlope(p, s, u, x2.value, slope.value);
    }
  }

  /** Doubling: the sum of the point with itself, infinity included. A point whose ordinate is zero has no
      satisfied run, unless its tangent is undefined too. */
  method DoubleComplete(c: Circuit, p: nat, u: Point, ghost s: Affine) returns (out: Point)
    requires Prime(p) && IsModulus(p) && (c.satisfied ==> Represents(p, u, s))
    modifies c
    ensures Emits(c, 2084, 4)
    ensures Extends(c)
    ensures s.Infinity? || !Eq(2 * s.y, 0, p) ==> Completes(c)
    ensures c.satisfied && (s.Infinity? || !Eq(2 * s.y, 0, p)) ==> Represents(p, out, EcAdd(p, s, s))
    ensures s.Finite? && Eq(2 * s.y, 0, p) && c.satisfied ==> Eq(3 * (s.x * s.x) - 3, 0, p)
  {
    assert p >= 2;
    hide Pow2, IsModulus, Prime, Eq, IsWord, Represents, EcAdd, TangentSlope, RepScale;
    if c.satisfied { RepresentsFormed(p, u, s); }
    var slope := TangentDivision(c, p, u, s);
    if c.satisfied {
      CandidateFits(p, slope, u.x, u.x);
      TwiceWord(u.x);
    }
    var x3, y3 := ThirdPoint(c, p, slope, u.x, u.y, RepScale(2, u.x));
    out := Point(x3, y3, u.infinity);
    if c.satisfied && (s.Infinity? || !Eq(2 * s.y, 0, p)) {
      OrdinateNonzero(p, s);
      DoublingOutputs(p, s, u, slope.value, x3, y3);
    }
  }

  lemma {:induction false} TwiceWord(x: Rep)
    requires x.bound == 2
    ensures RepScale(2, x).bound == 4 && RepScale(2, x).value == x.value * 2
  {
  }

  lemma {:induction false} OrdinateNonzero(p: nat, s: Affine)
    requires p >= 2 && (s.Infinity? || !Eq(2 * s.y, 0, p))
    ensures s.Finite? ==> (s.y + s.y) % p != 0
  {
    if s.Finite? { EqZero(2 * s.y, p); }
  }

  lemma {:induction false} DoublingRelation(p: nat, slope: int, d: int, n: int, n': int)
    requires Eq(slope * d, n, p) && Eq(n, n', p)
    ensures Eq(slope * d, n', p)
  {
  }

  lemma {:induction false} DoublingDenominator(p: nat, s: Affine, u: Point, d: Rep, n: Rep)
    requires p >= 2 && IsModulus(p) && Represents(p, u, s) && d.value == u.y.value * 2 + u.infinity
    requires d.Fits(p) && d.bound == 5 && n.Fits(p) && n.bound == 9
    ensures s.Infinity? || !Eq(2 * s.y, 0, p) ==> Divisible(d, n, p)
  {
    hide IsModulus;
    M.ModUnique(1, 0, 1, p);
    M.ModUnique(0, 0, 0, p);
    match s
    case Infinity =>
      EqProduct(u.y.value, 0, 2, 2, p);
      EqSum(u.y.value * 2, 0, 1, 1, p);
    case Finite(x, y) => EqProduct(2, 2, u.y.value, y, p);
  }
}
