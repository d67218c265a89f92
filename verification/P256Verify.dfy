/** The ECDSA verification circuit over P-256, for a prehashed digest. */
module P256Verify {
  import M = Montgomery
  import opened Powers
  import opened Numerals
  import opened Assignments
  import opened NumberTheory
  import opened Residue
  import opened P256Field
  import opened P256Gadgets
  import opened P256Curve
  import opened P256Points
  import opened P256Scalar
  import opened P256Group
  import opened P256Joint

  const P: nat := BASE_MODULUS
  const N: nat := SCALAR_MODULUS
  const CURVE_B: nat := 0x5ac635d8_aa3a93e7_b3ebbd55_769886bc_651d06b0_cc53b0f6_3bce3c3e_27d2604b
  const GENERATOR_X: nat := 0x6b17d1f2_e12c4247_f8bce6e5_63a440f2_77037d81_2deb33a0_f4a13945_d898c296
  const GENERATOR_Y: nat := 0x4fe342e2_fe1a7f9b_8ee7eb4a_7c0f9e16_2bce3357_6b315ece_cbb64068_37bf51f5

  /** What the source says of the whole circuit: its inputs, its witnesses with the inputs, and its rows. */
  const VERIFY_DIGEST_INPUT_BITS: nat := 7 * 256
  const VERIFY_DIGEST_WITNESS_BITS: nat := 1_215_662
  const VERIFY_DIGEST_R1CS_ROWS: nat := 7_061

  function Generator(): Affine {
    Finite(GENERATOR_X, GENERATOR_Y)
  }

  lemma {:induction false} GeneratorOnCurve()
    ensures OnCurve(P, CURVE_B, Generator())
  {
  }

  /** What is taken for granted of the curve: both moduli are prime, the sum is associative, and the order
      annihilates every point. */
  ghost predicate CurveFacts() {
    && Prime(P) && Prime(N) && P >= 2
    && (forall s, t, u :: Associates(P, CURVE_B, s, t, u))
    && (forall s :: Annihilated(s))
  }

  ghost predicate Annihilated(s: Affine)
    requires P >= 2
  {
    OnCurve(P, CURVE_B, s) ==> Multiple(P, N, s) == Infinity
  }

  /** The rest follows: the points are an abelian group, none has order two, and the generator's first multiples
      are finite. */
  lemma {:induction false} FactsGive()
    requires CurveFacts()
    ensures Prime(P) && Prime(N) && CurveGroup(P, CURVE_B) && FarFromInfinity(P, Generator())
    ensures Multiple(P, N, Generator()) == Infinity
  {
    GeneratorOnCurve();
    assert N % 2 == 1 && N >= 256 && Generator().Finite?;
    hide OnCurve, EcAdd, Multiple, Prime, Associates, NoTwoTorsion, Generator;
    assert Annihilated(Generator());
    forall s ensures NoTwoTorsion(P, CURVE_B, s) {
      assert Annihilated(s);
      OddOrder(P, CURVE_B, N, s);
    }
    GroupOf(P, CURVE_B);
    forall k: nat | 0 < k < 256 ensures Multiple(P, k, Generator()).Finite? {
      NoSmallOrder(P, CURVE_B, N, k, Generator());
    }
  }

  // ---------------------------------------------------------------- relaxed residues

  /** A 256-bit word congruent to a value below `4 p`. */
  method RelaxedReduceSmall(c: Circuit, p: nat, x: int) returns (r: nat)
    requires p > 0
    modifies c
    ensures Emits(c, 258, 1)
    ensures r < Pow2(256) && Extends(c)
    ensures c.satisfied ==> Eq(r, x, p)
    ensures IsModulus(p) && 0 <= x < Pow2(256) ==> Completes(c) && (c.honest ==> r == x % p)
  {
    hide Pow2, IsModulus, Eq;
    var q;
    r, q := HintDivision(c, p, 2, x >= 0, x);
    c.AssertZero(x - (r + q * p));
    if c.satisfied { EqBy(x, r, q, p); EqBack(x, r, p); }
    if IsModulus(p) && 0 <= x < Pow2(256) { SmallQuotient(x, p); }
  }

  lemma {:induction false} SmallQuotient(x: nat, p: nat)
    requires IsModulus(p) && x < Pow2(256)
    ensures 0 <= x / p < Pow2(2) && x == x % p + x / p * p
  {
    assert Pow2(2) == 4;
    QuotientFits(x, p, 4) by { hide Pow2; }
  }

  /** A 256-bit word congruent to the product of two words. */
  method RelaxedMul(c: Circuit, p: nat, x: nat, y: nat) returns (r: nat)
    requires p > 0 && x < Pow2(256) && y < Pow2(256)
    modifies c
    ensures Emits(c, 514, 1)
    ensures r < Pow2(256) && Extends(c)
    ensures c.satisfied ==> Eq(r, x * y, p)
    ensures IsModulus(p) ==> Completes(c)
  {
    hide Pow2, IsModulus, Eq;
    var q;
    r, q := HintDivision(c, p, 258, true, x * y);
    c.AssertR1c(x, y, r + q * p);
    if c.satisfied { EqBy(x * y, r, q, p); EqBack(x * y, r, p); }
    if IsModulus(p) { WordProduct(x, y, p); }
  }

  lemma {:induction false} WordProduct(x: nat, y: nat, p: nat)
    requires IsModulus(p) && x < Pow2(256) && y < Pow2(256)
    ensures 0 <= x * y && 0 <= x * y / p < Pow2(258) && x * y == x * y % p + x * y / p * p
  {
    assert Pow2(258) == 4 * Pow2(256);
    TwoFiftySix();
    hide Pow2;
    M.ProductMonotone(0, x, y);
    M.ProductMonotone(x, 2 * p, y);
    M.ProductMonotone(y + 1, 2 * p, 2 * p);
    M.PlusTimes(y, 1, 2 * p);
    M.Assoc(4 * p, p, 1);
    assert 2 * p * (2 * p) == 4 * p * p by { FourSquares(p); }
    QuotientFits(x * y, p, 4 * p);
  }

  lemma {:induction false} FourSquares(p: int)
    ensures 2 * p * (2 * p) == 4 * p * p
  {
  }

  // ---------------------------------------------------------------- the curve equation

  method AssertOnCurve(c: Circuit, p: nat, b: nat, x: nat, y: nat)
    requires IsModulus(p) && b < p && (c.satisfied ==> x < p && y < p)
    modifies c
    ensures Emits(c, 1307, 3)
    ensures Extends(c)
    ensures c.satisfied ==> OnCurve(p, b, Finite(x, y))
    ensures x < p && y < p && OnCurve(p, b, Finite(x, y)) ==> Completes(c)
  {
    assert p > 0 by { Wide265(p); TwoFiftySix(); }
    hide Pow2, IsModulus, Eq, Multipliable, IsWord, RepAdd, RepSub, RepScale;
    var x2 := LazyMul(c, p, WordRep(x), WordRep(x));
    var x3 := LazyMul(c, p, x2, WordRep(x));
    var rhs := RepSub(p, RepAdd(x3, Rep(b, 2)), RepScale(3, WordRep(x)));
    AssertMulEq(c, p, WordRep(y), WordRep(y), rhs);
    if x < p && y < p {
      CurveOperands(p, b, x, y, x2, x3);
      if c.satisfied || OnCurve(p, b, Finite(x, y)) { CurveMeans(p, b, x, y, x2.value, x3.value, rhs.value); }
    }
  }

  lemma {:induction false} CurveOperands(p: nat, b: nat, x: nat, y: nat, x2: Rep, x3: Rep)
    requires IsModulus(p) && b < p && x < p && y < p && IsWord(x2, p) && IsWord(x3, p)
    ensures Multipliable(WordRep(x), WordRep(x), p) && Multipliable(x2, WordRep(x), p) && Multipliable(WordRep(y), WordRep(y), p)
    ensures var rhs := RepSub(p, RepAdd(x3, Rep(b, 2)), RepScale(3, WordRep(x)));
      rhs.Fits(p) && rhs.bound == 10 && Eq(rhs.value, x3.value + b - x * 3, p)
  {
    WordFits(x, p);
    WordFits(y, p);
    hide Pow2, IsModulus;
    RepKeeps(p, x3, Rep(b, 2), 1);
    RepKeeps(p, WordRep(x), WordRep(x), 3);
    RepKeeps(p, RepAdd(x3, Rep(b, 2)), RepScale(3, WordRep(x)), 1);
  }

  /** The circuit's right-hand side is the curve's. */
  lemma {:induction false} CurveMeans(p: nat, b: nat, x: nat, y: nat, x2: int, x3: int, rhs: int)
    requires p > 0 && x < p && y < p && Eq(rhs, x3 + b - x * 3, p)
    ensures Eq(x2, x * x, p) && Eq(x3, x2 * x, p) ==>
      (Eq(y * y, rhs, p) <==> OnCurve(p, b, Finite(x, y)))
  {
    if Eq(x2, x * x, p) && Eq(x3, x2 * x, p) {
      EqProduct(x2, x * x, x, x, p);
      EqSum(x3, x * x * x, b - x * 3, b - x * 3, p);
    }
  }

  // ---------------------------------------------------------------- the verifier

  /** The seven input words. */
  datatype Inputs = Inputs(digest: nat, qx: nat, qy: nat, r: nat, s: nat, rInverse: nat, sInverse: nat) {
    ghost predicate Words() {
      && digest < Pow2(256) && qx < Pow2(256) && qy < Pow2(256) && r < Pow2(256) && s < Pow2(256)
      && rInverse < Pow2(256) && sInverse < Pow2(256)
    }

    /** The public key is a finite point of the curve; `r` and `s` are residues with the given inverses. */
    ghost predicate WellFormed() {
      && qx < P && qy < P && OnCurve(P, CURVE_B, Finite(qx, qy))
      && r < N && s < N && rInverse < N && sInverse < N
      && Eq(r * rInverse, 1, N) && Eq(s * sInverse, 1, N)
    }

    ghost function U1(): nat {
      digest * sInverse % N
    }

    ghost function U2(): nat {
      r * sInverse % N
    }

    /** `u1 G + u2 Q`. */
    ghost function Sum(): Affine {
      EcAdd(P, Multiple(P, U1(), Generator()), Multiple(P, U2(), Finite(qx, qy)))
    }

    /** The signature equation. */
    ghost predicate Verifies() {
      WellFormed() && Sum().Finite? && Sum().x % N == r
    }
  }

  /** Range checks, the curve equation and the inverses. */
  method CheckInputs(c: Circuit, i: Inputs)
    requires i.Words()
    modifies c
    ensures Emits(c, 3373, 11)
    ensures Extends(c)
    ensures c.satisfied ==> i.WellFormed()
    ensures i.WellFormed() ==> Completes(c)
  {
    BothAreModuli();
    ModuliBelow();
    hide Pow2, IsModulus, Eq, OnCurve, Multipliable;
    AssertLt(c, P, i.qx);
    AssertLt(c, P, i.qy);
    AssertLt(c, N, i.r);
    AssertLt(c, N, i.s);
    AssertLt(c, N, i.rInverse);
    AssertLt(c, N, i.sInverse);
    AssertOnCurve(c, P, CURVE_B, i.qx, i.qy);
    InverseOperands(i.r, i.rInverse);
    InverseOperands(i.s, i.sInverse);
    AssertMulEq(c, N, WordRep(i.r), WordRep(i.rInverse), Rep(1, 2));
    AssertMulEq(c, N, WordRep(i.s), WordRep(i.sInverse), Rep(1, 2));
  }

  lemma {:induction false} ModuliBelow()
    ensures P < Pow2(256) && N < Pow2(256)
  {
    BothAreModuli();
    hide Pow2;
  }

  lemma {:induction false} InverseOperands(x: nat, y: nat)
    requires x < Pow2(256) && y < Pow2(256)
    ensures Multipliable(WordRep(x), WordRep(y), N) && Rep(1, 2).Fits(N)
  {
    BothAreModuli();
    WordFits(x, N);
    WordFits(y, N);
    hide Pow2;
  }

  /** The two scalars, reduced. */
  method Scalars(c: Circuit, i: Inputs) returns (u1: nat, u2: nat)
    requires i.Words()
    modifies c
    ensures Emits(c, 2840, 7)
    ensures u1 < Pow2(256) && u2 < Pow2(256) && Extends(c) && Completes(c)
    ensures c.satisfied ==> u1 == i.U1() && u2 == i.U2()
  {
    BothAreModuli();
    hide Pow2, IsModulus, Eq, IsWord;
    var z := RelaxedReduceSmall(c, N, i.digest);
    var u1Relaxed := RelaxedMul(c, N, z, i.sInverse);
    var u2Relaxed := RelaxedMul(c, N, i.r, i.sInverse);
    WordFitsN(u1Relaxed);
    WordFitsN(u2Relaxed);
    u1 := LazyReduce(c, N, WordRep(u1Relaxed));
    u2 := LazyReduce(c, N, WordRep(u2Relaxed));
    if c.satisfied {
      EqFlip(i.digest, z, i.sInverse, u1Relaxed);
      EqResidue(u2Relaxed, i.r * i.sInverse);
    }
  }

  lemma {:induction false} WordFitsN(x: nat)
    requires x < Pow2(256)
    ensures WordRep(x).Fits(N) && WordRep(x).bound == 2
  {
    BothAreModuli();
    WordFits(x, N);
    hide Pow2;
  }

  lemma {:induction false} EqFlip(digest: nat, z: nat, inverse: nat, product: nat)
    requires Eq(z, digest, N) && Eq(product, z * inverse, N)
    ensures product % N == digest * inverse % N
  {
    EqProduct(z, digest, inverse, inverse, N);
  }

  lemma {:induction false} EqResidue(a: int, b: int)
    requires Eq(a, b, N)
    ensures a % N == b % N
  {
  }

  /** The verifier accepts exactly: a satisfied run verifies the signature, and on a signature that
      verifies the honest hints succeed and satisfy every constraint. */
  method VerifyDigest(c: Circuit, i: Inputs, gTable: seq<(nat, nat)>)
    requires i.Words() && CurveFacts() && IsGeneratorTable(P, gTable, Generator())
    modifies c
    ensures Emits(c, VERIFY_DIGEST_WITNESS_BITS - VERIFY_DIGEST_INPUT_BITS, VERIFY_DIGEST_R1CS_ROWS)
    ensures Extends(c)
    ensures c.satisfied ==> i.Verifies()
    ensures i.Verifies() ==> Completes(c)
  {
    hide Inputs.Verifies, Inputs.WellFormed, CurveFacts, IsGeneratorTable, Generator, Pow2;
    VerifiesWellFormed(i);
    CheckInputs(c, i);
    CheckSignature(c, i, gTable);
  }

  lemma {:induction false} VerifiesWellFormed(i: Inputs)
    ensures i.Verifies() ==> i.WellFormed()
  {
  }

  /** The verifier's point, `u1 G + u2 Q`. */
  method VerifierPoint(c: Circuit, i: Inputs, u1: nat, u2: nat, gTable: seq<(nat, nat)>, ghost s: Affine) returns (sum: Point)
    requires i.Words() && CurveFacts() && IsGeneratorTable(P, gTable, Generator()) && (c.satisfied ==> i.WellFormed())
    requires u1 < Pow2(256) && u2 < Pow2(256) && s == if i.WellFormed() then Finite(i.qx, i.qy) else Infinity
    modifies c
    ensures Emits(c, 1206622, 7038)
    ensures Extends(c) && Completes(c)
    ensures c.satisfied ==> Represents(P, sum, EcAdd(P, Multiple(P, u1, Generator()), Multiple(P, u2, s)))
  {
    FactsGive();
    BothAreModuli();
    GeneratorOnCurve();
    hide Pow2, IsModulus, Eq, OnCurve, CurveFacts, CurveGroup, Prime, Represents, IsGeneratorTable, EcAdd, Multiple, Generator,
      FarFromInfinity, Bits, Number, Inputs.WellFormed;
    var q := Point(WordRep(i.qx), WordRep(i.qy), 0);
    KeyRepresents(i, q);
    KeyOnCurve(i, s);
    Exact(256, u1);
    Exact(256, u2);
    sum := JointScalarMul(c, P, Bits(256, u1), Bits(256, u2), q, gTable, CURVE_B, Generator(), s);
  }

  /** The signature equation for well-formed inputs. */
  method CheckSignature(c: Circuit, i: Inputs, gTable: seq<(nat, nat)>)
    requires i.Words() && CurveFacts() && IsGeneratorTable(P, gTable, Generator()) && (c.satisfied ==> i.WellFormed())
    modifies c
    ensures Emits(c, 1210497, 7050)
    ensures Extends(c)
    ensures c.satisfied ==> i.Verifies()
    ensures i.Verifies() ==> Completes(c)
  {
    assert P >= 2 && N >= 2;
    hide Pow2, Eq, CurveFacts, Represents, IsGeneratorTable, EcAdd, Multiple, Generator,
      Inputs.Verifies, Inputs.WellFormed, Inputs.U1, Inputs.U2;
    var u1, u2 := Scalars(c, i);
    ghost var s: Affine := if i.WellFormed() then Finite(i.qx, i.qy) else Infinity;
    var sum := VerifierPoint(c, i, u1, u2, gTable, s);
    c.AssertZero(sum.infinity);
    ghost var point := EcAdd(P, Multiple(P, u1, Generator()), Multiple(P, u2, s));
    if c.satisfied || i.Verifies() { Decides(i, u1, u2, s, point); }
    RightReduced(i);
    if c.satisfied { FlagIsFinite(sum, point); }
    CheckAbscissa(c, i.r, sum, point);
  }

  lemma {:induction false} KeyOnCurve(i: Inputs, s: Affine)
    requires s == if i.WellFormed() then Finite(i.qx, i.qy) else Infinity
    ensures OnCurve(P, CURVE_B, s)
  {
    hide Eq;
  }

  lemma {:induction false} RightReduced(i: Inputs)
    requires i.Words()
    ensures i.r < Pow2(256) && (i.WellFormed() ==> i.r < N)
  {
  }

  lemma {:induction false} FlagIsFinite(sum: Point, point: Affine)
    requires Represents(P, sum, point)
    ensures point.Finite? <==> sum.infinity == 0
  {
  }

  /** For well-formed inputs and the right scalars, the last two checks are the signature equation. */
  lemma {:induction false} Decides(i: Inputs, u1: nat, u2: nat, s: Affine, point: Affine)
    requires CurveFacts() && P >= 2
    requires point == EcAdd(P, Multiple(P, u1, Generator()), Multiple(P, u2, s))
    ensures i.WellFormed() && u1 == i.U1() && u2 == i.U2() && s == Finite(i.qx, i.qy) ==>
      (point.Finite? && point.x % P % N == i.r <==> i.Verifies())
  {
    FactsGive();
    GeneratorOnCurve();
    hide Eq, Generator, EcAdd, Multiple, Prime, CurveFacts, CurveGroup, FarFromInfinity, Inputs.U1, Inputs.U2;
    if i.WellFormed() && u1 == i.U1() && u2 == i.U2() && s == Finite(i.qx, i.qy) {
      CombOnCurve(P, CURVE_B, u1, Generator(), u2, s);
      CombIs(P, u1, Generator(), u2, s);
      if point.Finite? { M.ModUnique(point.x, 0, point.x, P); }
    }
  }

  lemma {:induction false} KeyRepresents(i: Inputs, q: Point)
    requires i.Words() && q == Point(WordRep(i.qx), WordRep(i.qy), 0)
    ensures i.WellFormed() ==> Represents(P, q, Finite(i.qx, i.qy))
  {
    WordFits(i.qx, P);
    WordFits(i.qy, P);
    hide Pow2, OnCurve;
  }

  /** The point is finite and its abscissa reduces to `r`. */
  method CheckAbscissa(c: Circuit, r: nat, sum: Point, ghost point: Affine)
    requires r < Pow2(256)
    requires c.satisfied ==> r < N && Represents(P, sum, point) && sum.infinity == 0 && point.Finite?
    modifies c
    ensures Emits(c, 1035, 4)
    ensures Extends(c)
    ensures c.satisfied ==> point.Finite? && point.x % P % N == r
    ensures point.Finite? && point.x % P % N == r ==> Completes(c)
  {
    BothAreModuli();
    ModuliBelow();
    hide Pow2, IsModulus;
    if c.satisfied { SumFits(sum, point); }
    var x := LazyReduce(c, P, sum.x);
    var xModN := RelaxedReduceSmall(c, N, x);
    c.AssertZero(xModN - r);
    if c.satisfied { M.ModUnique(r, 0, r, N); }
  }

  lemma {:induction false} SumFits(sum: Point, point: Affine)
    requires Represents(P, sum, point) && sum.infinity == 0
    ensures sum.x.Fits(P) && sum.x.bound == 2 && point.Finite? && sum.x.value % P == point.x % P
  {
    BothAreModuli();
    hide Pow2;
  }
}
