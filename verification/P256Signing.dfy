/** What the verification circuit accepts, in the signer's terms (sections 4.1.3 and 4.1.4 of SEC 1). */
module P256Signing {
  import M = Montgomery
  import opened Powers
  import opened NumberTheory
  import opened Residue
  import opened P256Curve
  import opened P256Group
  import opened P256Scalar
  import opened P256Joint
  import opened P256Verify

  // ---------------------------------------------------------------- the domain parameters

  /** The prime of the field as section D.1.2.3 of FIPS 186-4 builds it, and both moduli in decimals. */
  lemma {:induction false} Moduli()
    ensures P == Pow2(256) - Pow2(224) + Pow2(192) + Pow2(96) - 1
    ensures P == 115792089210356248762697446949407573530086143415290314195533631308867097853951
    ensures N == 115792089210356248762697446949407573529996955224135760342422259061068512044369
  {
    M.RIsPower();
    Pow2Sum(128, 128);
    Pow2Sum(128, 96);
    Pow2Sum(128, 64);
    ThirtyTwo();
    hide Pow2;
    Pow2Sum(64, 64);
    Pow2Sum(32, 32);
    Pow2Sum(64, 32);
  }

  /** The curve's coefficient comes from its seed: `b^2 c = -27` for the published hash `c` of the seed. The
      generator lies on the curve, and its order is within Hasse's bound. */
  lemma {:induction false} CurveParameters()
    ensures Eq(CURVE_B * CURVE_B * 0x7efba166_2985be94_03cb055c_75d4f7e0_ce8d84a9_c5114abc_af317768_0104fa0d, -27, P)
    ensures OnCurve(P, CURVE_B, Generator())
    ensures (N - (P + 1)) * (N - (P + 1)) <= 4 * P
  {
    GeneratorOnCurve();
  }

  // ---------------------------------------------------------------- the signature equation

  /** The signature was made with key `d` and nonce `k`: `r` is the abscissa of `k G`, and `k s = z + r d`. */
  ghost predicate MadeWith(i: Inputs, d: nat, k: nat)
    requires P >= 2
  {
    var point := Multiple(P, k, Generator());
    point.Finite? && point.x % N == i.r && Solves(i, d, k)
  }

  ghost predicate Solves(i: Inputs, d: nat, k: nat) {
    Eq(k * i.s, i.digest + i.r * d, N)
  }

  /** A multiplier of the verifier's point. */
  ghost function Nonce(i: Inputs, d: nat): nat {
    M.ProductMonotone(0, i.U2(), d);
    i.U1() + i.U2() * d
  }

  /** That multiplier satisfies the signature equation, and modulo the order nothing else does. */
  lemma {:induction false} NonceOf(i: Inputs, d: nat, k: nat)
    requires i.WellFormed()
    ensures Solves(i, d, k) <==> Eq(k, Nonce(i, d), N)
  {
    NonceIs(i, d);
    hide OnCurve, Eq, Nonce;
    var total := i.digest + i.r * d;
    if Eq(k * i.s, total, N) { Divided(k, i.s, i.sInverse, total, Nonce(i, d)); }
    if Eq(k, Nonce(i, d), N) { Multiplied(k, i.s, i.sInverse, total, Nonce(i, d)); }
  }

  lemma {:induction false} NonceIs(i: Inputs, d: nat)
    ensures Eq(Nonce(i, d), i.sInverse * (i.digest + i.r * d), N)
  {
    EqReduced(i.digest * i.sInverse, N);
    EqReduced(i.r * i.sInverse, N);
    hide Eq, Inputs.U1, Inputs.U2;
    LinearNonce(i.U1(), i.U2(), i.digest, i.r, i.sInverse, d);
  }

  lemma {:induction false} LinearNonce(u: int, v: int, z: int, r: int, t: int, d: int)
    requires Eq(u, z * t, N) && Eq(v, r * t, N)
    ensures Eq(u + v * d, t * (z + r * d), N)
  {
    hide Eq;
    EqSelf(d);
    EqProduct(v, r * t, d, d, N);
    EqSum(u, z * t, v * d, r * t * d, N);
    Factored(z, r, t, d);
  }

  lemma {:induction false} EqSelf(a: int)
    ensures Eq(a, a, N)
  {
  }

  lemma {:induction false} EqChain(a: int, b: int, c: int)
    requires Eq(a, b, N) && Eq(b, c, N)
    ensures Eq(a, c, N) && Eq(c, a, N)
  {
  }

  lemma {:induction false} Factored(z: int, r: int, t: int, d: int)
    ensures z * t + r * t * d == t * (z + r * d)
  {
    M.Reorder(r, t, d);
    M.PlusTimes(z, r * d, t);
  }

  lemma {:induction false} Divided(k: int, s: int, t: int, total: int, nonce: int)
    requires Eq(s * t, 1, N) && Eq(nonce, t * total, N) && Eq(k * s, total, N)
    ensures Eq(k, nonce, N)
  {
    hide Eq;
    EqSelf(t);
    EqSelf(k);
    EqProduct(t, t, k * s, total, N);
    EqProduct(k, k, s * t, 1, N);
    Regrouped(k, s, t);
    EqChain(k, t * (k * s), t * total);
    EqChain(nonce, t * total, k);
  }

  lemma {:induction false} Multiplied(k: int, s: int, t: int, total: int, nonce: int)
    requires Eq(s * t, 1, N) && Eq(nonce, t * total, N) && Eq(k, nonce, N)
    ensures Eq(k * s, total, N)
  {
    hide Eq;
    EqChain(k, nonce, t * total);
    EqSelf(s);
    EqSelf(total);
    EqProduct(k, t * total, s, s, N);
    EqProduct(s * t, 1, total, total, N);
    Regrouped(total, s, t);
    EqChain(k * s, t * total * s, total);
  }

  lemma {:induction false} Regrouped(x: int, s: int, t: int)
    ensures x * (s * t) == t * (x * s) && t * x * s == s * t * x && 1 * x == x * 1 == x
  {
    M.Assoc(x, s, t);
    M.Assoc(t, x, s);
    M.Reorder(t, x, s);
    M.Assoc(s, t, x);
  }

  // ---------------------------------------------------------------- who is accepted

  lemma {:induction false} CombIsMultiple(p: nat, b: int, u: nat, v: nat, d: nat, g: Affine)
    requires CurveGroup(p, b) && OnCurve(p, b, g)
    ensures 0 <= v * d && EcAdd(p, Multiple(p, u, g), Multiple(p, v, Multiple(p, d, g))) == Multiple(p, u + v * d, g)
  {
    hide OnCurve, EcAdd, Multiple;
    MultipleProduct(p, b, v, d, g);
    MultipleSum(p, b, u, v * d, g);
  }

  /** The verifier's point is that multiple of the generator. */
  lemma {:induction false} SumIsMultiple(i: Inputs, d: nat)
    requires CurveFacts() && Finite(i.qx, i.qy) == Multiple(P, d, Generator())
    ensures i.Sum() == Multiple(P, Nonce(i, d), Generator())
  {
    FactsGive();
    GeneratorOnCurve();
    hide CurveFacts, OnCurve, EcAdd, Multiple, Generator, CurveGroup, FarFromInfinity, Inputs.U1, Inputs.U2;
    CombIsMultiple(P, CURVE_B, i.U1(), i.U2(), d, Generator());
  }

  /** For a well-formed input and the key's logarithm: the signature equation holds if and only if some nonce
      made the signature. */
  lemma {:induction false} VerifiesIffMade(i: Inputs, d: nat)
    requires CurveFacts() && i.WellFormed() && Finite(i.qx, i.qy) == Multiple(P, d, Generator())
    ensures i.Verifies() <==> exists k: nat :: MadeWith(i, d, k)
  {
    assert P >= 2;
    SumIsMultiple(i, d);
    NonceOf(i, d, Nonce(i, d));
    SameNonce(Nonce(i, d));
    hide CurveFacts, Multiple, Generator, Eq, Inputs.Sum, Inputs.WellFormed, Nonce, Solves;
    if i.Verifies() { assert MadeWith(i, d, Nonce(i, d)); }
    if k: nat :| MadeWith(i, d, k) { MadeVerifies(i, d, k); }
  }

  lemma {:induction false} SameNonce(k: nat)
    ensures Eq(k, k, N)
  {
  }

  lemma {:induction false} MadeVerifies(i: Inputs, d: nat, k: nat)
    requires CurveFacts() && i.WellFormed() && Finite(i.qx, i.qy) == Multiple(P, d, Generator()) && MadeWith(i, d, k)
    ensures i.Verifies()
  {
    FactsGive();
    GeneratorOnCurve();
    SumIsMultiple(i, d);
    NonceOf(i, d, k);
    hide CurveFacts, OnCurve, EcAdd, Multiple, Generator, CurveGroup, FarFromInfinity, Eq, Nonce, Inputs.Sum, Inputs.WellFormed, Solves;
    SameMultiple(P, CURVE_B, N, k, Nonce(i, d), Generator());
  }

  ghost function SignedScalar(digest: nat, r: nat, d: nat, k: nat): nat {
    Inverse(k, N) * (digest + r * d) % N
  }

  /** The range checks: the key is a point of the curve, `r` and `s` are nonzero residues, and the inverses are
      theirs. */
  lemma {:induction false} WellFormedIff(i: Inputs)
    requires Prime(N) && N >= 2
    ensures i.WellFormed() <==> InRange(i)
  {
    if i.WellFormed() {
      assert i.r < N && i.s < N && i.rInverse < N && i.sInverse < N;
      InverseIffOne(i.r, i.rInverse);
      InverseIffOne(i.s, i.sInverse);
    } else if InRange(i) {
      SmallInverse(i.r);
      SmallInverse(i.s);
    }
  }

  ghost predicate InRange(i: Inputs)
    requires N >= 2
  {
    && i.qx < P && i.qy < P && OnCurve(P, CURVE_B, Finite(i.qx, i.qy))
    && 0 < i.r < N && 0 < i.s < N && i.rInverse == Inverse(i.r, N) && i.sInverse == Inverse(i.s, N)
  }

  lemma {:induction false} InverseIffOne(x: nat, y: nat)
    requires Prime(N) && N >= 2 && x < N && y < N && Eq(x * y, 1, N)
    ensures 0 < x && y == Inverse(x, N)
  {
    assert x > 0;
    SmallInverse(x);
    hide Prime, Inverse;
    M.ModUnique(y, 0, y, N);
    M.ModUnique(x, 0, x, N);
    Commuted(x, y, Inverse(x, N));
    EqZero(x, N);
    Cancel(N, y, Inverse(x, N), x);
    M.ModUnique(Inverse(x, N), 0, Inverse(x, N), N);
  }

  lemma {:induction false} Commuted(x: int, y: int, z: int)
    ensures y * x == x * y && z * x == x * z
  {
  }

  /** Who is accepted: for a key with logarithm `d`, exactly the inputs in range that some nonce made. */
  lemma {:induction false} AcceptedIff(i: Inputs, d: nat)
    requires CurveFacts() && N >= 2 && P >= 2 && Finite(i.qx, i.qy) == Multiple(P, d, Generator())
    ensures i.Verifies() <==> InRange(i) && exists k: nat :: MadeWith(i, d, k)
  {
    WellFormedIff(i);
    hide Multiple, Generator, InRange, MadeWith, CurveGroup, Inputs.Sum;
    if i.WellFormed() { VerifiesIffMade(i, d); }
  }

  /** What a signer with key `d` and nonce `k` makes of a digest, with the inverses the circuit asks for. */
  ghost function Signature(digest: nat, d: nat, k: nat): Inputs
    requires P >= 2 && N >= 2 && Multiple(P, d, Generator()).Finite? && Multiple(P, k, Generator()).Finite?
  {
    var q := Multiple(P, d, Generator());
    var r := Multiple(P, k, Generator()).x % N;
    var s := SignedScalar(digest, r, d, k);
    Inputs(digest, q.x, q.y, r, s, Inverse(r, N), Inverse(s, N))
  }

  /** Whatever a signer makes verifies, when `k`, `r` and `s` are nonzero modulo the order. */
  lemma {:induction false} SignerVerifies(digest: nat, d: nat, k: nat)
    requires CurveFacts() && digest < Pow2(256) && k % N != 0
    requires Multiple(P, d, Generator()).Finite? && Multiple(P, k, Generator()).Finite?
    requires P >= 2 && N >= 2 && Signature(digest, d, k).r != 0 && Signature(digest, d, k).s != 0
    ensures Signature(digest, d, k).Words() && Signature(digest, d, k).Verifies()
  {
    SignerWellFormed(digest, d, k);
    SignerMade(digest, d, k);
    hide CurveFacts, MadeWith, Signature, Multiple, Generator, Pow2, Inputs.Verifies, Inputs.WellFormed, Inputs.Words;
    MadeVerifies(Signature(digest, d, k), d, k);
  }

  lemma {:induction false} SignerMade(digest: nat, d: nat, k: nat)
    requires CurveFacts() && k % N != 0 && Multiple(P, d, Generator()).Finite? && Multiple(P, k, Generator()).Finite?
    requires P >= 2 && N >= 2
    ensures var i := Signature(digest, d, k); MadeWith(i, d, k) && Finite(i.qx, i.qy) == Multiple(P, d, Generator())
  {
    assert Prime(N);
    SignerSolves(digest, d, k);
    hide CurveFacts, Multiple, Generator, SignedScalar, Solves, Inverse, Prime;
  }

  lemma {:induction false} SignerSolves(digest: nat, d: nat, k: nat)
    requires P >= 2 && N >= 2 && Multiple(P, d, Generator()).Finite? && Multiple(P, k, Generator()).Finite?
    requires Prime(N) && k % N != 0
    ensures Solves(Signature(digest, d, k), d, k)
  {
    hide Multiple, Generator, Eq, Inverse, Prime, SignedScalar;
    var i := Signature(digest, d, k);
    SignerEquation(digest, i.r, i.s, d, k);
  }

  lemma {:induction false} SignerWellFormed(digest: nat, d: nat, k: nat)
    requires CurveFacts() && digest < Pow2(256)
    requires Multiple(P, d, Generator()).Finite? && Multiple(P, k, Generator()).Finite?
    requires P >= 2 && N >= 2 && Signature(digest, d, k).r != 0 && Signature(digest, d, k).s != 0
    ensures Signature(digest, d, k).Words() && Signature(digest, d, k).WellFormed()
  {
    ModuliBelow();
    GeneratorOnCurve();
    hide EcAdd, Multiple, Generator, CurveGroup, Eq, Prime, FarFromInfinity, Pow2, Inverse, SignedScalar, CurveFacts;
    var i := Signature(digest, d, k);
    ScalarReduced(digest, i.r, d, k);
    FactsGive();
    MultipleOnCurve(P, CURVE_B, d, Generator());
    SmallInverse(i.r);
    SmallInverse(i.s);
  }

  lemma {:induction false} ScalarReduced(digest: nat, r: nat, d: nat, k: nat)
    ensures SignedScalar(digest, r, d, k) < N
  {
    hide Inverse;
  }

  lemma {:induction false} SmallInverse(x: nat)
    requires Prime(N) && 0 < x < N && N >= 2
    ensures Eq(x * Inverse(x, N), 1, N) && Inverse(x, N) < N
  {
    EqZero(x, N);
    M.ModUnique(x, 0, x, N);
    InverseIs(x, N);
  }

  lemma {:induction false} SignerEquation(digest: nat, r: nat, s: nat, d: nat, k: nat)
    requires Prime(N) && N >= 2 && k % N != 0 && s == SignedScalar(digest, r, d, k)
    ensures Eq(k * s, digest + r * d, N)
  {
    EqZero(k, N);
    InverseIs(k, N);
    hide Eq, Prime, Inverse;
    var total, inverse := digest + r * d, Inverse(k, N);
    EqReduced(inverse * total, N);
    EqSelf(k);
    EqSelf(total);
    EqProduct(k, k, s, inverse * total, N);
    EqProduct(k * inverse, 1, total, total, N);
    M.Assoc(k, inverse, total);
    EqChain(k * s, k * (inverse * total), total);
  }
}
