/** From an inner-product claim on packed bits to an evaluation claim: the closing sumcheck, its first
    round off the bits, and the verifier that evaluates the factors. */
module PostGkr {
  import opened Wrappers
  import opened FiniteField
  import opened Multilinear
  import opened Powers
  import opened Cubes
  import opened ChallengeCounting
  import opened Transcript
  import opened Sumcheck
  import opened SumcheckProtocol
  import opened Transposes
  import opened BitWeights
  import F = Folds
  import R = Reduction
  import V = VirtualMap

  datatype ProveError = WitnessLengthMismatch | ClaimDoesNotHold

  /** Row and column factors of the claim's shape. */
  ghost predicate Shaped(factors: Factors, t: nat, s: nat) {
    t >= 7 && |factors.rows| == Pow2(t) && |factors.columns| == Pow2(s)
  }

  lemma {:induction false} ShapedSizes(K: Field, factors: Factors, t: nat, s: nat)
    requires Shaped(factors, t, s)
    ensures factors.Valid() && factors.PackedLen() * BITS == Pow2(t + s) == |factors.Weights(K)|
    ensures factors.PackedLen() * 64 == Pow2(t + s - 1)
  {
    WeightsLength(K, factors);
    RowsInWords(factors.rows);
    Reordered(factors.PerColumn(), |factors.columns|);
    Pow2Sum(t, s);
    assert Pow2(t + s) == 2 * Pow2(t + s - 1);
  }

  // ---------------------------------------------------------------- the tables written out

  ghost function WeightCube(K: Field, factors: Factors, t: nat, s: nat): (cube: Cube)
    requires Shaped(factors, t, s)
    ensures Full(cube, t + s)
  {
    ShapedSizes(K, factors, t, s);
    CubeOf(factors.Weights(K), t + s)
  }

  ghost function BitCube(K: Field, bits: seq<bool>, n: nat): (cube: Cube)
    requires |bits| == Pow2(n)
    ensures Full(cube, n)
  {
    CubeOf(Elems(K, bits), n)
  }

  lemma {:induction false} BindAllFirst(K: Field, t: Cube, c: Elem, rest: seq<Elem>)
    ensures BindAll(K, t, [c] + rest) == BindAll(K, BindLow(K, t, c), rest)
    decreases |rest|
  {
    var all := [c] + rest;
    if |rest| == 0 {
      assert all == [c] && all[..0] == [];
    } else {
      var n := |rest| - 1;
      assert all[..|all| - 1] == [c] + rest[..n];
      BindAllFirst(K, t, c, rest[..n]);
    }
  }

  /** The honest records are the first message and those of the tables bound at the first challenge. */
  lemma {:induction false} RecordsFirst(K: Field, w: Cube, v: Cube, c: Elem, rest: seq<Elem>)
    ensures HonestRecords(K, w, v, [c] + rest)
      == [Constant(K, w, v), Leading(K, w, v)] + HonestRecords(K, BindLow(K, w, c), BindLow(K, v, c), rest)
    decreases |rest|
  {
    hide Constant, Leading, BindLow, BindAll;
    var all := [c] + rest;
    if |rest| == 0 {
      assert all == [c] && all[..0] == [];
      HonestFirst(K, w, v, c);
      HonestFirst(K, BindLow(K, w, c), BindLow(K, v, c), c);
      HonestNext(K, w, v, c, [], c);
      assert [] + [c] == all;
    } else {
      var n := |rest| - 1;
      assert all[..|all| - 1] == [c] + rest[..n];
      RecordsFirst(K, w, v, c, rest[..n]);
      BindAllFirst(K, w, c, rest[..n]);
      BindAllFirst(K, v, c, rest[..n]);
    }
  }

  lemma {:induction false} DrawnFirst(challenges: nat -> Elem, from: nat, n: nat)
    ensures Drawn(challenges, from, n + 1) == [challenges(from)] + Drawn(challenges, from + 1, n)
  {
    if n == 0 {
      assert Drawn(challenges, from, 1) == Drawn(challenges, from, 0) + [challenges(from)];
    } else {
      DrawnFirst(challenges, from, n - 1);
    }
  }

  /** A table folded at the first coordinate has the table's extension at the rest. */
  lemma {:induction false} FoldedMle(K: Field, table: seq<Elem>, c: Elem, rest: seq<Elem>)
    requires K.Valid() && |table| == Pow2(|rest| + 1)
    ensures |Folded(K, table, c)| == Pow2(|rest|) && |[c] + rest| == |rest| + 1
    ensures Mle(K, Folded(K, table, c), rest) == Mle(K, table, [c] + rest)
  {
    hide Mle, Extension, CubeOf, BindLow, Folded;
    var n := |rest|;
    FoldedCube(K, table, n, c);
    ExtensionIsMle(K, Folded(K, table, c), rest);
    ExtensionIsMle(K, table, [c] + rest);
    BindLowExtension(K, CubeOf(table, n + 1), c, rest);
  }

  // ---------------------------------------------------------------- the prover

  /** What the prover leaves on a claim that holds: the generic prover's records on the tables written
      out, and the evaluation claim. */
  ghost predicate Proved(
    K: Field, factors: Factors, t: nat, s: nat, bits: seq<bool>, rho: seq<Elem>, added: seq<Elem>, query: V.OpeningQuery
  )
    requires Shaped(factors, t, s) && |bits| == Pow2(t + s) == Pow2(|rho|)
  {
    var e := Mle(K, Elems(K, bits), rho);
    && added == Played(Honest(K, WeightCube(K, factors, t, s), BitCube(K, bits, t + s)), rho) + [e]
    && query == V.Mle(rho, e)
  }

  lemma {:induction false} FoldedLengths(K: Field, factors: Factors, t: nat, s: nat, bits: seq<bool>, c: Elem)
    requires Shaped(factors, t, s) && |bits| == Pow2(t + s)
    ensures |Folded(K, factors.Weights(K), c)| == |Folded(K, Elems(K, bits), c)| == Pow2(t + s - 1)
  {
    hide Folded;
    ShapedSizes(K, factors, t, s);
    assert Pow2(t + s) == 2 * Pow2(t + s - 1);
  }

  /** The first message is that of the tables written out. */
  lemma {:induction false} MessageOff(
    K: Field, factors: Factors, t: nat, s: nat, bits: seq<bool>, a0: Elem, a2: Elem, half: nat
  )
    requires K.Valid() && Shaped(factors, t, s) && |bits| == Pow2(t + s)
    requires 2 * half == |bits| == |factors.Weights(K)|
    requires a0 == ConstantSum(K, factors.Weights(K), Elems(K, bits), half)
    requires a2 == LeadingSum(K, factors.Weights(K), Elems(K, bits), half)
    ensures a0 == Constant(K, WeightCube(K, factors, t, s), BitCube(K, bits, t + s))
    ensures a2 == Leading(K, WeightCube(K, factors, t, s), BitCube(K, bits, t + s))
  {
    hide CubeOf, ConstantSum, LeadingSum, Constant, Leading, Factors.Weights, Elems, Pow2;
    ShapedSizes(K, factors, t, s);
    assert half == Pow2(t + s - 1);
    SumsAreTrees(K, factors.Weights(K), Elems(K, bits), t + s - 1);
  }

  /** The generic prover's records start with the first message and go on on the bound tables. */
  lemma {:induction false} PlayedFirst(K: Field, w: Cube, v: Cube, c: Elem, rest: seq<Elem>)
    ensures Played(Honest(K, w, v), [c] + rest)
      == [Constant(K, w, v), Leading(K, w, v)] + Played(Honest(K, BindLow(K, w, c), BindLow(K, v, c)), rest)
  {
    hide BindLow, Constant, Leading, HonestRecords, Played, Honest;
    RecordsFirst(K, w, v, c, rest);
    HonestIsPlayed(K, w, v, c, [c] + rest);
    HonestIsPlayed(K, BindLow(K, w, c), BindLow(K, v, c), c, rest);
  }

  lemma {:induction false} CubesAre(K: Field, factors: Factors, t: nat, s: nat, bits: seq<bool>, m: nat)
    requires Shaped(factors, t, s) && |bits| == Pow2(m) && m == t + s
    ensures |factors.Weights(K)| == Pow2(m) && WeightCube(K, factors, t, s) == CubeOf(factors.Weights(K), m)
    ensures BitCube(K, bits, m) == CubeOf(Elems(K, bits), m)
  {
    hide CubeOf, Pow2, Factors.Weights, Elems;
    ShapedSizes(K, factors, t, s);
  }

  /** The prover's result and the records it leaves. */
  ghost predicate ProverOutcome(
    K: Field, factors: Factors, t: nat, s: nat, target: Elem, packed: seq<Bits>, rho: seq<Elem>,
    before: seq<Elem>, after: seq<Elem>, result: Result<V.OpeningQuery, ProveError>
  )
    requires Shaped(factors, t, s) && |rho| == t + s
  {
    if |packed| != factors.PackedLen() then result == Err(WitnessLengthMismatch) && after == before
    else
      ShapedSizes(K, factors, t, s);
      var bits := F.Flat(packed);
      if R.BitSum(K, bits, factors.Weights(K)) != target then result == Err(ClaimDoesNotHold) && after == before
      else result.Ok? && before <= after && Proved(K, factors, t, s, bits, rho, after[|before|..], result.value)
  }

  /** Checks the claim, sends the first message off the bits and runs the rest on the bound tables. */
  method ProveFactors(K: Field, ps: ProverState, factors: Factors, target: Elem, packed: seq<Bits>, ghost t: nat, ghost s: nat)
      returns (result: Result<V.OpeningQuery, ProveError>)
    requires K.Valid() && Shaped(factors, t, s)
    modifies ps
    ensures ProverOutcome(K, factors, t, s, target, packed, Drawn(ps.challenges, old(ps.drawn), t + s),
      old(ps.records), ps.records, result)
  {
    hide BindLow, Constant, Leading, R.BitSum, Factors.Weights, F.Flat, Proved, ConstantSum, LeadingSum, Folded, Played, Honest, CubeOf,
      Mle, Drawn, Pow2, Factors.PackedLen, Factors.Valid, WeightCube, BitCube, Full, Advance, Elems;
    ShapedSizes(K, factors, t, s);
    if |packed| != factors.PackedLen() { return Err(WitnessLengthMismatch); }
    var sum := WeightedSum(K, factors, packed);
    if sum != target { return Err(ClaimDoesNotHold); }
    ghost var before, from, n := ps.records, ps.drawn, t + s - 1;
    var a0, a2 := FirstMessage(K, factors, packed);
    ps.Send([a0, a2]);
    var challenge := ps.Challenge();
    var running := Advance(K, target, a0, a2, challenge);
    var weights := FoldFactors(K, factors, challenge);
    var values := BindFirst(K, packed, challenge);
    ghost var rest := Drawn(ps.challenges, from + 1, n);
    FoldedLengths(K, factors, t, s, F.Flat(packed), challenge);
    DrawnFirst(ps.challenges, from, n);
    var pair := new Pair(weights, values[..]);
    var rounds := TrailingZeros(|weights|);
    TrailingZerosOfPower(n);
    var point, evaluation := Prove(K, pair, rounds, running, ps);
    result := Ok(V.Mle([challenge] + point, evaluation));
    ghost var played := Played(Honest(K, CubeOf(weights, n), CubeOf(values[..], n)), rest);
    MessageOff(K, factors, t, s, F.Flat(packed), a0, a2, |packed| * 64);
    CubesAre(K, factors, t, s, F.Flat(packed), n + 1);
    FoldedCube(K, factors.Weights(K), n, challenge);
    FoldedCube(K, Elems(K, F.Flat(packed)), n, challenge);
    FoldedMle(K, Elems(K, F.Flat(packed)), challenge, rest);
    PlayedFirst(K, WeightCube(K, factors, t, s), BitCube(K, F.Flat(packed), t + s), challenge, rest);
    RecordsAppended(before, [a0, a2], played, [evaluation], ps.records);
    LeftIsProved(K, factors, t, s, F.Flat(packed), [challenge] + point, [a0, a2], played, evaluation);
  }

  lemma {:induction false} LeftIsProved(
    K: Field, factors: Factors, t: nat, s: nat, bits: seq<bool>, rho: seq<Elem>, first: seq<Elem>, played: seq<Elem>, e: Elem
  )
    requires Shaped(factors, t, s) && |bits| == Pow2(t + s) && |rho| == t + s && e == Mle(K, Elems(K, bits), rho)
    requires Played(Honest(K, WeightCube(K, factors, t, s), BitCube(K, bits, t + s)), rho) == first + played
    ensures Proved(K, factors, t, s, bits, rho, first + (played + [e]), V.Mle(rho, e))
  {
    hide Mle, CubeOf, Played, Honest, Pow2;
    assert first + (played + [e]) == first + played + [e];
  }

  lemma {:induction false} RecordsAppended(before: seq<Elem>, first: seq<Elem>, played: seq<Elem>, last: seq<Elem>, after: seq<Elem>)
    requires after == before + first + played + last
    ensures |before| <= |after| && after[..|before|] == before && after[|before|..] == first + (played + last)
  {
  }

  // ---------------------------------------------------------------- the verifier

  /** A product of factors against a product of weights. */
  lemma {:induction false} TensorDot(K: Field, a: seq<Elem>, b: seq<Elem>, c: seq<Elem>, d: seq<Elem>)
    requires K.Valid() && |a| == |c| && |b| == |d|
    ensures |Tensor(K, a, b)| == |Tensor(K, c, d)|
    ensures Dot(K, Tensor(K, a, b), Tensor(K, c, d)) == K.mul(Dot(K, a, c), Dot(K, b, d))
    decreases |b|
  {
    hide Tensor, Scale, Dot;
    if |b| == 0 {
      V.NoTensor(K, a);
      V.NoTensor(K, c);
      NoDot(K);
      assert b == [] && d == [];
      K.Units(Dot(K, a, c));
    } else {
      var n := |b| - 1;
      TensorDot(K, a, b[..n], c, d[..n]);
      TensorTop(K, a, b);
      TensorTop(K, c, d);
      DotConcat(K, Tensor(K, a, b[..n]), Tensor(K, c, d[..n]), Scale(K, b[n], a), Scale(K, d[n], c));
      ScaledDot(K, b[n], a, d[n], c);
      DotNext(K, b, d);
      K.Dist(Dot(K, a, c), Dot(K, b[..n], d[..n]), K.mul(b[n], d[n]));
      K.Comm(Dot(K, a, c), K.mul(b[n], d[n]));
    }
  }

  lemma {:induction false} NoDot(K: Field)
    ensures Dot(K, [], []) == K.zero
  {
  }

  lemma {:induction false} DotNext(K: Field, a: seq<Elem>, b: seq<Elem>)
    requires |a| == |b| > 0
    ensures var n := |a| - 1; Dot(K, a, b) == K.add(Dot(K, a[..n], b[..n]), K.mul(a[n], b[n]))
  {
  }

  lemma {:induction false} ScaledDot(K: Field, x: Elem, a: seq<Elem>, y: Elem, c: seq<Elem>)
    requires K.Valid() && |a| == |c|
    ensures Dot(K, Scale(K, x, a), Scale(K, y, c)) == K.mul(K.mul(x, y), Dot(K, a, c))
  {
    if |a| == 0 {
      K.Units(K.mul(x, y));
    } else {
      var n := |a| - 1;
      ScaledDot(K, x, a[..n], y, c[..n]);
      assert Scale(K, x, a)[..n] == Scale(K, x, a[..n]) && Scale(K, y, c)[..n] == Scale(K, y, c[..n]);
      K.Dist(K.mul(x, y), Dot(K, a[..n], c[..n]), K.mul(a[n], c[n]));
      ProductPairs(K, x, a[n], y, c[n]);
    }
  }

  lemma {:induction false} ProductPairs(K: Field, x: Elem, a: Elem, y: Elem, c: Elem)
    requires K.Valid()
    ensures K.mul(K.mul(x, a), K.mul(y, c)) == K.mul(K.mul(x, y), K.mul(a, c))
  {
    K.Assoc(x, a, K.mul(y, c));
    K.Swap(a, y, c);
    K.Assoc(x, y, K.mul(a, c));
  }

  /** The extension of the weights is the product of the factors' extensions. */
  lemma {:induction false} FactoredMle(K: Field, factors: Factors, t: nat, s: nat, point: seq<Elem>)
    requires K.Valid() && Shaped(factors, t, s) && |point| == t + s
    ensures |factors.Weights(K)| == Pow2(|point|)
    ensures Mle(K, factors.Weights(K), point)
      == K.mul(Mle(K, factors.rows, point[..t]), Mle(K, factors.columns, point[t..]))
  {
    hide Dot, Tensor, Pow2;
    ShapedSizes(K, factors, t, s);
    assert point[..t] + point[t..] == point;
    WeightsTensor(K, point[..t], point[t..]);
    TensorDot(K, factors.rows, factors.columns, Weights(K, point[..t]), Weights(K, point[t..]));
  }

  /** Replays the rounds and checks the closing evaluation against the factors' evaluations. */
  method VerifyFactors(K: Field, vs: VerifierState, factors: Factors, target: Elem, ghost t: nat, ghost s: nat) returns (verdict: Verdict)
    requires K.Valid() && vs.Valid() && Shaped(factors, t, s)
    modifies vs
    ensures Full(WeightCube(K, factors, t, s), t + s)
    ensures verdict == Judged(K, WeightCube(K, factors, t, s), target, old(vs.Rest()), Drawn(vs.challenges, old(vs.drawn), t + s))
  {
    hide Advance, Running, Replayed, Reading, EvaluateSerial, Mle, Extension, CubeOf, Drawn, Pow2, Factors.Weights;
    ShapedSizes(K, factors, t, s);
    TrailingZerosOfPower(t);
    TrailingZerosOfPower(s);
    var logRows := TrailingZeros(|factors.rows|);
    var rounds := logRows + TrailingZeros(|factors.columns|);
    var replay := VerifyRounds(K, rounds, target, vs);
    if replay.None? { return MalformedProof; }
    var (point, running) := replay.value;
    ReplayedIsRunning(K, target, old(vs.Rest()), point);
    EvaluateSerialIsMle(K, factors.rows, point[..logRows]);
    EvaluateSerialIsMle(K, factors.columns, point[logRows..]);
    FactoredMle(K, factors, t, s, point);
    ExtensionIsMle(K, factors.Weights(K), point);
    var weight := K.mul(EvaluateSerial(K, factors.rows, point[..logRows]), EvaluateSerial(K, factors.columns, point[logRows..]));
    var evaluation := vs.ReadOne();
    if evaluation.None? { return MalformedProof; }
    if K.mul(weight, evaluation.value) != running { return EvaluationMismatch; }
    return Accepted(point, evaluation.value);
  }

  // ---------------------------------------------------------------- the reduction as a whole

  /** The claim as a query, and what it says. */
  function ClaimQuery(factors: Factors, target: Elem): V.OpeningQuery {
    V.Factored(R.InnerProduct(factors.rows, factors.columns, target))
  }

  lemma {:induction false} ClaimIsInner(K: Field, factors: Factors, t: nat, s: nat, target: Elem, bits: seq<bool>)
    requires K.Valid() && Shaped(factors, t, s) && |bits| == Pow2(t + s)
    ensures V.Holds(K, ClaimQuery(factors, target), t, s, bits)
      <==> target == Inner(K, WeightCube(K, factors, t, s), BitCube(K, bits, t + s))
    ensures |factors.Weights(K)| == |bits|
    ensures V.Holds(K, ClaimQuery(factors, target), t, s, bits) <==> target == R.BitSum(K, bits, factors.Weights(K))
  {
    hide R.BitSum, V.GridSum, CubeOf, Pow2, Dot, Tensor;
    ShapedSizes(K, factors, t, s);
    Pow2Sum(t, s);
    V.GridIsFlat(K, bits, factors.rows, factors.columns);
    InnerIsDot(K, factors.Weights(K), Elems(K, bits), t + s);
    DotBits(K, factors.Weights(K), bits);
  }

  lemma {:induction false} EvaluationIsMle(K: Field, bits: seq<bool>, t: nat, s: nat, rho: seq<Elem>, e: Elem)
    requires K.Valid() && |bits| == Pow2(t + s) && |rho| == t + s
    ensures V.Holds(K, V.Mle(rho, e), t, s, bits) <==> e == Extension(K, BitCube(K, bits, t + s), rho)
    ensures Extension(K, BitCube(K, bits, t + s), rho) == Mle(K, Elems(K, bits), rho)
  {
    hide R.BitSum, CubeOf, Pow2, Dot, Weights;
    ExtensionIsMle(K, Elems(K, bits), rho);
    DotBits(K, Weights(K, rho), bits);
    DotCommutes(K, Elems(K, bits), Weights(K, rho));
  }

  lemma {:induction false} DotCommutes(K: Field, a: seq<Elem>, b: seq<Elem>)
    requires K.Valid() && |a| == |b|
    ensures Dot(K, a, b) == Dot(K, b, a)
  {
    if |a| > 0 {
      var n := |a| - 1;
      DotCommutes(K, a[..n], b[..n]);
      K.Comm(a[n], b[n]);
    }
  }

  /** On these records the verifier accepts, and is left with this evaluation claim, which holds of the bits. */
  ghost predicate Conveys(
    K: Field, factors: Factors, t: nat, s: nat, target: Elem, bits: seq<bool>, records: seq<Elem>, rho: seq<Elem>, query: V.OpeningQuery
  )
    requires Shaped(factors, t, s) && |rho| == t + s
  {
    && query.Mle? && V.Holds(K, query, t, s, bits)
    && Judged(K, WeightCube(K, factors, t, s), target, records, rho) == Accepted(query.point, query.target)
  }

  /** Completeness: what the prover leaves on a claim that holds, the verifier accepts on the same
      challenges, with an evaluation claim that holds of the bits. */
  lemma {:induction false} ReductionComplete(
    K: Field, factors: Factors, t: nat, s: nat, target: Elem, bits: seq<bool>, rho: seq<Elem>, added: seq<Elem>, query: V.OpeningQuery
  )
    requires K.Valid() && Shaped(factors, t, s) && |bits| == Pow2(t + s) && |rho| == t + s
    requires V.Holds(K, ClaimQuery(factors, target), t, s, bits)
    requires Proved(K, factors, t, s, bits, rho, added, query)
    ensures Conveys(K, factors, t, s, target, bits, added, rho, query)
  {
    hide V.Holds, WeightCube, BitCube, Full, Judged, Played, Honest, Inner, Extension, Pow2, Mle;
    ClaimIsInner(K, factors, t, s, target, bits);
    EvaluationIsMle(K, bits, t, s, rho, Mle(K, Elems(K, bits), rho));
    HonestVerdict(K, WeightCube(K, factors, t, s), BitCube(K, bits, t + s), target, rho);
  }

  /** The challenge vectors on which an adaptive prover gets a true evaluation claim out of the verifier. */
  ghost function Misled(
    K: Field, factors: Factors, t: nat, s: nat, target: Elem, bits: seq<bool>, strategy: Strategy, closing: seq<Elem> -> Elem
  ): set<seq<Elem>>
    requires Shaped(factors, t, s) && |bits| == Pow2(t + s)
  {
    set rho | rho in Vectors(K, t + s) && |rho| == t + s
      && MisledAt(K, factors, t, s, target, bits, Played(strategy, rho) + [closing(rho)], rho)
  }

  ghost predicate MisledAt(
    K: Field, factors: Factors, t: nat, s: nat, target: Elem, bits: seq<bool>, records: seq<Elem>, rho: seq<Elem>
  )
    requires Shaped(factors, t, s) && |bits| == Pow2(t + s) && |rho| == t + s
  {
    var verdict := Judged(K, WeightCube(K, factors, t, s), target, records, rho);
    verdict.Accepted? && V.Holds(K, V.Mle(verdict.point, verdict.evaluation), t, s, bits)
  }

  lemma {:induction false} MisledIsDeceived(
    K: Field, factors: Factors, t: nat, s: nat, target: Elem, bits: seq<bool>, records: seq<Elem>, rho: seq<Elem>
  )
    requires K.Valid() && Shaped(factors, t, s) && |bits| == Pow2(t + s) && |rho| == t + s
    requires MisledAt(K, factors, t, s, target, bits, records, rho)
    ensures Judged(K, WeightCube(K, factors, t, s), target, records, rho) == Accepted(rho, Extension(K, BitCube(K, bits, t + s), rho))
  {
    hide V.Holds, WeightCube, BitCube, Full, Extension, Pow2, Running, Mle;
    EvaluationIsMle(K, bits, t, s, rho, Judged(K, WeightCube(K, factors, t, s), target, records, rho).evaluation);
  }

  /** The challenges on which the closing sumcheck of the weights and the bits is deceived. */
  ghost function DeceivedBits(
    K: Field, factors: Factors, t: nat, s: nat, target: Elem, bits: seq<bool>, strategy: Strategy, closing: seq<Elem> -> Elem
  ): set<seq<Elem>>
    requires Shaped(factors, t, s) && |bits| == Pow2(t + s)
  {
    Deceived(K, WeightCube(K, factors, t, s), BitCube(K, bits, t + s), t + s, target, strategy, closing)
  }

  lemma {:induction false} MisledRun(
    K: Field, factors: Factors, t: nat, s: nat, target: Elem, bits: seq<bool>, strategy: Strategy, closing: seq<Elem> -> Elem, rho: seq<Elem>
  )
    requires K.Valid() && Shaped(factors, t, s) && |bits| == Pow2(t + s)
    requires rho in Misled(K, factors, t, s, target, bits, strategy, closing)
    ensures rho in DeceivedBits(K, factors, t, s, target, bits, strategy, closing)
  {
    hide MisledAt, Judged, Vectors, WeightCube, BitCube, Full, Extension, Pow2, Played;
    MisledIsDeceived(K, factors, t, s, target, bits, Played(strategy, rho) + [closing(rho)], rho);
  }

  /** Soundness: from a claim that fails of the bits, every adaptive prover gets an evaluation claim
      that holds of them on at most `2 (t + s) N^(t+s-1)` of the challenge vectors. */
  lemma {:induction false} ReductionSound(
    K: Field, factors: Factors, t: nat, s: nat, target: Elem, bits: seq<bool>, strategy: Strategy, closing: seq<Elem> -> Elem
  )
    requires K.Valid() && Shaped(factors, t, s) && |bits| == Pow2(t + s)
    requires !V.Holds(K, ClaimQuery(factors, target), t, s, bits)
    ensures AtMost(K, t + s, Misled(K, factors, t, s, target, bits, strategy, closing), 2 * (t + s))
  {
    hide V.Holds, WeightCube, BitCube, Full, Inner, Pow2, AtMost, Misled, SumcheckProtocol.Deceived, ClaimQuery, Factors.Weights;
    ClaimIsInner(K, factors, t, s, target, bits);
    var w, v, n := WeightCube(K, factors, t, s), BitCube(K, bits, t + s), t + s;
    AcceptanceSoundness(K, w, v, n, target, strategy, closing);
    var misled := Misled(K, factors, t, s, target, bits, strategy, closing);
    forall rho | rho in misled ensures rho in Deceived(K, w, v, n, target, strategy, closing) {
      MisledRun(K, factors, t, s, target, bits, strategy, closing, rho);
    }
    SubsetAtMost(K, n, misled, Deceived(K, w, v, n, target, strategy, closing), 2 * n);
  }
}
