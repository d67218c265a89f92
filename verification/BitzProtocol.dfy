/** The whole reduction, from a linear claim modulo `q` on a bit table to one evaluation claim on the
    committed bits: folds, images, layers, optional transposition, closing sumcheck. */
module BitzProtocol {
  import opened Wrappers
  import M = Montgomery
  import opened FiniteField
  import opened Multilinear
  import opened Powers
  import opened ChallengeCounting
  import opened StagedCounting
  import opened Transcript
  import opened Sumcheck
  import opened SumcheckProtocol
  import G = Gkr
  import T = GkrTheorems
  import W = GkrVerifier
  import F = Folds
  import R = Reduction
  import S = FoldSoundness
  import LC = LinearCombinations
  import MT = MTranspose
  import TM = TransposedMatrix
  import V = VirtualMap
  import B = BitWeights
  import P = PostGkr

  // ---------------------------------------------------------------- the oracle

  /** What was committed: the table's own bits, or bits whose image under a map is the table. */
  datatype Oracle =
    | Direct
    | Mapped(rows: seq<LC.Support>, columns: nat, committedLog: nat)

  ghost function Logs(oracle: Oracle, shape: F.Shape): (nat, nat) {
    match oracle
    case Direct => (shape.logRows, shape.logColumns)
    case Mapped(_, _, committedLog) => (committedLog, 0)
  }

  /** The map fits both shapes, and a committed column fills whole words. */
  ghost predicate Suits(oracle: Oracle, shape: F.Shape) {
    && shape.Admissible()
    && (oracle.Mapped? ==>
          && |oracle.rows| <= Pow2(shape.LogBits()) && 0 < oracle.columns <= Pow2(oracle.committedLog) + 1
          && MT.AllWithin(oracle.rows, oracle.columns) && oracle.committedLog >= 7)
  }

  /** The committed bits belong to the table. */
  ghost predicate Commits(oracle: Oracle, table: F.BitTable, bits: seq<bool>)
    requires table.Valid() && Suits(oracle, table.shape)
  {
    match oracle
    case Direct => bits == V.FlatBits(table)
    case Mapped(rows, columns, committedLog) =>
      |bits| == Pow2(committedLog) && V.FlatBits(table) == V.Virtual(rows, bits, columns - 1, Pow2(table.shape.LogBits()))
  }

  ghost predicate ShapedClaim(claim: R.InnerProduct, t: nat, s: nat) {
    |claim.rowWeights| == Pow2(t) && |claim.columnWeights| == Pow2(s)
  }

  /** The claim on the committed bits. */
  ghost function Moved(K: Field, oracle: Oracle, shape: F.Shape, claim: R.InnerProduct): (moved: R.InnerProduct)
    requires Suits(oracle, shape) && ShapedClaim(claim, shape.logRows, shape.logColumns)
    ensures ShapedClaim(moved, Logs(oracle, shape).0, Logs(oracle, shape).1)
  {
    match oracle
    case Direct => claim
    case Mapped(rows, columns, committedLog) =>
      CoefficientCount(K, shape, claim);
      assert Pow2(0) == 1;
      V.Rewritten(K, V.Factored(claim), committedLog, rows, columns)
  }

  lemma {:induction false} CoefficientCount(K: Field, shape: F.Shape, claim: R.InnerProduct)
    requires ShapedClaim(claim, shape.logRows, shape.logColumns)
    ensures |V.Coefficients(K, V.Factored(claim))| == Pow2(shape.LogBits())
  {
    hide Pow2, Tensor;
    B.TensorLength(K, claim.rowWeights, claim.columnWeights);
    SameProduct(|claim.rowWeights|, |claim.columnWeights|, Pow2(shape.logRows), Pow2(shape.logColumns));
    Pow2Sum(shape.logRows, shape.logColumns);
  }

  lemma {:induction false} SameProduct(a: nat, b: nat, c: nat, d: nat)
    requires a == c && b == d
    ensures a * b == c * d
  {
  }

  /** Moving the claim keeps whether it is true. */
  lemma {:induction false} MovedMeans(K: Field, oracle: Oracle, table: F.BitTable, claim: R.InnerProduct, bits: seq<bool>)
    requires K.Valid() && table.Valid() && Suits(oracle, table.shape) && Commits(oracle, table, bits)
    requires ShapedClaim(claim, table.shape.logRows, table.shape.logColumns)
    ensures var (t, s) := Logs(oracle, table.shape);
      R.TrueOf(K, claim, table) <==> V.Holds(K, V.Factored(Moved(K, oracle, table.shape, claim)), t, s, bits)
  {
    hide R.TrueOf, V.Holds, V.FlatBits, V.Rewritten, V.Virtual, V.Coefficients, F.BitTable.Valid, MT.AllWithin, Pow2;
    V.TableQuery(K, claim, table);
    var shape := table.shape;
    if oracle.Mapped? {
      MappedMeans(K, oracle.rows, oracle.columns, oracle.committedLog, shape, claim, bits);
    }
  }

  lemma {:induction false} MappedMeans(
    K: Field, rows: seq<LC.Support>, columns: nat, committedLog: nat, shape: F.Shape, claim: R.InnerProduct, f: seq<bool>
  )
    requires K.Valid() && ShapedClaim(claim, shape.logRows, shape.logColumns) && |f| == Pow2(committedLog)
    requires |rows| <= Pow2(shape.LogBits()) && 0 < columns <= Pow2(committedLog) + 1 && MT.AllWithin(rows, columns)
    ensures |rows| <= |V.Coefficients(K, V.Factored(claim))|
    ensures V.Holds(K, V.Factored(V.Rewritten(K, V.Factored(claim), committedLog, rows, columns)), committedLog, 0, f)
      <==> V.Holds(K, V.Factored(claim), shape.logRows, shape.logColumns, V.Virtual(rows, f, columns - 1, Pow2(shape.LogBits())))
  {
    hide V.Holds, V.Virtual, V.Coefficients, MT.AllWithin, Pow2, V.SameClaim, TM.ColumnSum;
    CoefficientCount(K, shape, claim);
    V.FactoredMeans(K, claim, shape.logRows, shape.logColumns);
    V.RewriteMeans(K, V.Factored(claim), shape.logRows, shape.logColumns, committedLog, rows, columns - 1,
      V.Coefficients(K, V.Factored(claim)));
    SameClaimAt(K, V.Factored(V.Rewritten(K, V.Factored(claim), committedLog, rows, columns)), committedLog, V.Factored(claim),
      shape, rows, columns - 1, f);
  }

  lemma {:induction false} SameClaimAt(
    K: Field, on: V.OpeningQuery, committedLog: nat, query: V.OpeningQuery, shape: F.Shape, rows: seq<LC.Support>, used: nat, f: seq<bool>
  )
    requires used <= Pow2(committedLog) == |f| && |rows| <= Pow2(shape.LogBits())
    requires V.SameClaim(K, on, committedLog, query, shape.logRows, shape.logColumns, rows, used)
    ensures V.Holds(K, on, committedLog, 0, f)
      <==> V.Holds(K, query, shape.logRows, shape.logColumns, V.Virtual(rows, f, used, Pow2(shape.LogBits())))
  {
    hide V.Holds, V.Virtual, Pow2;
  }

  // ---------------------------------------------------------------- the verifier after the folds

  /** Challenges of the layers, and of a whole run. */
  ghost function LayerSteps(shape: F.Shape): nat { T.Steps(shape.logColumns, shape.logRows) }

  ghost function ClosingSteps(oracle: Oracle, shape: F.Shape): nat { Logs(oracle, shape).0 + Logs(oracle, shape).1 }

  ghost function AllSteps(oracle: Oracle, shape: F.Shape): nat {
    shape.logColumns + (LayerSteps(shape) + ClosingSteps(oracle, shape))
  }

  /** The claim the layers leave, started from the folds' images at `zeta`. */
  ghost function LeafClaim(
    K: Field, g: Elem, shape: F.Shape, exponents: seq<nat>, folds: seq<nat>, records: seq<Elem>, zeta: seq<Elem>, sigma: seq<Elem>
  ): (claim: Option<R.InnerProduct>)
    requires shape.Admissible() && |exponents| == shape.Rows() && |folds| == shape.Columns() && |zeta| == shape.logColumns
    ensures claim.Some? ==> ShapedClaim(claim.value, shape.logRows, shape.logColumns)
  {
    var w := W.Outcome(K, R.Opening(K, zeta, Mle(K, S.ImagesOf(K, g, folds), zeta)), records, sigma);
    if w.Running? && |w.point| == shape.LogBits() then
      ReverseLength(w.point);
      Some(R.ClaimAt(K, S.ImagesOf(K, g, exponents), shape.logColumns, G.Reverse(w.point), w.claim))
    else None
  }

  lemma {:induction false} ReverseLength(p: seq<Elem>)
    ensures |G.Reverse(p)| == |p|
  {
    if |p| > 0 { ReverseLength(p[1..]); }
  }

  /** The evaluation claim the closing sumcheck leaves. */
  ghost function Closed(K: Field, claim: R.InnerProduct, t: nat, s: nat, records: seq<Elem>, tau: seq<Elem>): Option<V.OpeningQuery>
    requires t >= 7 && ShapedClaim(claim, t, s) && |tau| == t + s
  {
    var verdict := Judged(K, P.WeightCube(K, B.Factors(claim.rowWeights, claim.columnWeights), t, s), claim.target, records, tau);
    if verdict.Accepted? then Some(V.Mle(verdict.point, verdict.evaluation)) else None
  }

  /** The evaluation claim the verifier is left with after it accepted the folds, or nothing. */
  ghost function Derived(
    K: Field, g: Elem, oracle: Oracle, shape: F.Shape, exponents: seq<nat>, folds: seq<nat>, records: seq<Elem>,
    zeta: seq<Elem>, sigma: seq<Elem>, tau: seq<Elem>
  ): Option<V.OpeningQuery>
    requires Suits(oracle, shape) && |exponents| == shape.Rows() && |folds| == shape.Columns()
    requires |zeta| == shape.logColumns && |sigma| == LayerSteps(shape) && |tau| == ClosingSteps(oracle, shape)
  {
    var claim := LeafClaim(K, g, shape, exponents, folds, records, zeta, sigma);
    if claim.None? || |records| < 2 * |sigma| then None
    else
      var (t, s) := Logs(oracle, shape);
      Closed(K, Moved(K, oracle, shape, claim.value), t, s, records[2 * |sigma|..], tau)
  }

  // ---------------------------------------------------------------- an adaptive prover

  /** The strategy after some challenges. */
  ghost function After(strategy: Strategy, seen: seq<Elem>): Strategy {
    (r: seq<Elem>) => strategy(seen + r)
  }

  lemma {:induction false} PlayedConcat(strategy: Strategy, a: seq<Elem>, b: seq<Elem>)
    ensures Played(strategy, a + b) == Played(strategy, a) + Played(After(strategy, a), b)
    decreases |b|
  {
    if |b| == 0 {
      assert a + b == a;
    } else {
      var n := |b| - 1;
      PlayedConcat(strategy, a, b[..n]);
      assert (a + b)[..|a + b| - 1] == a + b[..n];
      assert After(strategy, a)(b[..n]) == strategy(a + b[..n]);
    }
  }

  /** The records of a prover that saw `zeta` before its first message. */
  ghost function Sent(strategy: Strategy, closing: seq<Elem> -> Elem, zeta: seq<Elem>, rest: seq<Elem>): seq<Elem> {
    Played(After(strategy, zeta), rest) + [closing(zeta + rest)]
  }

  /** A run cut into its three parts. */
  ghost predicate Parted(oracle: Oracle, shape: F.Shape, zeta: seq<Elem>, sigma: seq<Elem>, tau: seq<Elem>) {
    |zeta| == shape.logColumns && |sigma| == LayerSteps(shape) && |tau| == ClosingSteps(oracle, shape)
  }

  /** On these challenges the verifier is left with an evaluation claim that is true. */
  ghost predicate CheatedAt(
    K: Field, g: Elem, oracle: Oracle, shape: F.Shape, exponents: seq<nat>, folds: seq<nat>, bits: seq<bool>,
    strategy: Strategy, closing: seq<Elem> -> Elem, zeta: seq<Elem>, sigma: seq<Elem>, tau: seq<Elem>
  )
    requires Suits(oracle, shape) && |exponents| == shape.Rows() && |folds| == shape.Columns() && Parted(oracle, shape, zeta, sigma, tau)
  {
    var query := Derived(K, g, oracle, shape, exponents, folds, Sent(strategy, closing, zeta, sigma + tau), zeta, sigma, tau);
    var (t, s) := Logs(oracle, shape);
    query.Some? && V.Holds(K, query.value, t, s, bits)
  }

  ghost function Cheated(
    K: Field, g: Elem, oracle: Oracle, shape: F.Shape, exponents: seq<nat>, folds: seq<nat>, bits: seq<bool>,
    strategy: Strategy, closing: seq<Elem> -> Elem
  ): set<seq<Elem>>
    requires Suits(oracle, shape) && |exponents| == shape.Rows() && |folds| == shape.Columns()
  {
    set rho | rho in Vectors(K, AllSteps(oracle, shape)) && |rho| == AllSteps(oracle, shape)
      && var a, b := shape.logColumns, shape.logColumns + LayerSteps(shape);
         CheatedAt(K, g, oracle, shape, exponents, folds, bits, strategy, closing, rho[..a], rho[a..b], rho[b..])
  }

  /** The layers' part of a run against the prover is the run of the layers alone. */
  lemma {:induction false} LayersAlone(
    K: Field, shape: F.Shape, strategy: Strategy, closing: seq<Elem> -> Elem, zeta: seq<Elem>, e0: Elem, sigma: seq<Elem>, tau: seq<Elem>
  )
    requires |zeta| == shape.logColumns && |sigma| == LayerSteps(shape)
    ensures var records, v := Sent(strategy, closing, zeta, sigma + tau), R.Opening(K, zeta, e0);
      var w := W.Outcome(K, v, records, sigma);
      && w == W.Outcome(K, v, Played(After(strategy, zeta), sigma), sigma)
      && |records| >= 2 * |sigma|
      && records[2 * |sigma|..] == Played(After(After(strategy, zeta), sigma), tau) + [closing(zeta + (sigma + tau))]
      && (w.Running? ==> |w.point| == shape.LogBits() && |w.bound| == 0)
  {
    hide W.Outcome, Played, G.Run, T.Phase, T.Steps;
    var own := After(strategy, zeta);
    var v, more := R.Opening(K, zeta, e0), Played(After(own, sigma), tau) + [closing(zeta + (sigma + tau))];
    PlayedConcat(own, sigma, tau);
    assert Sent(strategy, closing, zeta, sigma + tau) == Played(own, sigma) + more;
    W.OutcomeOfPlayed(K, v, own, sigma, more, |sigma|);
    W.OutcomeOfPlayed(K, v, own, sigma, [], |sigma|);
    assert sigma[..|sigma|] == sigma && Played(own, sigma) + [] == Played(own, sigma);
    ReverseLength(zeta);
    T.RunPhase(K, v, own, sigma, |zeta|);
    T.WholeRun(|zeta|, shape.logRows);
  }

  // ---------------------------------------------------------------- soundness of the whole reduction

  /** What a false claim leaves to the layers: the table's rows' images and the folds' images. */
  ghost predicate Setting(g: Elem, table: F.BitTable, oracle: Oracle, exponents: seq<nat>, folds: seq<nat>, bits: seq<bool>) {
    && table.Valid() && Suits(oracle, table.shape) && Commits(oracle, table, bits)
    && |exponents| == table.shape.Rows() && |folds| == table.shape.Columns()
  }

  lemma {:induction false} CheatedParts(
    K: Field, g: Elem, oracle: Oracle, shape: F.Shape, exponents: seq<nat>, folds: seq<nat>, bits: seq<bool>,
    strategy: Strategy, closing: seq<Elem> -> Elem, zeta: seq<Elem>, sigma: seq<Elem>, tau: seq<Elem>
  )
    requires Suits(oracle, shape) && |exponents| == shape.Rows() && |folds| == shape.Columns()
    requires |zeta| == shape.logColumns && |sigma| == LayerSteps(shape)
    requires zeta + (sigma + tau) in Cheated(K, g, oracle, shape, exponents, folds, bits, strategy, closing)
    ensures |tau| == ClosingSteps(oracle, shape)
    ensures CheatedAt(K, g, oracle, shape, exponents, folds, bits, strategy, closing, zeta, sigma, tau)
  {
    hide CheatedAt, Vectors, T.Steps;
    var rho := zeta + (sigma + tau);
    var a, b := shape.logColumns, shape.logColumns + LayerSteps(shape);
    assert rho[..a] == zeta && rho[a..b] == sigma && rho[b..] == tau;
  }

  /** After a rejected run or a false leaf claim, few closing challenges are left. */
  lemma {:induction false} FewClosings(
    K: Field, g: Elem, oracle: Oracle, table: F.BitTable, exponents: seq<nat>, folds: seq<nat>, bits: seq<bool>,
    strategy: Strategy, closing: seq<Elem> -> Elem, zeta: seq<Elem>, sigma: seq<Elem>, D: set<seq<Elem>>
  )
    requires K.Valid() && Setting(g, table, oracle, exponents, folds, bits)
    requires |zeta| == table.shape.logColumns && |sigma| == LayerSteps(table.shape) && sigma in Vectors(K, |sigma|)
    requires sigma !in S.FalselyReduced(K, table, S.ImagesOf(K, g, exponents), zeta,
      Mle(K, S.ImagesOf(K, g, folds), zeta), After(strategy, zeta))
    requires forall tau :: tau in D ==>
      |tau| == ClosingSteps(oracle, table.shape)
      && CheatedAt(K, g, oracle, table.shape, exponents, folds, bits, strategy, closing, zeta, sigma, tau)
    ensures AtMost(K, ClosingSteps(oracle, table.shape), D, 2 * ClosingSteps(oracle, table.shape))
  {
    hide F.BitTable.Valid, Commits, V.Holds, W.Outcome, R.TrueOf, R.ClaimAt, Mle, T.Steps, Played, AtMost, P.WeightCube, Judged,
      V.FlatBits, G.Reverse, Moved, Vectors, Pow2;
    var shape, e0, own := table.shape, Mle(K, S.ImagesOf(K, g, folds), zeta), After(strategy, zeta);
    var n := ClosingSteps(oracle, shape);
    var w := W.Outcome(K, R.Opening(K, zeta, e0), Played(own, sigma), sigma);
    forall tau: seq<Elem> ensures LayersRun(K, shape, strategy, closing, zeta, e0, sigma, tau, w) {
      LayersAlone(K, shape, strategy, closing, zeta, e0, sigma, tau);
    }
    assert LayersRun(K, shape, strategy, closing, zeta, e0, sigma, [], w);
    if w.Running? {
      ReverseLength(w.point);
      var claim := R.ClaimAt(K, S.ImagesOf(K, g, exponents), |zeta|, G.Reverse(w.point), w.claim);
      ClaimShape(K, S.ImagesOf(K, g, exponents), shape, G.Reverse(w.point), w.claim);
      CommittedLength(oracle, table, bits);
      MovedMeans(K, oracle, table, claim, bits);
      forall tau: seq<Elem> ensures ClaimRun(K, g, shape, exponents, folds, strategy, closing, zeta, sigma, tau, claim) {
        assert LayersRun(K, shape, strategy, closing, zeta, e0, sigma, tau, w);
      }
      FewAccepted(K, g, oracle, shape, exponents, folds, bits, strategy, closing, zeta, sigma, D, claim);
    } else {
      assert D == {} by { Rejects(K, g, oracle, shape, exponents, folds, bits, strategy, closing, zeta, sigma, D, w); }
      Nothing(K, n, 2 * n);
    }
  }

  lemma {:induction false} ClaimShape(K: Field, images: seq<Elem>, shape: F.Shape, point: seq<Elem>, value: Elem)
    requires |images| == shape.Rows() && |point| == shape.LogBits()
    ensures ShapedClaim(R.ClaimAt(K, images, shape.logColumns, point, value), shape.logRows, shape.logColumns)
  {
  }

  lemma {:induction false} CommittedLength(oracle: Oracle, table: F.BitTable, bits: seq<bool>)
    requires table.Valid() && Suits(oracle, table.shape) && Commits(oracle, table, bits)
    ensures |bits| == Pow2(ClosingSteps(oracle, table.shape))
  {
    hide F.BitTable.Valid;
    Pow2Sum(table.shape.logRows, table.shape.logColumns);
  }

  lemma {:induction false} Nothing(K: Field, n: nat, bound: nat)
    requires K.Valid()
    ensures AtMost(K, n, {}, bound)
  {
    VectorCount(K, n);
    if n > 0 { M.ProductMonotone(0, bound, Power(|K.elems|, n - 1)); }
  }

  /** The layers' state and the records left, against the prover. */
  ghost predicate LayersRun(
    K: Field, shape: F.Shape, strategy: Strategy, closing: seq<Elem> -> Elem, zeta: seq<Elem>, e0: Elem, sigma: seq<Elem>,
    tau: seq<Elem>, w: G.Verifier
  ) {
    var records := Sent(strategy, closing, zeta, sigma + tau);
    && w == W.Outcome(K, R.Opening(K, zeta, e0), records, sigma) && |records| >= 2 * |sigma|
    && records[2 * |sigma|..] == Played(After(After(strategy, zeta), sigma), tau) + [closing(zeta + (sigma + tau))]
    && (w.Running? ==> |w.point| == shape.LogBits() && |w.bound| == 0)
  }

  lemma {:induction false} Rejects(
    K: Field, g: Elem, oracle: Oracle, shape: F.Shape, exponents: seq<nat>, folds: seq<nat>, bits: seq<bool>,
    strategy: Strategy, closing: seq<Elem> -> Elem, zeta: seq<Elem>, sigma: seq<Elem>, D: set<seq<Elem>>, w: G.Verifier
  )
    requires Suits(oracle, shape) && |exponents| == shape.Rows() && |folds| == shape.Columns()
    requires |zeta| == shape.logColumns && |sigma| == LayerSteps(shape) && w.Rejected?
    requires forall tau :: LayersRun(K, shape, strategy, closing, zeta, Mle(K, S.ImagesOf(K, g, folds), zeta), sigma, tau, w)
    requires forall tau :: tau in D ==>
      |tau| == ClosingSteps(oracle, shape)
      && CheatedAt(K, g, oracle, shape, exponents, folds, bits, strategy, closing, zeta, sigma, tau)
    ensures D == {}
  {
    hide V.Holds, W.Outcome, Mle, T.Steps, Played;
    forall tau: seq<Elem> ensures tau !in D {
      RejectedLeaf(K, g, shape, exponents, folds, strategy, closing, zeta, sigma, tau, w);
    }
  }

  lemma {:induction false} RejectedLeaf(
    K: Field, g: Elem, shape: F.Shape, exponents: seq<nat>, folds: seq<nat>, strategy: Strategy, closing: seq<Elem> -> Elem,
    zeta: seq<Elem>, sigma: seq<Elem>, tau: seq<Elem>, w: G.Verifier
  )
    requires shape.Admissible() && |exponents| == shape.Rows() && |folds| == shape.Columns() && |zeta| == shape.logColumns
    requires w.Rejected? && LayersRun(K, shape, strategy, closing, zeta, Mle(K, S.ImagesOf(K, g, folds), zeta), sigma, tau, w)
    ensures LeafClaim(K, g, shape, exponents, folds, Sent(strategy, closing, zeta, sigma + tau), zeta, sigma).None?
  {
    hide W.Outcome, Mle, T.Steps, Played;
  }

  lemma {:induction false} FewAccepted(
    K: Field, g: Elem, oracle: Oracle, shape: F.Shape, exponents: seq<nat>, folds: seq<nat>, bits: seq<bool>,
    strategy: Strategy, closing: seq<Elem> -> Elem, zeta: seq<Elem>, sigma: seq<Elem>, D: set<seq<Elem>>, claim: R.InnerProduct
  )
    requires K.Valid() && Suits(oracle, shape) && |exponents| == shape.Rows() && |folds| == shape.Columns()
    requires |zeta| == shape.logColumns && |sigma| == LayerSteps(shape)
    requires ShapedClaim(claim, shape.logRows, shape.logColumns) && |bits| == Pow2(ClosingSteps(oracle, shape))
    requires !V.Holds(K, V.Factored(Moved(K, oracle, shape, claim)), Logs(oracle, shape).0, Logs(oracle, shape).1, bits)
    requires forall tau :: ClaimRun(K, g, shape, exponents, folds, strategy, closing, zeta, sigma, tau, claim)
    requires forall tau :: tau in D ==>
      |tau| == ClosingSteps(oracle, shape)
      && CheatedAt(K, g, oracle, shape, exponents, folds, bits, strategy, closing, zeta, sigma, tau)
    ensures AtMost(K, ClosingSteps(oracle, shape), D, 2 * ClosingSteps(oracle, shape))
  {
    hide V.Holds, AtMost, Moved, Vectors, CheatedAt, ClaimRun, P.Misled, P.ClaimQuery, After, Pow2;
    var (t, s) := Logs(oracle, shape);
    var moved := Moved(K, oracle, shape, claim);
    var factors := B.Factors(moved.rowWeights, moved.columnWeights);
    var last, end := After(After(strategy, zeta), sigma), ClosingAfter(closing, zeta, sigma);
    ClaimIsFactored(factors, moved);
    P.ReductionSound(K, factors, t, s, moved.target, bits, last, end);
    AllMisled(K, g, oracle, shape, exponents, folds, bits, strategy, closing, zeta, sigma, D, claim);
    SubsetAtMost(K, t + s, D, P.Misled(K, factors, t, s, moved.target, bits, last, end), 2 * (t + s));
  }

  /** The closing record after the first two stages. */
  ghost function ClosingAfter(closing: seq<Elem> -> Elem, zeta: seq<Elem>, sigma: seq<Elem>): seq<Elem> -> Elem {
    (tau: seq<Elem>) => closing(zeta + (sigma + tau))
  }

  lemma {:induction false} ClaimIsFactored(factors: B.Factors, claim: R.InnerProduct)
    requires factors == B.Factors(claim.rowWeights, claim.columnWeights)
    ensures P.ClaimQuery(factors, claim.target) == V.Factored(claim)
  {
  }

  lemma {:induction false} AllMisled(
    K: Field, g: Elem, oracle: Oracle, shape: F.Shape, exponents: seq<nat>, folds: seq<nat>, bits: seq<bool>,
    strategy: Strategy, closing: seq<Elem> -> Elem, zeta: seq<Elem>, sigma: seq<Elem>, D: set<seq<Elem>>, claim: R.InnerProduct
  )
    requires K.Valid() && Suits(oracle, shape) && |exponents| == shape.Rows() && |folds| == shape.Columns()
    requires |zeta| == shape.logColumns && |sigma| == LayerSteps(shape)
    requires ShapedClaim(claim, shape.logRows, shape.logColumns) && |bits| == Pow2(ClosingSteps(oracle, shape))
    requires forall tau :: ClaimRun(K, g, shape, exponents, folds, strategy, closing, zeta, sigma, tau, claim)
    requires forall tau :: tau in D ==>
      |tau| == ClosingSteps(oracle, shape)
      && CheatedAt(K, g, oracle, shape, exponents, folds, bits, strategy, closing, zeta, sigma, tau)
    ensures D <= MisledSet(K, oracle, shape, bits, strategy, closing, zeta, sigma, claim)
  {
    hide Moved, Vectors, CheatedAt, ClaimRun, P.MisledAt, After, Pow2;
    var n := ClosingSteps(oracle, shape);
    forall tau | tau in D ensures tau in Vectors(K, n) {
      VectorsAreAll(K, n, tau);
    }
    forall tau | tau in D ensures MisledTau(K, oracle, shape, bits, strategy, closing, zeta, sigma, tau, claim) {
      MisledByRun(K, g, oracle, shape, exponents, folds, bits, strategy, closing, zeta, sigma, tau, claim);
    }
  }

  /** The closing challenges on which the closing verifier is misled about the moved claim. */
  ghost function MisledSet(
    K: Field, oracle: Oracle, shape: F.Shape, bits: seq<bool>, strategy: Strategy, closing: seq<Elem> -> Elem,
    zeta: seq<Elem>, sigma: seq<Elem>, claim: R.InnerProduct
  ): set<seq<Elem>>
    requires Suits(oracle, shape) && ShapedClaim(claim, shape.logRows, shape.logColumns) && |bits| == Pow2(ClosingSteps(oracle, shape))
  {
    var moved := Moved(K, oracle, shape, claim);
    P.Misled(K, B.Factors(moved.rowWeights, moved.columnWeights), Logs(oracle, shape).0, Logs(oracle, shape).1, moved.target, bits,
      After(After(strategy, zeta), sigma), ClosingAfter(closing, zeta, sigma))
  }

  /** The closing verifier is misled at these challenges. */
  ghost predicate MisledTau(
    K: Field, oracle: Oracle, shape: F.Shape, bits: seq<bool>, strategy: Strategy, closing: seq<Elem> -> Elem,
    zeta: seq<Elem>, sigma: seq<Elem>, tau: seq<Elem>, claim: R.InnerProduct
  )
    requires Suits(oracle, shape) && ShapedClaim(claim, shape.logRows, shape.logColumns)
    requires |tau| == ClosingSteps(oracle, shape) && |bits| == Pow2(|tau|)
  {
    var (t, s) := Logs(oracle, shape);
    var moved := Moved(K, oracle, shape, claim);
    P.MisledAt(K, B.Factors(moved.rowWeights, moved.columnWeights), t, s, moved.target, bits,
      Played(After(After(strategy, zeta), sigma), tau) + [ClosingAfter(closing, zeta, sigma)(tau)], tau)
  }

  lemma {:induction false} MisledByRun(
    K: Field, g: Elem, oracle: Oracle, shape: F.Shape, exponents: seq<nat>, folds: seq<nat>, bits: seq<bool>,
    strategy: Strategy, closing: seq<Elem> -> Elem, zeta: seq<Elem>, sigma: seq<Elem>, tau: seq<Elem>, claim: R.InnerProduct
  )
    requires Suits(oracle, shape) && |exponents| == shape.Rows() && |folds| == shape.Columns()
    requires Parted(oracle, shape, zeta, sigma, tau) && ShapedClaim(claim, shape.logRows, shape.logColumns)
    requires |bits| == Pow2(ClosingSteps(oracle, shape))
    requires ClaimRun(K, g, shape, exponents, folds, strategy, closing, zeta, sigma, tau, claim)
    requires CheatedAt(K, g, oracle, shape, exponents, folds, bits, strategy, closing, zeta, sigma, tau)
    ensures MisledTau(K, oracle, shape, bits, strategy, closing, zeta, sigma, tau, claim)
  {
    hide V.Holds, Mle, T.Steps, Played, P.WeightCube, Judged, Moved, LeafClaim, Sent;
  }

  /** The leaf claim and the records left, against the prover. */
  ghost predicate ClaimRun(
    K: Field, g: Elem, shape: F.Shape, exponents: seq<nat>, folds: seq<nat>, strategy: Strategy, closing: seq<Elem> -> Elem,
    zeta: seq<Elem>, sigma: seq<Elem>, tau: seq<Elem>, claim: R.InnerProduct
  )
    requires shape.Admissible() && |exponents| == shape.Rows() && |folds| == shape.Columns() && |zeta| == shape.logColumns
  {
    var records := Sent(strategy, closing, zeta, sigma + tau);
    && LeafClaim(K, g, shape, exponents, folds, records, zeta, sigma) == Some(claim) && |records| >= 2 * |sigma|
    && records[2 * |sigma|..] == Played(After(After(strategy, zeta), sigma), tau) + [closing(zeta + (sigma + tau))]
  }

  /** After a false output claim, few challenges of the layers and the closing rounds are left. */
  lemma {:induction false} FewLayers(
    K: Field, g: Elem, oracle: Oracle, table: F.BitTable, exponents: seq<nat>, folds: seq<nat>, bits: seq<bool>,
    strategy: Strategy, closing: seq<Elem> -> Elem, zeta: seq<Elem>
  )
    requires K.Valid() && Setting(g, table, oracle, exponents, folds, bits) && |zeta| == table.shape.logColumns
    requires Mle(K, S.ImagesOf(K, g, folds), zeta) != Mle(K, R.Outputs(K, table, S.ImagesOf(K, g, exponents)), zeta)
    ensures AtMost(K, LayerSteps(table.shape) + ClosingSteps(oracle, table.shape),
      Rest(Cheated(K, g, oracle, table.shape, exponents, folds, bits, strategy, closing), zeta),
      T.ErrorBound(table.shape.logColumns, table.shape.logRows) + 2 * ClosingSteps(oracle, table.shape))
  {
    hide F.BitTable.Valid, Commits, Mle, T.Steps, T.ErrorBound, AtMost, Vectors, Cheated, R.Outputs, S.FalselyReduced, Pow2, CheatedAt, Rest;
    var shape, images := table.shape, S.ImagesOf(K, g, exponents);
    var e0, own := Mle(K, S.ImagesOf(K, g, folds), zeta), After(strategy, zeta);
    var n, m := LayerSteps(shape), ClosingSteps(oracle, shape);
    var all := Cheated(K, g, oracle, shape, exponents, folds, bits, strategy, closing);
    var D, A := Rest(all, zeta), S.FalselyReduced(K, table, images, zeta, e0, own);
    S.ReductionSoundness(K, table, images, zeta, e0, own);
    CheatedInside(K, g, oracle, shape, exponents, folds, bits, strategy, closing);
    RestInside(K, |zeta|, n + m, all, zeta);
    forall sigma | sigma in Vectors(K, n) && sigma !in A ensures AtMost(K, m, Rest(D, sigma), 2 * m) {
      VectorsAreAll(K, n, sigma);
      forall tau | tau in Rest(D, sigma)
        ensures |tau| == m && CheatedAt(K, g, oracle, shape, exponents, folds, bits, strategy, closing, zeta, sigma, tau)
      {
        RestHas(D, sigma, tau);
        RestHas(all, zeta, sigma + tau);
        CheatedParts(K, g, oracle, shape, exponents, folds, bits, strategy, closing, zeta, sigma, tau);
      }
      FewClosings(K, g, oracle, table, exponents, folds, bits, strategy, closing, zeta, sigma, Rest(D, sigma));
    }
    TwoStages(K, n, m, D, A, T.ErrorBound(shape.logColumns, shape.logRows), 2 * m);
  }

  lemma {:induction false} CheatedInside(
    K: Field, g: Elem, oracle: Oracle, shape: F.Shape, exponents: seq<nat>, folds: seq<nat>, bits: seq<bool>,
    strategy: Strategy, closing: seq<Elem> -> Elem
  )
    requires Suits(oracle, shape) && |exponents| == shape.Rows() && |folds| == shape.Columns()
    ensures Cheated(K, g, oracle, shape, exponents, folds, bits, strategy, closing) <= Vectors(K, AllSteps(oracle, shape))
  {
    hide CheatedAt, Vectors, T.Steps;
  }

  /** Challenges on which a false claim goes unnoticed, as a multiple of `N^(n-1)`. */
  ghost function ProtocolError(oracle: Oracle, shape: F.Shape): nat {
    shape.logColumns + (T.ErrorBound(shape.logColumns, shape.logRows) + 2 * ClosingSteps(oracle, shape))
  }

  /** Soundness from the integer claim to the opening: when the claim modulo `q` is false of the table,
      then for every list of folds the verifier accepts and every adaptive prover after it, few of the
      challenge vectors leave the verifier with an evaluation claim that is true of what was committed. */
  lemma {:induction false} ProtocolSoundness(
    K: Field, g: Elem, oracle: Oracle, table: F.BitTable, q: nat, v1: seq<nat>, v2: seq<nat>, target: nat, folds: seq<nat>,
    bits: seq<bool>, strategy: Strategy, closing: seq<Elem> -> Elem
  )
    requires K.Valid() && F.FullOrder(K, g) && Setting(g, table, oracle, v1, folds, bits)
    requires q > 0 && F.FoldGate(table.shape, q) && |v2| == table.shape.Columns()
    requires forall i :: 0 <= i < |v1| ==> v1[i] < q
    requires F.BilinearValue(F.Columns(table), table.shape.Rows(), v1, v2) % q != target
    requires S.InRange(table.shape, q, folds) && F.WeightedSum(v2, folds) % q == target
    ensures AtMost(K, AllSteps(oracle, table.shape),
      Cheated(K, g, oracle, table.shape, v1, folds, bits, strategy, closing), ProtocolError(oracle, table.shape))
  {
    hide F.BitTable.Valid, Commits, AtMost, Vectors, Cheated, R.Outputs, F.FoldGate, F.BilinearValue, F.WeightedSum, S.InRange,
      S.Agreements, F.FullOrder, ProtocolError, AllSteps, Logs;
    S.FalseTargetNeedsFalseFolds(table, v1, v2, q, folds, target);
    S.FalseFoldsCaught(K, g, table, v1, q, folds);
    AfterFolds(K, g, oracle, table, v1, folds, bits, strategy, closing);
  }

  /** From folds whose images agree with the outputs at few points. */
  lemma {:induction false} AfterFolds(
    K: Field, g: Elem, oracle: Oracle, table: F.BitTable, v1: seq<nat>, folds: seq<nat>, bits: seq<bool>,
    strategy: Strategy, closing: seq<Elem> -> Elem
  )
    requires K.Valid() && Setting(g, table, oracle, v1, folds, bits)
    requires var s := table.shape.logColumns;
      AtMost(K, s, S.Agreements(K, S.ImagesOf(K, g, folds), R.Outputs(K, table, S.ImagesOf(K, g, v1)), s), s)
    ensures AtMost(K, AllSteps(oracle, table.shape),
      Cheated(K, g, oracle, table.shape, v1, folds, bits, strategy, closing), ProtocolError(oracle, table.shape))
  {
    hide F.BitTable.Valid, Commits, Mle, T.Steps, T.ErrorBound, AtMost, Vectors, Cheated, R.Outputs, S.Agreements, Rest;
    var shape, images := table.shape, S.ImagesOf(K, g, v1);
    var s, n := shape.logColumns, LayerSteps(shape) + ClosingSteps(oracle, shape);
    var B := Cheated(K, g, oracle, shape, v1, folds, bits, strategy, closing);
    var outputs := R.Outputs(K, table, images);
    CheatedInside(K, g, oracle, shape, v1, folds, bits, strategy, closing);
    var A := S.Agreements(K, S.ImagesOf(K, g, folds), outputs, s);
    forall zeta | zeta in Vectors(K, s) && zeta !in A
      ensures AtMost(K, n, Rest(B, zeta), T.ErrorBound(s, shape.logRows) + 2 * ClosingSteps(oracle, shape))
    {
      VectorsAreAll(K, s, zeta);
      NotAgreeing(K, S.ImagesOf(K, g, folds), outputs, s, zeta);
      FewLayers(K, g, oracle, table, v1, folds, bits, strategy, closing, zeta);
    }
    TwoStages(K, s, n, B, A, s, T.ErrorBound(s, shape.logRows) + 2 * ClosingSteps(oracle, shape));
  }

  lemma {:induction false} NotAgreeing(K: Field, a: seq<Elem>, b: seq<Elem>, s: nat, p: seq<Elem>)
    requires |a| == |b| == Pow2(s) && p in Vectors(K, s) && |p| == s && p !in S.Agreements(K, a, b, s)
    ensures Mle(K, a, p) != Mle(K, b, p)
  {
    hide Mle, Vectors;
  }
}
