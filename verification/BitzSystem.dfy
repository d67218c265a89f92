/** The two parties of the whole reduction, over a transcript. */
module BitzSystem {
  import opened Wrappers
  import M = Montgomery
  import opened FiniteField
  import opened Multilinear
  import opened Powers
  import opened Cubes
  import opened Transcript
  import opened Sumcheck
  import opened SumcheckProtocol
  import opened Transposes
  import opened BitzProtocol
  import BM = BitMatrices
  import G = Gkr
  import T = GkrTheorems
  import W = GkrVerifier
  import GS = GkrSystem
  import F = Folds
  import R = Reduction
  import S = FoldSoundness
  import MT = MTranspose
  import TM = TransposedMatrix
  import V = VirtualMap
  import B = BitWeights
  import P = PostGkr

  datatype VerifyError = Fold(reason: S.Received) | Layers | Closing(verdict: Verdict)

  /** The map a party holds belongs to the oracle. */
  ghost predicate Holding(oracle: Oracle, matrix: Option<TM.MaterializedMTranspose>, committedLog: nat) {
    match oracle
    case Direct => matrix.None?
    case Mapped(rows, columns, log) => matrix.Some? && TM.TransposeOf(matrix.value, rows, columns) && committedLog == log
  }

  // ---------------------------------------------------------------- shared steps

  /** The powers of the generator. */
  method MapImages(K: Field, g: Elem, exponents: seq<nat>) returns (images: seq<Elem>)
    ensures images == S.ImagesOf(K, g, exponents)
  {
    hide F.Raise;
    images := [];
    for i := 0 to |exponents|
      invariant |images| == i && forall k :: 0 <= k < i ==> images[k] == F.Raise(K, g, exponents[k])
    {
      var image := RaisePower(K, g, exponents[i]);
      images := images + [image];
    }
  }

  method RaisePower(K: Field, g: Elem, n: nat) returns (power: Elem)
    ensures power == F.Raise(K, g, n)
  {
    power := K.one;
    for i := 0 to n
      invariant power == F.Raise(K, g, i)
    {
      power := K.mul(power, g);
    }
  }

  /** The claim moved to the committed bits, by the map when there is one. */
  method MoveClaim(
    K: Field, ghost oracle: Oracle, shape: F.Shape, claim: R.InnerProduct, matrix: Option<TM.MaterializedMTranspose>, committedLog: nat
  ) returns (moved: Result<R.InnerProduct, V.VirtualMapError>)
    requires K.Valid() && Suits(oracle, shape) && Holding(oracle, matrix, committedLog)
    requires ShapedClaim(claim, shape.logRows, shape.logColumns)
    ensures moved == Ok(Moved(K, oracle, shape, claim))
  {
    hide V.Rewritten, V.Coefficients, V.SameClaim, TM.TransposeOf, MT.AllWithin, Pow2;
    match matrix
    case None => return Ok(claim);
    case Some(m) =>
      var query := V.TransposeQuery(K, m, V.Factored(claim), shape.logRows, shape.logColumns, committedLog, oracle.rows, oracle.columns);
      match query
      case Err(error) => return Err(error);
      case Ok(moving) => return Ok(moving.claim);
  }

  /** Several challenges in a row, for the verifier. */
  method DrawVerifier(vs: VerifierState, n: nat) returns (point: seq<Elem>)
    requires vs.Valid()
    modifies vs
    ensures vs.Valid() && vs.read == old(vs.read) && vs.drawn == old(vs.drawn) + n
    ensures point == Drawn(vs.challenges, old(vs.drawn), n)
  {
    point := [];
    for i := 0 to n
      invariant vs.Valid() && vs.read == old(vs.read) && vs.drawn == old(vs.drawn) + i
      invariant point == Drawn(vs.challenges, old(vs.drawn), i)
    {
      var c := vs.Challenge();
      point := point + [c];
    }
  }

  method DrawProver(ps: ProverState, n: nat) returns (point: seq<Elem>)
    modifies ps
    ensures ps.records == old(ps.records) && ps.drawn == old(ps.drawn) + n
    ensures point == Drawn(ps.challenges, old(ps.drawn), n)
  {
    point := [];
    for i := 0 to n
      invariant ps.records == old(ps.records) && ps.drawn == old(ps.drawn) + i
      invariant point == Drawn(ps.challenges, old(ps.drawn), i)
    {
      var c := ps.Challenge();
      point := point + [c];
    }
  }

  // ---------------------------------------------------------------- the verifier

  /** What the verifier says of the folds. */
  ghost function FoldReason(shape: F.Shape, q: nat, v2: seq<nat>, target: nat, folds: seq<nat>): S.Received
    requires q > 0
  {
    if !S.InRange(shape, q, folds) then S.FoldOutOfRange
    else if |folds| != |v2| then S.ColumnMismatch
    else if F.WeightedSum(v2, folds) % q != target then S.TargetMismatch
    else S.Received.Accepted
  }

  /** The closing verdict on a leaf claim. */
  ghost function ClosingVerdict(
    K: Field, oracle: Oracle, shape: F.Shape, claim: R.InnerProduct, records: seq<Elem>, tau: seq<Elem>
  ): Verdict
    requires Suits(oracle, shape) && ShapedClaim(claim, shape.logRows, shape.logColumns) && |tau| == ClosingSteps(oracle, shape)
  {
    var (t, s) := Logs(oracle, shape);
    var moved := Moved(K, oracle, shape, claim);
    Judged(K, P.WeightCube(K, B.Factors(moved.rowWeights, moved.columnWeights), t, s), moved.target, records, tau)
  }

  /** The verifier's answer, given the records and challenges from here on. */
  ghost function Answer(
    K: Field, g: Elem, oracle: Oracle, shape: F.Shape, q: nat, v1: seq<nat>, v2: seq<nat>, target: nat, folds: seq<nat>,
    records: seq<Elem>, zeta: seq<Elem>, sigma: seq<Elem>, tau: seq<Elem>
  ): Result<V.OpeningQuery, VerifyError>
    requires Suits(oracle, shape) && q > 0 && |v1| == shape.Rows() && |folds| == shape.Columns() && Parted(oracle, shape, zeta, sigma, tau)
  {
    var reason := FoldReason(shape, q, v2, target, folds);
    var claim := LeafClaim(K, g, shape, v1, folds, records, zeta, sigma);
    if !reason.Accepted? then Err(VerifyError.Fold(reason))
    else if claim.None? || |records| < 2 * |sigma| then Err(Layers)
    else
      match ClosingVerdict(K, oracle, shape, claim.value, records[2 * |sigma|..], tau)
      case Accepted(point, evaluation) => Ok(V.Mle(point, evaluation))
      case MalformedProof => Err(Closing(MalformedProof))
      case EvaluationMismatch => Err(Closing(EvaluationMismatch))
  }

  /** The answer on the challenges a stream holds from some position on. */
  ghost function AnswerOn(
    K: Field, g: Elem, oracle: Oracle, shape: F.Shape, q: nat, v1: seq<nat>, v2: seq<nat>, target: nat, folds: seq<nat>,
    records: seq<Elem>, challenges: nat -> Elem, from: nat
  ): Result<V.OpeningQuery, VerifyError>
    requires Suits(oracle, shape) && q > 0 && |v1| == shape.Rows() && |folds| == shape.Columns()
  {
    var n, m := shape.logColumns, LayerSteps(shape);
    Answer(K, g, oracle, shape, q, v1, v2, target, folds, records, Drawn(challenges, from, n), Drawn(challenges, from + n, m),
      Drawn(challenges, from + n + m, ClosingSteps(oracle, shape)))
  }

  /** Checks the folds, draws the point, replays the layers, moves the claim and replays the closing
      rounds. */
  method Verify(
    K: Field, vs: VerifierState, g: Elem, shape: F.Shape, q: nat, v1: seq<nat>, v2: seq<nat>, target: nat, folds: seq<nat>,
    matrix: Option<TM.MaterializedMTranspose>, committedLog: nat, ghost oracle: Oracle
  ) returns (result: Result<V.OpeningQuery, VerifyError>)
    requires K.Valid() && vs.Valid() && Suits(oracle, shape) && Holding(oracle, matrix, committedLog)
    requires q > 0 && |v1| == shape.Rows() && |folds| == shape.Columns()
    modifies vs
    ensures result == AnswerOn(K, g, oracle, shape, q, v1, v2, target, folds, old(vs.Rest()), vs.challenges, old(vs.drawn))
  {
    hide F.Raise, F.WeightedSum, S.InRange, Mle, EvaluateExact, W.Outcome, R.ClaimAt, Judged, P.WeightCube, Moved, T.Steps, Drawn,
      TM.TransposeOf, MT.AllWithin, G.Reverse, Pow2;
    ghost var records, from := vs.Rest(), vs.drawn;
    var received := S.ReceiveFolds(shape, q, v2, folds, target);
    if !received.Accepted? { return Err(VerifyError.Fold(received)); }
    var images := MapImages(K, g, folds);
    var rowImages := MapImages(K, g, v1);
    var zeta := DrawVerifier(vs, shape.logColumns);
    EvaluateExactIsMle(K, images, zeta);
    var e0 := EvaluateExact(K, images, zeta);
    var leaf := R.GkrReduceVerify(K, vs, rowImages, shape.logRows, zeta, e0);
    if leaf.None? { return Err(Layers); }
    ghost var sigma := Drawn(vs.challenges, from + shape.logColumns, LayerSteps(shape));
    LeafIsClaim(K, g, shape, v1, folds, records, zeta, sigma, leaf.value);
    var moved := MoveClaim(K, oracle, shape, leaf.value, matrix, committedLog);
    var claim := moved.value;
    ghost var logs := Logs(oracle, shape);
    assert vs.Rest() == records[2 * |sigma|..];
    var verdict := P.VerifyFactors(K, vs, B.Factors(claim.rowWeights, claim.columnWeights), claim.target, logs.0, logs.1);
    match verdict
    case Accepted(point, evaluation) => return Ok(V.Mle(point, evaluation));
    case MalformedProof | EvaluationMismatch => return Err(Closing(verdict));
  }

  lemma {:induction false} LeafIsClaim(
    K: Field, g: Elem, shape: F.Shape, v1: seq<nat>, folds: seq<nat>, records: seq<Elem>, zeta: seq<Elem>, sigma: seq<Elem>, claim: R.InnerProduct
  )
    requires shape.Admissible() && |v1| == shape.Rows() && |folds| == shape.Columns() && |zeta| == shape.logColumns
    requires var w := W.Outcome(K, R.Opening(K, zeta, Mle(K, S.ImagesOf(K, g, folds), zeta)), records, sigma);
      && !w.Rejected? && |w.point| == |zeta| + shape.logRows
      && claim == R.ClaimAt(K, S.ImagesOf(K, g, v1), |zeta|, G.Reverse(w.point), w.claim)
    ensures |records| >= 2 * |sigma|
    ensures LeafClaim(K, g, shape, v1, folds, records, zeta, sigma) == Some(claim)
    ensures ShapedClaim(claim, shape.logRows, shape.logColumns)
  {
    hide Mle;
  }

  // ---------------------------------------------------------------- the prover

  /** A table's words hold its bits, so they commit to it directly. */
  lemma {:induction false} DirectCommits(table: F.BitTable)
    requires table.Valid()
    ensures Suits(Direct, table.shape) && Commits(Direct, table, F.Flat(table.packed))
  {
    hide F.Flat;
    F.MatrixOf(table);
    Pow2Sum(table.shape.logRows, table.shape.logColumns);
    var flat, bits := F.Flat(table.packed), V.FlatBits(table);
    assert |flat| == |bits|;
    forall i: nat | i < |bits| ensures flat[i] == bits[i] {
      F.FlatAt(table.packed, i);
      FlatEntry(table, i);
    }
    assert flat == bits;
  }

  lemma {:induction false} BitOfWord(m: BM.BitMatrix, c: nat, r: nat, i: nat)
    requires m.Valid() && c < m.Dim1() && r < m.Dim2() && i == c * m.Dim2() + r
    ensures 0 <= i / BITS < |m.packed| && m.Bit(c, r) == m.packed[i / BITS][i % BITS]
  {
    BM.BitInside(m, c, r);
    M.NonNegative(i, BITS);
  }

  lemma {:induction false} FlatEntry(table: F.BitTable, i: nat)
    requires table.Valid() && i < table.shape.Rows() * table.shape.Columns()
    ensures 0 <= i / BITS < |table.packed| && V.FlatBit(table, i) == table.packed[i / BITS][i % BITS]
  {
    hide F.BitTable.Valid, BM.BitMatrix.Valid, BM.BitMatrix.Bit, BM.BitMatrix.Dim1, BM.BitMatrix.Dim2, Pow2, F.Shape.Rows, F.Shape.Columns;
    var rows := table.shape.Rows();
    F.MatrixOf(table);
    V.FlatIndex(rows, table.shape.Columns(), i);
    var c, r := i / rows, i % rows;
    assert i == c * rows + r;
    BitOfWord(table.AsMatrix(), c, r, i);
  }

  /** The layers' records are enough for the leaf claim, whatever follows them. */
  lemma {:induction false} HonestLeaf(
    K: Field, g: Elem, table: F.BitTable, v1: seq<nat>, zeta: seq<Elem>, sigma: seq<Elem>, more: seq<Elem>
  )
    requires K.Valid() && table.Valid() && |v1| == table.shape.Rows() && |zeta| == table.shape.logColumns
    requires |sigma| == LayerSteps(table.shape)
    ensures var images, n := S.ImagesOf(K, g, v1), table.shape.LogBits();
      var v := R.Opening(K, zeta, Mle(K, R.Outputs(K, table, images), zeta));
      var honest := W.HonestLayerRecords(K, CubeOf(R.TableLeaves(K, table, images), n), n, v, sigma);
      var w := W.Outcome(K, v, honest, sigma);
      && w.Running? && |w.point| == n
      && LeafClaim(K, g, table.shape, v1, S.HonestFolds(table, v1), honest + more, zeta, sigma)
        == Some(R.ClaimAt(K, images, |zeta|, G.Reverse(w.point), w.claim))
  {
    hide F.BitTable.Valid, Mle, R.Outputs, R.TableLeaves, CubeOf, W.HonestLayerRecords, W.Outcome, R.ClaimAt, G.Layer, Extension,
      T.Steps, T.HonestRun, G.Reverse, G.Top, Pow2, F.Raise;
    var images, n := S.ImagesOf(K, g, v1), table.shape.LogBits();
    var leaves := R.TableLeaves(K, table, images);
    var v := R.Opening(K, zeta, Mle(K, R.Outputs(K, table, images), zeta));
    var honest := W.HonestLayerRecords(K, CubeOf(leaves, n), n, v, sigma);
    S.HonestImages(K, g, table, v1);
    R.HonestOpening(K, table, images, zeta);
    GS.ProverMeetsVerifier(K, leaves, n, zeta, sigma, more);
    GS.ProverMeetsVerifier(K, leaves, n, zeta, sigma, []);
    assert honest + [] == honest;
    ReverseLength(W.Outcome(K, v, honest, sigma).point);
  }

  /** What the prover leaves: records on which the verifier derives the same, true, evaluation claim. */
  ghost predicate Convinces(
    K: Field, g: Elem, oracle: Oracle, table: F.BitTable, v1: seq<nat>, bits: seq<bool>, added: seq<Elem>,
    zeta: seq<Elem>, sigma: seq<Elem>, tau: seq<Elem>, query: V.OpeningQuery
  )
    requires table.Valid() && Suits(oracle, table.shape) && |v1| == table.shape.Rows() && Parted(oracle, table.shape, zeta, sigma, tau)
  {
    var (t, s) := Logs(oracle, table.shape);
    && Derived(K, g, oracle, table.shape, v1, S.HonestFolds(table, v1), added, zeta, sigma, tau) == Some(query)
    && V.Holds(K, query, t, s, bits)
  }

  /** The moved claim is the sum the closing prover checks. */
  lemma {:induction false} MovedIsSum(K: Field, oracle: Oracle, table: F.BitTable, claim: R.InnerProduct, bits: seq<bool>)
    requires K.Valid() && table.Valid() && Suits(oracle, table.shape) && Commits(oracle, table, bits)
    requires ShapedClaim(claim, table.shape.logRows, table.shape.logColumns) && R.TrueOf(K, claim, table)
    ensures var moved := Moved(K, oracle, table.shape, claim);
      var (t, s) := Logs(oracle, table.shape);
      var factors := B.Factors(moved.rowWeights, moved.columnWeights);
      && P.Shaped(factors, t, s) && |bits| == Pow2(t + s) == |factors.Weights(K)|
      && V.Holds(K, P.ClaimQuery(factors, moved.target), t, s, bits) && moved.target == R.BitSum(K, bits, factors.Weights(K))
  {
    hide F.BitTable.Valid, Commits, R.TrueOf, Moved, V.Holds, R.BitSum, B.Factors.Weights, Pow2, CubeOf;
    var (t, s) := Logs(oracle, table.shape);
    var moved := Moved(K, oracle, table.shape, claim);
    var factors := B.Factors(moved.rowWeights, moved.columnWeights);
    CommittedLength(oracle, table, bits);
    MovedMeans(K, oracle, table, claim, bits);
    assert P.ClaimQuery(factors, moved.target) == V.Factored(moved);
    P.ClaimIsInner(K, factors, t, s, moved.target, bits);
  }

  /** The same on the challenges a stream holds from some position on. */
  ghost predicate ConvincesOn(
    K: Field, g: Elem, oracle: Oracle, table: F.BitTable, v1: seq<nat>, bits: seq<bool>, added: seq<Elem>,
    challenges: nat -> Elem, from: nat, query: V.OpeningQuery
  )
    requires table.Valid() && Suits(oracle, table.shape) && |v1| == table.shape.Rows()
  {
    var n, m := table.shape.logColumns, LayerSteps(table.shape);
    Convinces(K, g, oracle, table, v1, bits, added, Drawn(challenges, from, n), Drawn(challenges, from + n, m),
      Drawn(challenges, from + n + m, ClosingSteps(oracle, table.shape)), query)
  }

  /** The closing records are the generic prover's on the moved claim. */
  ghost predicate ClosingProved(
    K: Field, oracle: Oracle, shape: F.Shape, claim: R.InnerProduct, bits: seq<bool>, tau: seq<Elem>, last: seq<Elem>, query: V.OpeningQuery
  )
    requires Suits(oracle, shape) && ShapedClaim(claim, shape.logRows, shape.logColumns)
    requires |tau| == ClosingSteps(oracle, shape) && |bits| == Pow2(|tau|)
  {
    var (t, s) := Logs(oracle, shape);
    var moved := Moved(K, oracle, shape, claim);
    P.Proved(K, B.Factors(moved.rowWeights, moved.columnWeights), t, s, bits, tau, last, query)
  }

  lemma {:induction false} ClosingConvinces(
    K: Field, g: Elem, oracle: Oracle, table: F.BitTable, v1: seq<nat>, bits: seq<bool>, layers: seq<Elem>, last: seq<Elem>,
    zeta: seq<Elem>, sigma: seq<Elem>, tau: seq<Elem>, claim: R.InnerProduct, query: V.OpeningQuery
  )
    requires K.Valid() && table.Valid() && Suits(oracle, table.shape) && Commits(oracle, table, bits)
    requires |v1| == table.shape.Rows() && Parted(oracle, table.shape, zeta, sigma, tau)
    requires ShapedClaim(claim, table.shape.logRows, table.shape.logColumns) && R.TrueOf(K, claim, table)
    requires |layers| == 2 * |sigma| && |bits| == Pow2(|tau|)
    requires LeafClaim(K, g, table.shape, v1, S.HonestFolds(table, v1), layers + last, zeta, sigma) == Some(claim)
    requires ClosingProved(K, oracle, table.shape, claim, bits, tau, last, query)
    ensures Convinces(K, g, oracle, table, v1, bits, layers + last, zeta, sigma, tau, query)
  {
    hide F.BitTable.Valid, Commits, R.TrueOf, Moved, V.Holds, R.BitSum, P.Proved, LeafClaim, Judged, P.WeightCube, T.Steps, Pow2;
    var (t, s) := Logs(oracle, table.shape);
    var moved := Moved(K, oracle, table.shape, claim);
    var factors := B.Factors(moved.rowWeights, moved.columnWeights);
    MovedIsSum(K, oracle, table, claim, bits);
    P.ReductionComplete(K, factors, t, s, moved.target, bits, tau, last, query);
    assert (layers + last)[2 * |sigma|..] == last;
  }

  /** The layers' records give the leaf claim, whatever follows them. */
  ghost predicate LeavesClaim(
    K: Field, g: Elem, table: F.BitTable, v1: seq<nat>, layers: seq<Elem>, zeta: seq<Elem>, sigma: seq<Elem>, claim: R.InnerProduct
  )
    requires table.Valid() && |v1| == table.shape.Rows() && |zeta| == table.shape.logColumns
  {
    forall more :: LeafClaim(K, g, table.shape, v1, S.HonestFolds(table, v1), layers + more, zeta, sigma) == Some(claim)
  }

  /** Folds the columns, draws the point and reduces the outputs to the bits. */
  method ProveLayers(K: Field, ps: ProverState, g: Elem, table: F.BitTable, v1: seq<nat>)
      returns (folds: seq<nat>, zeta: seq<Elem>, claim: R.InnerProduct, ghost layers: seq<Elem>)
    requires K.Valid() && table.Valid() && |v1| == table.shape.Rows() && table.shape.logColumns >= F.PACK_BITS
    modifies ps
    ensures folds == S.HonestFolds(table, v1) && zeta == Drawn(ps.challenges, old(ps.drawn), table.shape.logColumns)
    ensures ps.drawn == old(ps.drawn) + table.shape.logColumns + LayerSteps(table.shape)
    ensures ps.records == old(ps.records) + layers && |layers| == 2 * LayerSteps(table.shape)
    ensures R.TrueOf(K, claim, table)
    ensures LeavesClaim(K, g, table, v1, layers, zeta,
      Drawn(ps.challenges, old(ps.drawn) + table.shape.logColumns, LayerSteps(table.shape)), claim)
  {
    hide F.BitTable.Valid, F.BitTable.Bit, R.TrueOf, LeavesClaim, T.Steps, Drawn, F.Raise, Mle, R.Outputs, R.TableLeaves, CubeOf,
      W.HonestLayerRecords, W.Outcome, R.ClaimAt, G.Reverse, Pow2, F.Selected;
    ghost var from := ps.drawn;
    folds := F.FoldAll(table, v1);
    FoldsAreHonest(table, v1, folds);
    var images := MapImages(K, g, v1);
    zeta := DrawProver(ps, table.shape.logColumns);
    claim := R.GkrReduce(K, ps, table, images, zeta);
    ghost var sigma := Drawn(ps.challenges, from + table.shape.logColumns, LayerSteps(table.shape));
    layers := W.HonestLayerRecords(K, CubeOf(R.TableLeaves(K, table, images), table.shape.LogBits()), table.shape.LogBits(),
      R.Opening(K, zeta, Mle(K, R.Outputs(K, table, images), zeta)), sigma);
    HonestLeaves(K, g, table, v1, zeta, sigma, layers, claim);
  }

  lemma {:induction false} HonestLeaves(
    K: Field, g: Elem, table: F.BitTable, v1: seq<nat>, zeta: seq<Elem>, sigma: seq<Elem>, layers: seq<Elem>, claim: R.InnerProduct
  )
    requires K.Valid() && table.Valid() && |v1| == table.shape.Rows() && |zeta| == table.shape.logColumns
    requires |sigma| == LayerSteps(table.shape)
    requires var images, n := S.ImagesOf(K, g, v1), table.shape.LogBits();
      var v := R.Opening(K, zeta, Mle(K, R.Outputs(K, table, images), zeta));
      var w := W.Outcome(K, v, layers, sigma);
      && layers == W.HonestLayerRecords(K, CubeOf(R.TableLeaves(K, table, images), n), n, v, sigma)
      && w.Running? && |w.point| == n && claim == R.ClaimAt(K, images, |zeta|, G.Reverse(w.point), w.claim)
    ensures LeavesClaim(K, g, table, v1, layers, zeta, sigma, claim)
  {
    assert table.shape.Admissible();
    hide F.BitTable.Valid, LeafClaim, T.Steps, F.Raise, Mle, R.Outputs, R.TableLeaves, CubeOf, W.HonestLayerRecords, W.Outcome,
      R.ClaimAt, G.Reverse, Pow2;
    forall more ensures LeafClaim(K, g, table.shape, v1, S.HonestFolds(table, v1), layers + more, zeta, sigma) == Some(claim) {
      HonestLeaf(K, g, table, v1, zeta, sigma, more);
    }
  }

  /** Moves a true claim and proves it against the committed words. */
  method ProveClosing(
    K: Field, ps: ProverState, table: F.BitTable, claim: R.InnerProduct, committed: seq<Bits>,
    matrix: Option<TM.MaterializedMTranspose>, committedLog: nat, ghost oracle: Oracle
  ) returns (result: Result<V.OpeningQuery, P.ProveError>)
    requires K.Valid() && table.Valid() && Suits(oracle, table.shape) && Holding(oracle, matrix, committedLog)
    requires Commits(oracle, table, F.Flat(committed)) && R.TrueOf(K, claim, table)
    modifies ps
    ensures ShapedClaim(claim, table.shape.logRows, table.shape.logColumns)
    ensures result.Ok? && old(ps.records) <= ps.records && |F.Flat(committed)| == Pow2(ClosingSteps(oracle, table.shape))
    ensures ClosingProved(K, oracle, table.shape, claim, F.Flat(committed),
      Drawn(ps.challenges, old(ps.drawn), ClosingSteps(oracle, table.shape)), ps.records[|old(ps.records)|..], result.value)
  {
    hide F.BitTable.Valid, Commits, Moved, R.BitSum, P.Proved, Drawn, F.Flat, B.Factors.Weights, Pow2, B.Factors.PackedLen,
      TM.TransposeOf, MT.AllWithin, R.TableSum, V.Holds;
    var moved := MoveClaim(K, oracle, table.shape, claim, matrix, committedLog);
    MovedIsSum(K, oracle, table, claim, F.Flat(committed));
    ghost var logs := Logs(oracle, table.shape);
    var factors := B.Factors(moved.value.rowWeights, moved.value.columnWeights);
    P.ShapedSizes(K, factors, logs.0, logs.1);
    result := P.ProveFactors(K, ps, factors, moved.value.target, committed, logs.0, logs.1);
  }

  /** The prover: on every challenge stream, the verifier derives the same evaluation claim from what is
      left here, and the claim is true of what was committed. */
  method Prove(
    K: Field, ps: ProverState, g: Elem, table: F.BitTable, v1: seq<nat>, committed: seq<Bits>,
    matrix: Option<TM.MaterializedMTranspose>, committedLog: nat, ghost oracle: Oracle
  ) returns (folds: seq<nat>, result: Result<V.OpeningQuery, P.ProveError>)
    requires K.Valid() && table.Valid() && Suits(oracle, table.shape) && Holding(oracle, matrix, committedLog)
    requires Commits(oracle, table, F.Flat(committed)) && |v1| == table.shape.Rows() && table.shape.logColumns >= F.PACK_BITS
    modifies ps
    ensures folds == S.HonestFolds(table, v1) && result.Ok? && old(ps.records) <= ps.records
    ensures ConvincesOn(K, g, oracle, table, v1, F.Flat(committed), ps.records[|old(ps.records)|..], ps.challenges, old(ps.drawn),
      result.value)
  {
    hide F.BitTable.Valid, Commits, R.TrueOf, LeafClaim, T.Steps, Drawn, F.Flat, Pow2, ClosingProved, Convinces, Holding, Logs,
      F.Selected;
    ghost var before, from := ps.records, ps.drawn;
    ghost var layers;
    var zeta, claim;
    folds, zeta, claim, layers := ProveLayers(K, ps, g, table, v1);
    result := ProveClosing(K, ps, table, claim, committed, matrix, committedLog, oracle);
    ghost var last := ps.records[|before + layers|..];
    ghost var sigma := Drawn(ps.challenges, from + table.shape.logColumns, LayerSteps(table.shape));
    ghost var tau := Drawn(ps.challenges, from + table.shape.logColumns + |sigma|, ClosingSteps(oracle, table.shape));
    ClosingConvinces(K, g, oracle, table, v1, F.Flat(committed), layers, last, zeta, sigma, tau, claim, result.value);
    AddedRecords(before, layers, ps.records);
  }

  lemma {:induction false} AddedRecords(before: seq<Elem>, layers: seq<Elem>, after: seq<Elem>)
    requires before + layers <= after
    ensures before <= after && after[|before|..] == layers + after[|before + layers|..]
  {
    assert after[..|before + layers|] == before + layers;
    assert after == before + layers + after[|before + layers|..];
  }

  lemma {:induction false} FoldsAreHonest(table: F.BitTable, v1: seq<nat>, folds: seq<nat>)
    requires table.Valid() && |v1| == table.shape.Rows()
    requires folds == F.ColumnFolds(F.Columns(table), table.shape.Rows(), v1)
    ensures folds == S.HonestFolds(table, v1)
  {
    hide F.BitTable.Valid, F.BitTable.Bit, F.Selected;
    var rows, columns := table.shape.Rows(), F.Columns(table);
    forall j | 0 <= j < |columns| ensures columns[j][..rows] == F.ColumnBits(table, j) {}
  }
}
