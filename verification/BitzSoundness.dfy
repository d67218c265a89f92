/** The verifier of the whole reduction on challenge streams: what it accepts, and how seldom it is wrong. */
module BitzSoundness {
  import opened Wrappers
  import opened FiniteField
  import opened ChallengeCounting
  import opened Transcript
  import opened Sumcheck
  import opened BitzProtocol
  import opened BitzSystem
  import F = Folds
  import S = FoldSoundness
  import V = VirtualMap
  import P = PostGkr
  import T = GkrTheorems

  /** When the folds pass, the answer is the derived query, or an error where nothing is derived. */
  lemma {:induction false} AnswerIsDerived(
    K: Field, g: Elem, oracle: Oracle, shape: F.Shape, q: nat, v1: seq<nat>, v2: seq<nat>, target: nat, folds: seq<nat>,
    records: seq<Elem>, zeta: seq<Elem>, sigma: seq<Elem>, tau: seq<Elem>
  )
    requires Suits(oracle, shape) && q > 0 && |v1| == shape.Rows() && |folds| == shape.Columns() && Parted(oracle, shape, zeta, sigma, tau)
    ensures var answer := Answer(K, g, oracle, shape, q, v1, v2, target, folds, records, zeta, sigma, tau);
      var derived := Derived(K, g, oracle, shape, v1, folds, records, zeta, sigma, tau);
      && (answer.Ok? <==> FoldReason(shape, q, v2, target, folds).Accepted? && derived.Some?)
      && (answer.Ok? ==> derived == Some(answer.value))
  {
    hide FoldReason, LeafClaim, SumcheckProtocol.Judged, P.WeightCube, Moved, T.Steps;
  }

  // ---------------------------------------------------------------- an adaptive prover on a stream

  /** The verifier accepts what the prover sends on this stream, with an evaluation claim that is true. */
  ghost predicate Fooled(
    K: Field, g: Elem, oracle: Oracle, shape: F.Shape, q: nat, v1: seq<nat>, v2: seq<nat>, target: nat, folds: seq<nat>,
    bits: seq<bool>, strategy: Strategy, closing: seq<Elem> -> Elem, challenges: nat -> Elem, from: nat
  )
    requires Suits(oracle, shape) && q > 0 && |v1| == shape.Rows() && |folds| == shape.Columns()
  {
    var zeta := Drawn(challenges, from, shape.logColumns);
    var rest := Drawn(challenges, from + shape.logColumns, LayerSteps(shape) + ClosingSteps(oracle, shape));
    var answer := AnswerOn(K, g, oracle, shape, q, v1, v2, target, folds, Sent(strategy, closing, zeta, rest), challenges, from);
    answer.Ok? && V.Holds(K, answer.value, Logs(oracle, shape).0, Logs(oracle, shape).1, bits)
  }

  /** The challenge vectors on whose streams that happens. */
  ghost function FoolingDraws(
    K: Field, g: Elem, oracle: Oracle, shape: F.Shape, q: nat, v1: seq<nat>, v2: seq<nat>, target: nat, folds: seq<nat>,
    bits: seq<bool>, strategy: Strategy, closing: seq<Elem> -> Elem, from: nat
  ): set<seq<Elem>>
    requires Suits(oracle, shape) && q > 0 && |v1| == shape.Rows() && |folds| == shape.Columns()
  {
    set rho | rho in Vectors(K, AllSteps(oracle, shape))
      && Fooled(K, g, oracle, shape, q, v1, v2, target, folds, bits, strategy, closing, StreamOf(rho, from, K.zero), from)
  }

  /** The three parts a stream draws are those of the whole. */
  lemma {:induction false} DrawnParts(oracle: Oracle, shape: F.Shape, challenges: nat -> Elem, from: nat, rho: seq<Elem>)
    requires rho == Drawn(challenges, from, AllSteps(oracle, shape))
    ensures var a, b := shape.logColumns, shape.logColumns + LayerSteps(shape);
      && rho[..a] == Drawn(challenges, from, shape.logColumns)
      && rho[a..b] == Drawn(challenges, from + a, LayerSteps(shape))
      && rho[b..] == Drawn(challenges, from + a + LayerSteps(shape), ClosingSteps(oracle, shape))
      && rho[a..b] + rho[b..] == Drawn(challenges, from + a, LayerSteps(shape) + ClosingSteps(oracle, shape))
  {
    hide Drawn, LayerSteps, ClosingSteps;
    var n, a, b := AllSteps(oracle, shape), shape.logColumns, shape.logColumns + LayerSteps(shape);
    DrawnPart(challenges, from, n, 0, a);
    DrawnPart(challenges, from, n, a, b);
    DrawnPart(challenges, from, n, b, n);
    DrawnPart(challenges, from, n, a, n);
    assert rho[0..a] == rho[..a] && rho[b..n] == rho[b..] && rho[a..n] == rho[a..b] + rho[b..];
  }

  /** Being fooled depends on the drawn challenges alone: folds that pass, and a cheated run on them. */
  lemma {:induction false} FooledIsCheated(
    K: Field, g: Elem, oracle: Oracle, shape: F.Shape, q: nat, v1: seq<nat>, v2: seq<nat>, target: nat, folds: seq<nat>,
    bits: seq<bool>, strategy: Strategy, closing: seq<Elem> -> Elem, challenges: nat -> Elem, from: nat
  )
    requires Suits(oracle, shape) && q > 0 && |v1| == shape.Rows() && |folds| == shape.Columns()
    ensures var rho := Drawn(challenges, from, AllSteps(oracle, shape));
      var a, b := shape.logColumns, shape.logColumns + LayerSteps(shape);
      var cheated := CheatedAt(K, g, oracle, shape, v1, folds, bits, strategy, closing, rho[..a], rho[a..b], rho[b..]);
      Fooled(K, g, oracle, shape, q, v1, v2, target, folds, bits, strategy, closing, challenges, from)
      <==> FoldReason(shape, q, v2, target, folds).Accepted? && cheated
  {
    hide FoldReason, Derived, Answer, Drawn, Sent, V.Holds, T.Steps, LayerSteps, ClosingSteps;
    var rho := Drawn(challenges, from, AllSteps(oracle, shape));
    var a, b := shape.logColumns, shape.logColumns + LayerSteps(shape);
    DrawnParts(oracle, shape, challenges, from, rho);
    AnswerIsDerived(K, g, oracle, shape, q, v1, v2, target, folds, Sent(strategy, closing, rho[..a], rho[a..b] + rho[b..]),
      rho[..a], rho[a..b], rho[b..]);
  }

  /** Every stream on which the verifier is fooled draws one of the counted vectors. */
  lemma {:induction false} FooledDraws(
    K: Field, g: Elem, oracle: Oracle, shape: F.Shape, q: nat, v1: seq<nat>, v2: seq<nat>, target: nat, folds: seq<nat>,
    bits: seq<bool>, strategy: Strategy, closing: seq<Elem> -> Elem, challenges: nat -> Elem, from: nat
  )
    requires K.Valid() && Suits(oracle, shape) && q > 0 && |v1| == shape.Rows() && |folds| == shape.Columns()
    ensures Fooled(K, g, oracle, shape, q, v1, v2, target, folds, bits, strategy, closing, challenges, from)
      <==> Drawn(challenges, from, AllSteps(oracle, shape))
             in FoolingDraws(K, g, oracle, shape, q, v1, v2, target, folds, bits, strategy, closing, from)
  {
    hide Fooled, CheatedAt, FoldReason, Drawn, StreamOf, AllSteps, Vectors;
    var rho := Drawn(challenges, from, AllSteps(oracle, shape));
    StreamDraws(rho, from, K.zero);
    VectorsAreAll(K, |rho|, rho);
    FooledIsCheated(K, g, oracle, shape, q, v1, v2, target, folds, bits, strategy, closing, challenges, from);
    FooledIsCheated(K, g, oracle, shape, q, v1, v2, target, folds, bits, strategy, closing, StreamOf(rho, from, K.zero), from);
  }

  /** Soundness of the verifier over streams: when the integer claim modulo `q` is false of the table, then
      for every list of folds and every adaptive prover, few of the vectors a stream may draw make the
      verifier accept with an evaluation claim that is true of what was committed. */
  lemma {:induction false} VerifierSoundness(
    K: Field, g: Elem, oracle: Oracle, table: F.BitTable, q: nat, v1: seq<nat>, v2: seq<nat>, target: nat, folds: seq<nat>,
    bits: seq<bool>, strategy: Strategy, closing: seq<Elem> -> Elem, from: nat
  )
    requires K.Valid() && F.FullOrder(K, g) && Setting(g, table, oracle, v1, folds, bits)
    requires q > 0 && F.FoldGate(table.shape, q) && |v2| == table.shape.Columns()
    requires forall i :: 0 <= i < |v1| ==> v1[i] < q
    requires F.BilinearValue(F.Columns(table), table.shape.Rows(), v1, v2) % q != target
    ensures AtMost(K, AllSteps(oracle, table.shape),
      FoolingDraws(K, g, oracle, table.shape, q, v1, v2, target, folds, bits, strategy, closing, from),
      ProtocolError(oracle, table.shape))
  {
    hide F.BitTable.Valid, Commits, AtMost, Vectors, Cheated, F.FoldGate, F.BilinearValue, F.WeightedSum, S.InRange, F.FullOrder,
      ProtocolError, AllSteps, Fooled, FoolingDraws;
    var shape, n := table.shape, AllSteps(oracle, table.shape);
    var fooling := FoolingDraws(K, g, oracle, shape, q, v1, v2, target, folds, bits, strategy, closing, from);
    var cheated := Cheated(K, g, oracle, shape, v1, folds, bits, strategy, closing);
    if FoldReason(shape, q, v2, target, folds).Accepted? {
      ProtocolSoundness(K, g, oracle, table, q, v1, v2, target, folds, bits, strategy, closing);
      forall rho | rho in fooling ensures rho in cheated {
        FoolingIsCheated(K, g, oracle, shape, q, v1, v2, target, folds, bits, strategy, closing, from, rho);
      }
      SubsetAtMost(K, n, fooling, cheated, ProtocolError(oracle, shape));
    } else {
      forall rho ensures rho !in fooling {
        if rho in fooling { FoolingIsCheated(K, g, oracle, shape, q, v1, v2, target, folds, bits, strategy, closing, from, rho); }
      }
      assert fooling == {};
      Nothing(K, n, ProtocolError(oracle, shape));
    }
  }

  /** The bound in numbers: `s` for the folds, the layers' closed form, and two for each closing round. */
  lemma {:induction false} ErrorInNumbers(oracle: Oracle, shape: F.Shape)
    ensures var (r, s) := (shape.logRows, shape.logColumns);
      var c := if oracle.Mapped? then oracle.committedLog else r + s;
      && 2 * AllSteps(oracle, shape) == 2 * s + r * (2 * s + r + 1) + 2 * c
      && 2 * ProtocolError(oracle, shape) == 2 * s + r * (6 * s + 3 * r - 1) + 4 * c
  {
    hide T.Steps, T.ErrorBound;
    T.ClosedForms(shape.logColumns, shape.logRows);
  }

  lemma {:induction false} FoolingIsCheated(
    K: Field, g: Elem, oracle: Oracle, shape: F.Shape, q: nat, v1: seq<nat>, v2: seq<nat>, target: nat, folds: seq<nat>,
    bits: seq<bool>, strategy: Strategy, closing: seq<Elem> -> Elem, from: nat, rho: seq<Elem>
  )
    requires K.Valid() && Suits(oracle, shape) && q > 0 && |v1| == shape.Rows() && |folds| == shape.Columns()
    requires rho in FoolingDraws(K, g, oracle, shape, q, v1, v2, target, folds, bits, strategy, closing, from)
    ensures FoldReason(shape, q, v2, target, folds).Accepted?
    ensures rho in Cheated(K, g, oracle, shape, v1, folds, bits, strategy, closing)
  {
    hide Fooled, CheatedAt, FoldReason, Drawn, StreamOf, AllSteps, Vectors;
    VectorsAreAll(K, AllSteps(oracle, shape), rho);
    StreamDraws(rho, from, K.zero);
    FooledIsCheated(K, g, oracle, shape, q, v1, v2, target, folds, bits, strategy, closing, StreamOf(rho, from, K.zero), from);
  }

  // ---------------------------------------------------------------- the honest prover

  /** Completeness of the verifier over streams: on a true integer claim it accepts what the prover leaves,
      with the prover's own evaluation claim. */
  lemma {:induction false} VerifierCompleteness(
    K: Field, g: Elem, oracle: Oracle, table: F.BitTable, q: nat, v1: seq<nat>, v2: seq<nat>, target: nat,
    bits: seq<bool>, records: seq<Elem>, challenges: nat -> Elem, from: nat, query: V.OpeningQuery
  )
    requires K.Valid() && table.Valid() && Suits(oracle, table.shape) && |v1| == table.shape.Rows() && |v2| == table.shape.Columns()
    requires q > 0 && forall i :: 0 <= i < |v1| ==> v1[i] < q
    requires F.BilinearValue(F.Columns(table), table.shape.Rows(), v1, v2) % q == target
    requires ConvincesOn(K, g, oracle, table, v1, bits, records, challenges, from, query)
    ensures AnswerOn(K, g, oracle, table.shape, q, v1, v2, target, S.HonestFolds(table, v1), records, challenges, from) == Ok(query)
  {
    hide F.BitTable.Valid, F.BitTable.Bit, Derived, Drawn, F.BilinearValue, F.WeightedSum, S.InRange, V.Holds, Answer, T.Steps, Logs,
      F.Selected;
    var shape, folds := table.shape, S.HonestFolds(table, v1);
    var n, m := shape.logColumns, LayerSteps(shape);
    S.HonestInRange(table, v1, q);
    FoldsAreHonest(table, v1, F.ColumnFolds(F.Columns(table), shape.Rows(), v1));
    F.FoldsReconstruct(F.Columns(table), shape.Rows(), v1, v2);
    AnswerIsDerived(K, g, oracle, shape, q, v1, v2, target, folds, records, Drawn(challenges, from, n), Drawn(challenges, from + n, m),
      Drawn(challenges, from + n + m, ClosingSteps(oracle, shape)));
  }
}
