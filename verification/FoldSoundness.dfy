/** What a dishonest fold round survives: false folds are caught by the challenge point, and false
    output claims by the layers. */
module FoldSoundness {
  import opened FiniteField
  import opened Multilinear
  import opened Powers
  import opened Cubes
  import opened ChallengeCounting
  import opened Transcript
  import opened Sumcheck
  import opened SumcheckProtocol
  import opened Gkr
  import opened GkrTheorems
  import opened GkrVerifier
  import opened GkrSystem
  import opened Folds
  import opened GrandProducts
  import opened Reduction

  // ---------------------------------------------------------------- two tables at a random point

  lemma {:induction false} PairsDiffer(K: Field, a: Elem, b: Elem, a': Elem, b': Elem, E: set<Elem>)
    requires K.Valid() && (a != a' || b != b')
    requires forall c :: c in E ==> Lerp(K, a, b, c) == Lerp(K, a', b', c)
    ensures |E| <= 1
  {
    var c0, c1 := K.add(a, a'), K.add(K.add(b, a), K.add(b', a'));
    forall c | c in E ensures K.add(c0, K.mul(c, c1)) == K.zero {
      K.ZeroSum(Lerp(K, a, b, c), Lerp(K, a', b', c));
      K.Dist(c, K.add(b, a), K.add(b', a'));
      GroupedSum(K, a, K.mul(c, K.add(b, a)), a', K.mul(c, K.add(b', a')));
    }
    K.ZeroSum(a, a');
    K.ZeroSum(K.add(b, a), K.add(b', a'));
    if a == a' && K.add(b, a) == K.add(b', a') { SameSummand(K, b, b', a); }
    AtMostOneRoot(K, c0, c1, E);
  }

  lemma {:induction false} GroupedSum(K: Field, a: Elem, x: Elem, b: Elem, y: Elem)
    requires K.Valid()
    ensures K.add(K.add(a, x), K.add(b, y)) == K.add(K.add(a, b), K.add(x, y))
  {
    K.Additive();
  }

  lemma {:induction false} SameSummand(K: Field, b: Elem, b': Elem, a: Elem)
    requires K.Valid() && K.add(b, a) == K.add(b', a)
    ensures b == b'
  {
    K.Additive();
    assert K.add(K.add(b, a), a) == b && K.add(K.add(b', a), a) == b';
  }

  /** Different tables become equal at no more than one value of their lowest variable. */
  lemma {:induction false} BindsDiffer(K: Field, x: Cube, y: Cube, m: nat, E: set<Elem>)
    requires K.Valid() && m > 0 && Full(x, m) && Full(y, m) && x != y
    requires forall c :: c in E ==> BindLow(K, x, c) == BindLow(K, y, c)
    ensures |E| <= 1
    decreases m
  {
    if m == 1 {
      PairsDiffer(K, x.lo.value, x.hi.value, y.lo.value, y.hi.value, E);
    } else if x.lo != y.lo {
      BindsDiffer(K, x.lo, y.lo, m - 1, E);
    } else {
      BindsDiffer(K, x.hi, y.hi, m - 1, E);
    }
  }

  ghost function Agreements(K: Field, a: seq<Elem>, b: seq<Elem>, s: nat): set<seq<Elem>>
    requires |a| == |b| == Pow2(s)
  {
    set p | p in Vectors(K, s) && |p| == s && Mle(K, a, p) == Mle(K, b, p)
  }

  ghost function Ones(s: nat): (d: seq<nat>)
    ensures |d| == s && forall i :: 0 <= i < s ==> d[i] == 1
  {
    if s == 0 then [] else Ones(s - 1) + [1]
  }

  lemma {:induction false} TotalOnes(s: nat)
    ensures Total(Ones(s)) == s
  {
    if s > 0 { TotalOnes(s - 1); }
  }

  ghost predicate Unequal(K: Field, x: Cube, y: Cube, v: seq<Elem>) {
    BindAll(K, x, v) != BindAll(K, y, v)
  }

  lemma {:induction false} FewLuckyPoints(K: Field, x: Cube, y: Cube, s: nat, lie: seq<Elem> -> bool)
    requires K.Valid() && Full(x, s) && Full(y, s) && forall v :: lie(v) == Unequal(K, x, y, v)
    ensures LuckyAtMost(K, s, lie, Ones(s))
  {
    hide BindLow;
    forall v: seq<Elem> {:trigger Lucky(K, lie, v)} | |v| < s && lie(v) ensures |Lucky(K, lie, v)| <= Ones(s)[|v|] {
      BindAllFull(K, x, v, s);
      BindAllFull(K, y, v, s);
      var E := Lucky(K, lie, v);
      forall c | c in E ensures BindLow(K, BindAll(K, x, v), c) == BindLow(K, BindAll(K, y, v), c) {
        assert !Unequal(K, x, y, v + [c]);
        assert (v + [c])[..|v|] == v;
      }
      BindsDiffer(K, BindAll(K, x, v), BindAll(K, y, v), s - |v|, E);
    }
  }

  /** Different tables on `s` variables have equal extensions at no more than `s N^(s-1)` points. */
  lemma {:induction false} FewAgreements(K: Field, a: seq<Elem>, b: seq<Elem>, s: nat)
    requires K.Valid() && |a| == |b| == Pow2(s) && a != b
    ensures AtMost(K, s, Agreements(K, a, b, s), s)
  {
    hide BindAll, Full, Mle, Extension, LuckyAtMost, AtMost, CubeOf, Vectors;
    var x, y := CubeOf(a, s), CubeOf(b, s);
    if x == y { CubeDetermines(a, b, s); }
    var lie := (v: seq<Elem>) => Unequal(K, x, y, v);
    FewLuckyPoints(K, x, y, s, lie);
    TotalOnes(s);
    StartsUnequal(K, x, y);
    EscapeBound(K, s, lie, Ones(s), s);
    forall p | p in Agreements(K, a, b, s) ensures p in Escapes(K, s, lie) {
      EqualAtEnd(K, a, b, s, p);
    }
    SubsetAtMost(K, s, Agreements(K, a, b, s), Escapes(K, s, lie), s);
  }

  lemma {:induction false} StartsUnequal(K: Field, x: Cube, y: Cube)
    requires x != y
    ensures Unequal(K, x, y, [])
  {
  }

  lemma {:induction false} EqualAtEnd(K: Field, a: seq<Elem>, b: seq<Elem>, s: nat, p: seq<Elem>)
    requires K.Valid() && |a| == |b| == Pow2(s) && |p| == s && Mle(K, a, p) == Mle(K, b, p)
    ensures !Unequal(K, CubeOf(a, s), CubeOf(b, s), p)
  {
    hide BindAll, Mle, CubeOf;
    var x, y := CubeOf(a, s), CubeOf(b, s);
    ExtensionIsMle(K, a, p);
    ExtensionIsMle(K, b, p);
    BindAllExtension(K, x, p, []);
    BindAllExtension(K, y, p, []);
    assert p + [] == p;
  }

  // ---------------------------------------------------------------- the fold round

  datatype Received = Accepted | FoldOutOfRange | TargetMismatch | ColumnMismatch

  /** The verifier's checks of the folds it read: every fold in range, then the reconstruction. */
  method ReceiveFolds(shape: Shape, q: nat, columnWeights: seq<nat>, folds: seq<nat>, target: nat) returns (r: Received)
    requires q > 0
    ensures r.FoldOutOfRange? <==> exists j :: 0 <= j < |folds| && folds[j] > FoldBound(shape, q)
    ensures r.ColumnMismatch? <==> InRange(shape, q, folds) && |folds| != |columnWeights|
    ensures r.TargetMismatch? <==>
      && InRange(shape, q, folds) && |folds| == |columnWeights|
      && WeightedSum(columnWeights, folds) % q != target
    ensures r.Accepted? <==>
      && InRange(shape, q, folds) && |folds| == |columnWeights|
      && WeightedSum(columnWeights, folds) % q == target
  {
    for j := 0 to |folds|
      invariant forall i :: 0 <= i < j ==> folds[i] <= FoldBound(shape, q)
    {
      if folds[j] > FoldBound(shape, q) { return FoldOutOfRange; }
    }
    var value := Reconstruct(columnWeights, folds, q);
    match value
    case ColumnCountMismatch => return ColumnMismatch;
    case Value(residue) => return if residue == target then Received.Accepted else TargetMismatch;
  }

  ghost predicate InRange(shape: Shape, q: nat, folds: seq<nat>)
    requires q > 0
  {
    forall j :: 0 <= j < |folds| ==> folds[j] <= FoldBound(shape, q)
  }

  ghost function ImagesOf(K: Field, g: Elem, folds: seq<nat>): (images: seq<Elem>)
    ensures Images(K, g, folds, images)
  {
    seq(|folds|, j requires 0 <= j < |folds| => Raise(K, g, folds[j]))
  }

  /** The folds the table really has. */
  ghost function HonestFolds(table: BitTable, exponents: seq<nat>): (folds: seq<nat>)
    requires table.Valid() && |exponents| == table.shape.Rows()
    ensures |folds| == table.shape.Columns()
    ensures forall j :: 0 <= j < |folds| ==> folds[j] == Selected(ColumnBits(table, j), exponents)
  {
    seq(table.shape.Columns(), j requires 0 <= j < table.shape.Columns() => Selected(ColumnBits(table, j), exponents))
  }

  /** The folds' images are the circuit's outputs on the rows' images. */
  lemma {:induction false} HonestImages(K: Field, g: Elem, table: BitTable, exponents: seq<nat>)
    requires K.Valid() && table.Valid() && |exponents| == table.shape.Rows()
    ensures ImagesOf(K, g, HonestFolds(table, exponents)) == Outputs(K, table, ImagesOf(K, g, exponents))
  {
    hide BitTable.Valid, BitTable.Bit, Leaves, CubeOf, Layer, LayerTable, Selected, Raise;
    var images := ImagesOf(K, g, exponents);
    var leaves, n := TableLeaves(K, table, images), table.shape.LogBits();
    LayerTableIs(K, leaves, n, table.shape.logColumns);
    var outputs := Outputs(K, table, images);
    forall j | 0 <= j < table.shape.Columns()
      ensures outputs[j] == Raise(K, g, HonestFolds(table, exponents)[j])
    {
      OutputIsImage(K, g, table, exponents, images, outputs, j);
    }
  }

  lemma {:induction false} HonestInRange(table: BitTable, exponents: seq<nat>, q: nat)
    requires table.Valid() && |exponents| == table.shape.Rows() && q > 0
    requires forall i :: 0 <= i < |exponents| ==> exponents[i] < q
    ensures InRange(table.shape, q, HonestFolds(table, exponents))
  {
    forall j | 0 <= j < table.shape.Columns() ensures HonestFolds(table, exponents)[j] <= FoldBound(table.shape, q) {
      FoldBounded(ColumnBits(table, j), exponents, q);
    }
  }

  /** Accepted folds other than the table's leave a true output claim at no more than `s N^(s-1)` of
      the challenge points. */
  lemma {:induction false} FalseFoldsCaught(
    K: Field, g: Elem, table: BitTable, exponents: seq<nat>, q: nat, folds: seq<nat>
  )
    requires K.Valid() && FullOrder(K, g) && table.Valid() && q > 0 && FoldGate(table.shape, q)
    requires |exponents| == table.shape.Rows() && forall i :: 0 <= i < |exponents| ==> exponents[i] < q
    requires |folds| == table.shape.Columns() && InRange(table.shape, q, folds) && folds != HonestFolds(table, exponents)
    ensures AtMost(K, table.shape.logColumns,
      Agreements(K, ImagesOf(K, g, folds), Outputs(K, table, ImagesOf(K, g, exponents)), table.shape.logColumns),
      table.shape.logColumns)
  {
    hide BitTable.Valid, Agreements, AtMost, FullOrder, Raise, Outputs, FoldGate, Selected, FoldBound;
    var honest := HonestFolds(table, exponents);
    HonestInRange(table, exponents, q);
    HonestImages(K, g, table, exponents);
    var j :| 0 <= j < |folds| && folds[j] != honest[j];
    ImageDeterminesFold(K, g, table.shape, q, folds[j], honest[j]);
    assert ImagesOf(K, g, folds)[j] != ImagesOf(K, g, honest)[j];
    FewAgreements(K, ImagesOf(K, g, folds), ImagesOf(K, g, honest), table.shape.logColumns);
  }

  /** Folds that reconstruct a value the table does not have are not the table's folds. */
  lemma {:induction false} FalseTargetNeedsFalseFolds(
    table: BitTable, v1: seq<nat>, v2: seq<nat>, q: nat, folds: seq<nat>, target: nat
  )
    requires table.Valid() && q > 0 && |v1| == table.shape.Rows() && |v2| == table.shape.Columns() == |folds|
    requires WeightedSum(v2, folds) % q == target
    requires BilinearValue(Columns(table), table.shape.Rows(), v1, v2) % q != target
    ensures folds != HonestFolds(table, v1)
  {
    hide BitTable.Valid, BitTable.Bit, WeightedSum, BilinearValue, Selected;
    var columns, rows := Columns(table), table.shape.Rows();
    FoldsReconstruct(columns, rows, v1, v2);
    forall j | 0 <= j < |columns| ensures columns[j][..rows] == ColumnBits(table, j) {}
    assert ColumnFolds(columns, rows, v1) == HonestFolds(table, v1);
  }

  // ---------------------------------------------------------------- the layers

  /** The challenge vectors on which the verifier, started from `e0`, accepts an adaptive prover's
      records and emits a claim that is true of the table. */
  ghost function FalselyReduced(
    K: Field, table: BitTable, images: seq<Elem>, zeta: seq<Elem>, e0: Elem, strategy: Strategy
  ): set<seq<Elem>>
    requires table.Valid() && |images| == table.shape.Rows() && |zeta| == table.shape.logColumns
  {
    set rho | rho in Vectors(K, Steps(|zeta|, table.shape.logRows))
      && var w := Outcome(K, Opening(K, zeta, e0), Played(strategy, rho), rho);
         w.Running? && |w.point| == table.shape.LogBits() && |w.bound| == 0
         && TrueOf(K, ClaimAt(K, images, |zeta|, Reverse(w.point), w.claim), table)
  }

  /** From a false output claim, few challenge vectors end with a true claim on the committed bits. */
  lemma {:induction false} ReductionSoundness(
    K: Field, table: BitTable, images: seq<Elem>, zeta: seq<Elem>, e0: Elem, strategy: Strategy
  )
    requires K.Valid() && table.Valid() && |images| == table.shape.Rows() && |zeta| == table.shape.logColumns
    requires e0 != Mle(K, Outputs(K, table, images), zeta)
    ensures AtMost(K, Steps(|zeta|, table.shape.logRows), FalselyReduced(K, table, images, zeta, e0, strategy),
      ErrorBound(|zeta|, table.shape.logRows))
  {
    hide BitTable.Valid, BitTable.Bit, Leaves, CubeOf, Layer, LayerTable, Mle, Outcome, TrueOf, ClaimAt, AtMost, ErrorBound,
      Vectors, Steps, Extension, Outputs, Reverse;
    var leaves, n := TableLeaves(K, table, images), table.shape.LogBits();
    LogsOf(table);
    HonestOpening(K, table, images, zeta);
    GpgkrSoundness(K, leaves, n, zeta, e0, strategy);
    var F, G := FalselyReduced(K, table, images, zeta, e0, strategy), FalselyAccepted(K, leaves, n, zeta, e0, strategy);
    forall rho | rho in F ensures rho in G {
      var w := Outcome(K, Opening(K, zeta, e0), Played(strategy, rho), rho);
      ClaimTrueIff(K, table, images, Reverse(w.point), w.claim);
    }
    SubsetAtMost(K, Steps(|zeta|, table.shape.logRows), F, G, ErrorBound(|zeta|, table.shape.logRows));
  }
}
