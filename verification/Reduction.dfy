/** From the grand product to an inner-product claim on the committed bits, on both sides. */
module Reduction {
  import opened Wrappers
  import opened FiniteField
  import opened Multilinear
  import opened Powers
  import opened Cubes
  import opened Transcript
  import opened Gkr
  import opened GkrTheorems
  import opened GkrVerifier
  import opened GkrSystem
  import opened BitMatrices
  import opened Folds
  import opened GrandProducts

  // ---------------------------------------------------------------- weighted sums of bits

  /** The sum of the weights at the set bits. */
  ghost function BitSum(K: Field, bits: seq<bool>, w: seq<Elem>): Elem
    requires |bits| == |w|
  {
    if |w| == 0 then K.zero
    else K.add(BitSum(K, bits[..|w| - 1], w[..|w| - 1]), if bits[|w| - 1] then w[|w| - 1] else K.zero)
  }

  ghost function Sum(K: Field, w: seq<Elem>): Elem {
    if |w| == 0 then K.zero else K.add(Sum(K, w[..|w| - 1]), w[|w| - 1])
  }

  /** The bits of a row, column by column. */
  ghost function TableRow(table: BitTable, row: nat): (bits: seq<bool>)
    requires table.Valid() && row < table.shape.Rows()
    ensures |bits| == table.shape.Columns()
    ensures forall c: nat :: c < |bits| ==> bits[c] == table.Bit(c, row)
  {
    seq(table.shape.Columns(), c requires 0 <= c < table.shape.Columns() => table.Bit(c, row))
  }

  /** `sum u1[row] u2[column]` over the set bits of the first rows. */
  ghost function TableSum(K: Field, table: BitTable, u1: seq<Elem>, u2: seq<Elem>, rows: nat): Elem
    requires table.Valid() && rows <= |u1| && rows <= table.shape.Rows() && |u2| == table.shape.Columns()
  {
    if rows == 0 then K.zero
    else K.add(TableSum(K, table, u1, u2, rows - 1), K.mul(u1[rows - 1], BitSum(K, TableRow(table, rows - 1), u2)))
  }

  lemma {:induction false} SumConcat(K: Field, a: seq<Elem>, b: seq<Elem>)
    requires K.Valid()
    ensures Sum(K, a + b) == K.add(Sum(K, a), Sum(K, b))
    decreases |b|
  {
    if |b| == 0 {
      assert a + b == a;
      assert K.AddCancels(Sum(K, a));
    } else {
      var n := |b| - 1;
      SumConcat(K, a, b[..n]);
      assert (a + b)[..|a + b| - 1] == a + b[..n];
      assert K.AddAssociates(Sum(K, a), Sum(K, b[..n]), b[n]);
    }
  }

  lemma {:induction false} SumScale(K: Field, r: Elem, a: seq<Elem>)
    requires K.Valid()
    ensures Sum(K, Scale(K, r, a)) == K.mul(r, Sum(K, a))
  {
    if |a| == 0 {
      K.Units(r);
    } else {
      var n := |a| - 1;
      SumScale(K, r, a[..n]);
      assert Scale(K, r, a)[..n] == Scale(K, r, a[..n]);
      K.Dist(r, Sum(K, a[..n]), a[n]);
    }
  }

  /** The weights of a point add up to one. */
  lemma {:induction false} WeightsSum(K: Field, p: seq<Elem>)
    requires K.Valid()
    ensures Sum(K, Weights(K, p)) == K.one
    decreases |p|
  {
    if |p| == 0 {
      assert Weights(K, p) == [K.one] && Weights(K, p)[..0] == [];
      assert Sum(K, [K.one]) == K.add(Sum(K, [K.one][..0]), K.one);
      K.Additive();
    } else {
      var q, r := p[..|p| - 1], p[|p| - 1];
      assert p == q + [r];
      WeightsSum(K, q);
      WeightsTop(K, q, r);
      var w := Weights(K, q);
      SumConcat(K, Scale(K, K.add(K.one, r), w), Scale(K, r, w));
      SumScale(K, K.add(K.one, r), w);
      SumScale(K, r, w);
      K.Units(K.add(K.one, r));
      K.Units(r);
      K.Additive();
    }
  }

  /** A row of leaves against weights: the weights' sum, and `y - 1` for every set bit. */
  lemma {:induction false} RowDot(K: Field, leaves: seq<Elem>, bits: seq<bool>, y: Elem, w: seq<Elem>)
    requires K.Valid() && |leaves| == |bits| == |w|
    requires forall c :: 0 <= c < |leaves| ==> leaves[c] == if bits[c] then y else K.one
    ensures Dot(K, leaves, w) == K.add(Sum(K, w), K.mul(K.add(y, K.one), BitSum(K, bits, w)))
    decreases |w|
  {
    var d := K.add(y, K.one);
    if |w| == 0 {
      K.Units(d);
      K.Additive();
    } else {
      var n := |w| - 1;
      RowDot(K, leaves[..n], bits[..n], y, w[..n]);
      NewEntry(K, Sum(K, w[..n]), d, BitSum(K, bits[..n], w[..n]), y, w[n], bits[n]);
    }
  }

  lemma {:induction false} NewEntry(K: Field, sum: Elem, d: Elem, total: Elem, y: Elem, w: Elem, bit: bool)
    requires K.Valid() && d == K.add(y, K.one)
    ensures K.add(K.add(sum, K.mul(d, total)), K.mul(if bit then y else K.one, w))
      == K.add(K.add(sum, w), K.mul(d, K.add(total, if bit then w else K.zero)))
  {
    if bit {
      K.Dist(d, total, w);
      K.Dist(w, y, K.one);
      K.Units(w);
    } else {
      K.Units(w);
    }
    K.Additive();
  }

  /** All leaves against the tensor of row and column weights. */
  lemma {:induction false} LeavesDot(
    K: Field, table: BitTable, images: seq<Elem>, low: seq<Elem>, high: seq<Elem>, u1: seq<Elem>, rows: nat
  )
    requires K.Valid() && table.Valid() && |images| == table.shape.Rows() == |high| == |u1| && rows <= |images|
    requires |low| == table.shape.Columns() && Sum(K, low) == K.one
    requires forall b :: 0 <= b < |u1| ==> u1[b] == K.mul(K.add(images[b], K.one), high[b])
    ensures |Tensor(K, low, high[..rows])| == |Leaves(K, table, images, rows)|
    ensures Dot(K, Leaves(K, table, images, rows), Tensor(K, low, high[..rows]))
      == K.add(Sum(K, high[..rows]), TableSum(K, table, u1, low, rows))
    decreases rows
  {
    hide BitTable.Valid, BitTable.Bit, Dot, BitSum;
    if rows == 0 {
      NoDot(K);
    } else {
      var b := rows - 1;
      LeavesDot(K, table, images, low, high, u1, b);
      assert high[..rows][..b] == high[..b] && high[..rows][b] == high[b];
      var row, bits, y := LeafRow(K, table, images, b), TableRow(table, b), images[b];
      DotConcat(K, Leaves(K, table, images, b), Tensor(K, low, high[..b]), row, Scale(K, high[b], low));
      DotScale(K, row, high[b], low);
      assert Dot(K, row, low) == K.add(K.one, K.mul(K.add(y, K.one), BitSum(K, bits, low))) by {
        RowDot(K, row, bits, y, low);
      }
      NewRow(K, high[b], K.add(y, K.one), BitSum(K, bits, low), Sum(K, high[..b]), TableSum(K, table, u1, low, b));
    }
  }

  lemma {:induction false} NoDot(K: Field)
    requires K.Valid()
    ensures Dot(K, [], []) == K.add(K.zero, K.zero)
  {
    K.Additive();
  }

  lemma {:induction false} NewRow(K: Field, h: Elem, d: Elem, s: Elem, sum: Elem, total: Elem)
    requires K.Valid()
    ensures K.add(K.add(sum, total), K.mul(h, K.add(K.one, K.mul(d, s))))
      == K.add(K.add(sum, h), K.add(total, K.mul(K.mul(d, h), s)))
  {
    K.Dist(h, K.one, K.mul(d, s));
    K.Units(h);
    K.Swap(h, d, s);
    K.Assoc(d, h, s);
    K.Additive();
  }

  // ---------------------------------------------------------------- the opening claim

  datatype InnerProduct = InnerProduct(rowWeights: seq<Elem>, columnWeights: seq<Elem>, target: Elem)

  /** What the claim says of the committed bits. */
  ghost predicate TrueOf(K: Field, claim: InnerProduct, table: BitTable)
    requires table.Valid()
  {
    && |claim.rowWeights| == table.shape.Rows() && |claim.columnWeights| == table.shape.Columns()
    && claim.target == TableSum(K, table, claim.rowWeights, claim.columnWeights, table.shape.Rows())
  }

  /** The claim made from a leaf claim: its first coordinates weigh the columns, the others the rows. */
  ghost function ClaimAt(K: Field, images: seq<Elem>, columns: nat, point: seq<Elem>, value: Elem): InnerProduct
    requires columns <= |point| && |images| == Pow2(|point| - columns)
  {
    var eq := Weights(K, point[columns..]);
    InnerProduct(
      seq(|images|, b requires 0 <= b < |images| => K.mul(K.add(images[b], K.one), eq[b])),
      Weights(K, point[..columns]),
      K.add(value, K.one))
  }

  /** The claim is true of the table exactly when the leaf claim is. */
  lemma {:induction false} ClaimTrueIff(K: Field, table: BitTable, images: seq<Elem>, point: seq<Elem>, value: Elem)
    requires K.Valid() && table.Valid() && |images| == table.shape.Rows() && |point| == table.shape.LogBits()
    ensures |Leaves(K, table, images, |images|)| == Pow2(|point|)
    ensures TrueOf(K, ClaimAt(K, images, table.shape.logColumns, point, value), table)
      <==> value == Mle(K, Leaves(K, table, images, |images|), point)
  {
    hide BitTable.Valid, BitTable.Bit, Leaves, Dot, TableSum, Sum, Tensor;
    var s := table.shape.logColumns;
    var claim := ClaimAt(K, images, s, point, value);
    var low, high := Weights(K, point[..s]), Weights(K, point[s..]);
    assert point[..s] + point[s..] == point;
    WeightsTensor(K, point[..s], point[s..]);
    WeightsSum(K, point[..s]);
    WeightsSum(K, point[s..]);
    Pow2Sum(table.shape.logRows, s);
    LeavesDot(K, table, images, low, high, claim.rowWeights, |images|);
    assert high[..|images|] == high;
    var total := TableSum(K, table, claim.rowWeights, low, |images|);
    assert Mle(K, Leaves(K, table, images, |images|), point) == K.add(K.one, total);
    OneCancels(K, value, total);
  }

  lemma {:induction false} OneCancels(K: Field, value: Elem, total: Elem)
    requires K.Valid()
    ensures K.add(value, K.one) == total <==> value == K.add(K.one, total)
  {
    K.Additive();
    assert K.add(K.add(value, K.one), K.one) == value;
    assert K.add(K.add(K.one, total), K.one) == total;
  }

  /** `sum (y - 1) eq` as the programs compute it. */
  method MakeClaim(K: Field, images: seq<Elem>, columns: nat, point: seq<Elem>, value: Elem) returns (claim: InnerProduct)
    requires K.Valid() && columns <= |point| && |images| == Pow2(|point| - columns)
    ensures claim == ClaimAt(K, images, columns, point, value)
  {
    var alfaC, alfaB := point[..columns], point[columns..];
    var eqRows := EqTable(K, alfaB);
    var u1: seq<Elem> := [];
    for b := 0 to |images|
      invariant |u1| == b && forall i :: 0 <= i < b ==> u1[i] == K.mul(K.add(images[i], K.one), eqRows[i])
    {
      u1 := u1 + [K.mul(K.add(images[b], K.one), eqRows[b])];
    }
    var u2 := EqTable(K, alfaC);
    claim := InnerProduct(u1, u2[..], K.add(value, K.one));
    assert claim.rowWeights == ClaimAt(K, images, columns, point, value).rowWeights by {
      assert forall i :: 0 <= i < |images| ==> eqRows[i] == eqRows[..][i];
    }
  }

  // ---------------------------------------------------------------- the prover's side

  /** The leaves of a table, with the logs of their number and of the outputs' number. */
  ghost function TableLeaves(K: Field, table: BitTable, images: seq<Elem>): (leaves: seq<Elem>)
    requires table.Valid() && |images| == table.shape.Rows()
    ensures |leaves| == Pow2(table.shape.LogBits())
  {
    Pow2Sum(table.shape.logRows, table.shape.logColumns);
    Leaves(K, table, images, |images|)
  }

  /** The circuit's output table, one entry per column. */
  ghost function Outputs(K: Field, table: BitTable, images: seq<Elem>): (outputs: seq<Elem>)
    requires table.Valid() && |images| == table.shape.Rows()
    ensures |outputs| == table.shape.Columns()
  {
    LayerTable(K, TableLeaves(K, table, images), table.shape.LogBits(), table.shape.logColumns)
  }

  /** The verifier's starting state on the claim that the outputs' extension at `zeta` is `e0`. */
  ghost function Opening(K: Field, zeta: seq<Elem>, e0: Elem): Verifier {
    Start(K, Reverse(zeta), e0)
  }

  /** The start of the honest run is the claim about the outputs. */
  lemma {:induction false} HonestOpening(K: Field, table: BitTable, images: seq<Elem>, zeta: seq<Elem>)
    requires K.Valid() && table.Valid() && |images| == table.shape.Rows() && |zeta| == table.shape.logColumns
    ensures var n := table.shape.LogBits();
      var layer := Layer(K, CubeOf(TableLeaves(K, table, images), n), n, |zeta|);
      && Top(K, layer, Reverse(zeta)) == Mle(K, Outputs(K, table, images), zeta)
      && Extension(K, layer, zeta) == Mle(K, Outputs(K, table, images), zeta)
  {
    hide Layer, CubeOf, Top, Extension, Mle, LayerTable, Leaves, Reverse;
    var n, leaves := table.shape.LogBits(), TableLeaves(K, table, images);
    LayerTableIs(K, leaves, n, |zeta|);
    ReverseTwice(zeta);
    TopIsExtension(K, Layer(K, CubeOf(leaves, n), n, |zeta|), Reverse(zeta));
    ExtensionIsMle(K, Outputs(K, table, images), zeta);
  }

  /** With one output per column, the circuit has one layer per row variable. */
  lemma {:induction false} LayerCount(n: nat, layers: nat, columns: nat)
    requires layers <= n && columns < n
    requires Pow2(n - layers) <= Pow2(columns) && (layers > 0 ==> Pow2(columns) < 2 * Pow2(n - layers))
    ensures layers == n - columns
  {
    var m := n - layers;
    if m < columns { Pow2Monotone(m + 1, columns); }
    if m > columns { Pow2Monotone(columns + 1, m); }
  }

  lemma {:induction false} LayersBounded(K: Field, t: Cube, n: nat, witnesses: seq<seq<Elem>>)
    requires Full(t, n) && LayerTables(K, t, n, witnesses)
    ensures |witnesses| <= n
  {
  }

  /** Builds the circuit, proves its layers and returns the opening claim. */
  method GkrReduce(K: Field, ps: ProverState, table: BitTable, images: seq<Elem>, zeta: seq<Elem>)
      returns (claim: InnerProduct)
    requires K.Valid() && table.Valid() && table.shape.logColumns >= PACK_BITS
    requires |images| == table.shape.Rows() && |zeta| == table.shape.logColumns
    modifies ps
    ensures TrueOf(K, claim, table)
    ensures var n := table.shape.LogBits();
      var t := CubeOf(TableLeaves(K, table, images), n);
      var rho := Drawn(ps.challenges, old(ps.drawn), Steps(|zeta|, n - |zeta|));
      var v := Opening(K, zeta, Mle(K, Outputs(K, table, images), zeta));
      var w := Outcome(K, v, HonestLayerRecords(K, t, n, v, rho), rho);
      && ps.records == old(ps.records) + HonestLayerRecords(K, t, n, v, rho)
      && w.Running? && |w.point| == n
      && claim == ClaimAt(K, images, |zeta|, Reverse(w.point), w.claim)
    ensures ps.drawn == old(ps.drawn) + Steps(|zeta|, table.shape.logRows)
  {
    hide CubeOf, Layer, Leaves, LayerTable, Mle, Steps, HonestRun, HonestLayerRecords, Replay, Outcome, Top, Drawn, Extension,
      BitTable.Valid, BitTable.Bit, Reverse, TrueOf, ClaimAt, LayerTables;
    ghost var n, leaves := table.shape.LogBits(), TableLeaves(K, table, images);
    ghost var t, from, records := CubeOf(leaves, n), ps.drawn, ps.records;
    LogsOf(table);
    var leafs := CircuitLeaves(K, images, table);
    var output, witnesses := BatchedEval(K, leafs[..], n, table.shape.Columns());
    LayersBounded(K, t, n, witnesses);
    LayerCount(n, |witnesses|, |zeta|);
    var point, value := GpgkrProve(K, ps, table.shape.LogBits(), zeta, witnesses, t, n);
    HonestOpening(K, table, images, zeta);
    ProverMeetsVerifier(K, leaves, n, zeta, Drawn(ps.challenges, from, Steps(|zeta|, n - |zeta|)), []);
    NothingMore(HonestLayerRecords(K, t, n, Opening(K, zeta, Mle(K, Outputs(K, table, images), zeta)),
      Drawn(ps.challenges, from, Steps(|zeta|, n - |zeta|))));
    var r1 := Ilog2(Max(|images|, 1));
    LogOfPower(table.shape.logRows);
    claim := MakeClaim(K, images, |point| - r1, point, value);
    ClaimTrueIff(K, table, images, point, value);
  }

  lemma {:induction false} NothingMore(records: seq<Elem>)
    ensures records + [] == records
  {
  }

  lemma {:induction false} LogsOf(table: BitTable)
    requires table.Valid()
    ensures 7 <= table.shape.logRows && table.shape.logColumns < table.shape.LogBits()
  {
  }

  lemma {:induction false} LogOfPower(k: nat)
    ensures Ilog2(Pow2(k)) == k
  {
    if k > 0 { LogOfPower(k - 1); }
  }

  // ---------------------------------------------------------------- the verifier's side

  /** Replays the layers from `e0` and returns the opening claim, or nothing when a layer rejects. */
  method GkrReduceVerify(K: Field, vs: VerifierState, images: seq<Elem>, ghost logRows: nat, zeta: seq<Elem>, e0: Elem)
      returns (claim: Option<InnerProduct>)
    requires K.Valid() && vs.Valid() && |images| == Pow2(logRows)
    modifies vs
    ensures var w := Outcome(K, Opening(K, zeta, e0), old(vs.Rest()), Drawn(vs.challenges, old(vs.drawn), Steps(|zeta|, logRows)));
      if w.Rejected? then claim.None?
      else |w.point| == |zeta| + logRows && claim == Some(ClaimAt(K, images, |zeta|, Reverse(w.point), w.claim))
    ensures claim.Some? ==> vs.Valid() && vs.read == old(vs.read) + 2 * Steps(|zeta|, logRows)
    ensures claim.Some? ==> vs.drawn == old(vs.drawn) + Steps(|zeta|, logRows)
  {
    hide Replay, Outcome, Drawn, Steps, ClaimAt, Reverse, Pow2;
    LogOfPower(logRows);
    var r1 := Ilog2(Max(|images|, 1));
    var leaf := GpgkrVerify(K, e0, zeta, r1, vs);
    if leaf.None? { return None; }
    var made := MakeClaim(K, images, |leaf.value.0| - r1, leaf.value.0, leaf.value.1);
    return Some(made);
  }
}
