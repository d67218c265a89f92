/** Claims on the virtual bits `h = M (1 || f)` rewritten as claims on the committed bits `f`. */
module VirtualMap {
  import opened Wrappers
  import M = Montgomery
  import opened FiniteField
  import opened Multilinear
  import opened Powers
  import C = Circuits
  import opened LinearCombinations
  import opened MTranspose
  import opened TransposedMatrix
  import F = Folds
  import R = Reduction

  // ---------------------------------------------------------------- the virtual bits

  /** `M x`. */
  ghost function Image(rows: seq<Support>, x: seq<bool>): (h: seq<bool>)
    ensures |h| == |rows| && forall i :: 0 <= i < |rows| ==> h[i] == RowBit(rows[i], x)
  {
    seq(|rows|, i requires 0 <= i < |rows| => RowBit(rows[i], x))
  }

  function Falses(n: nat): (s: seq<bool>)
    ensures |s| == n && forall i :: 0 <= i < n ==> !s[i]
  {
    seq(n, i => false)
  }

  function Zeros(K: Field, n: nat): (s: seq<Elem>)
    ensures |s| == n && forall i :: 0 <= i < n ==> s[i] == K.zero
  {
    seq(n, i => K.zero)
  }

  /** The zero-padded virtual bits of some committed bits, of which M reads the first. */
  ghost function Virtual(rows: seq<Support>, committed: seq<bool>, used: nat, size: nat): (h: seq<bool>)
    requires used <= |committed| && |rows| <= size
    ensures |h| == size
  {
    Image(rows, [true] + committed[..used]) + Falses(size - |rows|)
  }

  // ---------------------------------------------------------------- sums over bits

  lemma {:induction false} BitSumConcat(K: Field, a: seq<bool>, b: seq<bool>, u: seq<Elem>, v: seq<Elem>)
    requires K.Valid() && |a| == |u| && |b| == |v|
    ensures R.BitSum(K, a + b, u + v) == K.add(R.BitSum(K, a, u), R.BitSum(K, b, v))
    decreases |b|
  {
    if |b| == 0 {
      assert a + b == a && u + v == u;
      assert K.AddCancels(R.BitSum(K, a, u));
    } else {
      var n := |b| - 1;
      BitSumConcat(K, a, b[..n], u, v[..n]);
      assert (a + b)[..|a + b| - 1] == a + b[..n] && (u + v)[..|u + v| - 1] == u + v[..n];
      assert K.AddAssociates(R.BitSum(K, a, u), R.BitSum(K, b[..n], v[..n]), if b[n] then v[n] else K.zero);
    }
  }

  /** Where every bit is false or every weight zero, nothing is added. */
  lemma {:induction false} BitSumNothing(K: Field, a: seq<bool>, u: seq<Elem>)
    requires K.Valid() && |a| == |u| && forall i :: 0 <= i < |a| ==> !a[i] || u[i] == K.zero
    ensures R.BitSum(K, a, u) == K.zero
  {
    if |a| > 0 {
      var n := |a| - 1;
      BitSumNothing(K, a[..n], u[..n]);
      assert K.AddCancels(K.zero);
    }
  }

  lemma {:induction false} BitSumAdd(K: Field, a: seq<bool>, u: seq<Elem>, v: seq<Elem>, w: seq<Elem>)
    requires K.Valid() && |a| == |u| == |v| == |w| && forall i :: 0 <= i < |a| ==> w[i] == K.add(u[i], v[i])
    ensures R.BitSum(K, a, w) == K.add(R.BitSum(K, a, u), R.BitSum(K, a, v))
  {
    if |a| == 0 {
      assert K.AddCancels(K.zero);
    } else {
      var n := |a| - 1;
      BitSumAdd(K, a[..n], u[..n], v[..n], w[..n]);
      K.Additive();
    }
  }

  lemma {:induction false} BitSumOne(K: Field, a: seq<bool>, c: nat, w: Elem, u: seq<Elem>)
    requires K.Valid() && |a| == |u| && c < |a|
    requires forall i :: 0 <= i < |a| ==> u[i] == if i == c then w else K.zero
    ensures R.BitSum(K, a, u) == if a[c] then w else K.zero
  {
    var n := |a| - 1;
    if c == n {
      BitSumNothing(K, a[..n], u[..n]);
    } else {
      BitSumOne(K, a[..n], c, w, u[..n]);
    }
    K.Additive();
  }

  // ---------------------------------------------------------------- the transpose is dual to the map

  /** A weight at every column of a row. */
  ghost function OnRow(K: Field, row: Support, w: Elem, columns: nat): (u: seq<Elem>)
    ensures |u| == columns && forall c :: 0 <= c < columns ==> u[c] == if c in row then w else K.zero
  {
    seq(columns, c requires 0 <= c < columns => if c in row then w else K.zero)
  }

  /** A weight spread over a row's columns meets the bits in the weight times the row's bit. */
  lemma {:induction false} RowWeighs(K: Field, row: Support, w: Elem, x: seq<bool>)
    requires K.Valid() && Within(row, |x|)
    ensures R.BitSum(K, x, OnRow(K, row, w, |x|)) == if RowBit(row, x) then w else K.zero
  {
    hide R.BitSum;
    if |row| == 0 {
      BitSumNothing(K, x, OnRow(K, row, w, |x|));
    } else {
      var n := |row| - 1;
      var before, c := row[..n], row[n];
      assert row == before + [c];
      RowWeighs(K, before, w, x);
      var unit := OnRow(K, [c], w, |x|);
      BitSumOne(K, x, c, w, unit);
      K.Additive();
      assert forall i :: 0 <= i < |x| ==> (i in row <==> i in before || i == c) && !(i in before && i == c);
      BitSumAdd(K, x, OnRow(K, before, w, |x|), unit, OnRow(K, row, w, |x|));
    }
  }

  /** `<w, M x> = <w M, x>`. */
  lemma {:induction false} TransposeIsDual(K: Field, rows: seq<Support>, w: seq<Elem>, x: seq<bool>)
    requires K.Valid() && |w| == |rows| && AllWithin(rows, |x|)
    ensures R.BitSum(K, Image(rows, x), w) == R.BitSum(K, x, ColumnSums(K, rows, w, |x|))
  {
    hide RowBit;
    if |rows| == 0 {
      NoSum(K);
      assert Image(rows, x) == [] && w == [];
      BitSumNothing(K, x, ColumnSums(K, rows, w, |x|));
    } else {
      var n := |rows| - 1;
      assert Within(rows[n], |x|);
      TransposeIsDual(K, rows[..n], w[..n], x);
      assert Image(rows, x)[..n] == Image(rows[..n], x);
      RowWeighs(K, rows[n], w[n], x);
      forall c | 0 <= c < |x|
        ensures ColumnSum(K, rows, w, c) == K.add(ColumnSum(K, rows[..n], w[..n], c), OnRow(K, rows[n], w[n], |x|)[c])
      {
        ColumnSumPrefix(K, rows[..n], w, n, c);
      }
      BitSumAdd(K, x, ColumnSums(K, rows[..n], w[..n], |x|), OnRow(K, rows[n], w[n], |x|), ColumnSums(K, rows, w, |x|));
    }
  }

  lemma {:induction false} NoSum(K: Field)
    ensures R.BitSum(K, [], []) == K.zero
  {
  }

  lemma {:induction false} ColumnSumPrefix(K: Field, rows: seq<Support>, w: seq<Elem>, n: nat, c: nat)
    requires |rows| <= n <= |w|
    ensures ColumnSum(K, rows, w, c) == ColumnSum(K, rows, w[..n], c)
  {
    if |rows| > 0 { ColumnSumPrefix(K, rows[..|rows| - 1], w, n, c); }
  }

  /** The same with the constant split off and both sides padded. */
  lemma {:induction false} ClaimMoves(K: Field, rows: seq<Support>, w: seq<Elem>, committed: seq<bool>, used: nat)
    requires K.Valid() && |rows| <= |w| && used <= |committed| && AllWithin(rows, used + 1)
    ensures var on := ColumnSums(K, rows, w[..|rows|], used + 1);
      R.BitSum(K, Virtual(rows, committed, used, |w|), w)
        == K.add(on[0], R.BitSum(K, committed, on[1..] + Zeros(K, |committed| - used)))
  {
    hide R.BitSum, ColumnSum, RowBit;
    var n := |rows|;
    var x, on := [true] + committed[..used], ColumnSums(K, rows, w[..n], used + 1);
    assert w == w[..n] + w[n..];
    BitSumConcat(K, Image(rows, x), Falses(|w| - n), w[..n], w[n..]);
    BitSumNothing(K, Falses(|w| - n), w[n..]);
    TransposeIsDual(K, rows, w[..n], x);
    assert on == [on[0]] + on[1..];
    BitSumConcat(K, [true], committed[..used], [on[0]], on[1..]);
    BitSumOne(K, [true], 0, on[0], [on[0]]);
    assert committed == committed[..used] + committed[used..];
    BitSumConcat(K, committed[..used], committed[used..], on[1..], Zeros(K, |committed| - used));
    BitSumNothing(K, committed[used..], Zeros(K, |committed| - used));
    K.Additive();
  }

  // ---------------------------------------------------------------- queries

  datatype OpeningQuery =
    | Mle(point: seq<Elem>, target: Elem)
    | Factored(claim: R.InnerProduct)

  /** Row `r` of bits stored column by column. */
  ghost function GridRow(bits: seq<bool>, rows: nat, columns: nat, r: nat): (row: seq<bool>)
    requires |bits| == rows * columns && r < rows
    ensures |row| == columns
  {
    seq(columns, c requires 0 <= c < columns => (InGrid(rows, columns, r, c); bits[c * rows + r]))
  }

  lemma {:induction false} InGrid(rows: nat, columns: nat, r: nat, c: nat)
    requires r < rows && c < columns
    ensures 0 <= c * rows + r < rows * columns
  {
    M.ProductMonotone(c + 1, columns, rows);
    M.ProductMonotone(0, c, rows);
    M.PlusTimes(c, 1, rows);
  }

  /** `sum u1[r] u2[c]` over the set bits of the first rows. */
  ghost function GridSum(K: Field, bits: seq<bool>, u1: seq<Elem>, u2: seq<Elem>, r: nat): Elem
    requires |bits| == |u1| * |u2| && r <= |u1|
  {
    if r == 0 then K.zero
    else K.add(GridSum(K, bits, u1, u2, r - 1), K.mul(u1[r - 1], R.BitSum(K, GridRow(bits, |u1|, |u2|, r - 1), u2)))
  }

  /** What a query says of bits of the given shape. */
  ghost predicate Holds(K: Field, query: OpeningQuery, logRows: nat, logColumns: nat, bits: seq<bool>) {
    match query
    case Mle(point, target) =>
      && |point| == logRows + logColumns && |bits| == Pow2(|point|)
      && target == R.BitSum(K, bits, Weights(K, point))
    case Factored(claim) =>
      && |claim.rowWeights| == Pow2(logRows) && |claim.columnWeights| == Pow2(logColumns)
      && |bits| == |claim.rowWeights| * |claim.columnWeights|
      && claim.target == GridSum(K, bits, claim.rowWeights, claim.columnWeights, |claim.rowWeights|)
  }

  /** One more column adds its weight times the column's own sum. */
  lemma {:induction false} GridColumn(K: Field, bits: seq<bool>, column: seq<bool>, u1: seq<Elem>, u2: seq<Elem>, last: Elem, r: nat)
    requires K.Valid() && |bits| == |u1| * |u2| && |column| == |u1| && r <= |u1|
    ensures |bits + column| == |u1| * |u2 + [last]|
    ensures GridSum(K, bits + column, u1, u2 + [last], r)
      == K.add(GridSum(K, bits, u1, u2, r), K.mul(last, R.BitSum(K, column[..r], u1[..r])))
  {
    hide R.BitSum;
    M.PlusTimes(|u2|, 1, |u1|);
    assert |u1| * |u2 + [last]| == |u1| * |u2| + |u1|;
    if r == 0 {
      NoSum(K);
      assert column[..r] == [] && u1[..r] == [];
      K.Units(last);
      K.Additive();
    } else {
      var k := r - 1;
      GridColumn(K, bits, column, u1, u2, last, k);
      GridRowGrows(bits, column, |u1|, |u2|, k);
      BitSumConcat(K, GridRow(bits, |u1|, |u2|, k), [column[k]], u2, [last]);
      BitSumOne(K, [column[k]], 0, last, [last]);
      assert column[..r] == column[..k] + [column[k]] && u1[..r] == u1[..k] + [u1[k]];
      BitSumConcat(K, column[..k], [column[k]], u1[..k], [u1[k]]);
      BitSumOne(K, [column[k]], 0, u1[k], [u1[k]]);
      NewCorner(K, GridSum(K, bits, u1, u2, k), R.BitSum(K, column[..k], u1[..k]), R.BitSum(K, GridRow(bits, |u1|, |u2|, k), u2),
        last, u1[k], column[k]);
    }
  }

  lemma {:induction false} NewCorner(K: Field, grid: Elem, below: Elem, row: Elem, last: Elem, u: Elem, bit: bool)
    requires K.Valid()
    ensures K.add(K.add(grid, K.mul(last, below)), K.mul(u, K.add(row, if bit then last else K.zero)))
      == K.add(K.add(grid, K.mul(u, row)), K.mul(last, K.add(below, if bit then u else K.zero)))
  {
    K.Dist(u, row, if bit then last else K.zero);
    K.Dist(last, below, if bit then u else K.zero);
    K.Comm(u, last);
    K.Units(u);
    K.Units(last);
    K.Additive();
  }

  lemma {:induction false} GridRowGrows(bits: seq<bool>, column: seq<bool>, rows: nat, columns: nat, r: nat)
    requires |bits| == rows * columns && |column| == rows && r < rows
    ensures |bits + column| == rows * (columns + 1)
    ensures GridRow(bits + column, rows, columns + 1, r) == GridRow(bits, rows, columns, r) + [column[r]]
  {
    M.PlusTimes(columns, 1, rows);
    var all := bits + column;
    assert |all| == rows * (columns + 1);
    var long, short := GridRow(all, rows, columns + 1, r), GridRow(bits, rows, columns, r);
    forall c: nat | c < columns ensures long[c] == short[c] {
      GridEntry(bits, rows, columns, r, c);
      GridEntry(all, rows, columns + 1, r, c);
      InGrid(rows, columns, r, c);
    }
    GridEntry(all, rows, columns + 1, r, columns);
    assert long[columns] == column[r];
  }

  lemma {:induction false} GridEntry(bits: seq<bool>, rows: nat, columns: nat, r: nat, c: nat)
    requires |bits| == rows * columns && r < rows && c < columns
    ensures 0 <= c * rows + r < |bits| && GridRow(bits, rows, columns, r)[c] == bits[c * rows + r]
  {
    InGrid(rows, columns, r, c);
  }

  /** The sum over the grid is the sum over the flattened weights. */
  lemma {:induction false} GridIsFlat(K: Field, bits: seq<bool>, u1: seq<Elem>, u2: seq<Elem>)
    requires K.Valid() && |bits| == |u1| * |u2|
    ensures |Tensor(K, u1, u2)| == |bits|
    ensures GridSum(K, bits, u1, u2, |u1|) == R.BitSum(K, bits, Tensor(K, u1, u2))
    decreases |u2|
  {
    hide R.BitSum, GridSum;
    if |u2| == 0 {
      NoSum(K);
      EmptyGrid(K, bits, u1, u2, |u1|);
      assert bits == [];
    } else {
      var n := |u2| - 1;
      var before, last := u2[..n], u2[n];
      assert u2 == before + [last];
      M.PlusTimes(n, 1, |u1|);
      var split := |u1| * n;
      M.ProductMonotone(0, n, |u1|);
      var rest, column := bits[..split], bits[split..];
      assert bits == rest + column;
      GridIsFlat(K, rest, u1, before);
      GridColumn(K, rest, column, u1, before, last, |u1|);
      assert column[..|u1|] == column && u1[..|u1|] == u1;
      BitSumConcat(K, rest, column, Tensor(K, u1, before), Scale(K, last, u1));
      BitSumScale(K, column, last, u1);
    }
  }

  lemma {:induction false} BitSumScale(K: Field, a: seq<bool>, r: Elem, u: seq<Elem>)
    requires K.Valid() && |a| == |u|
    ensures R.BitSum(K, a, Scale(K, r, u)) == K.mul(r, R.BitSum(K, a, u))
  {
    if |a| == 0 {
      K.Units(r);
    } else {
      var n := |a| - 1;
      BitSumScale(K, a[..n], r, u[..n]);
      assert Scale(K, r, u)[..n] == Scale(K, r, u[..n]);
      K.Dist(r, R.BitSum(K, a[..n], u[..n]), if a[n] then u[n] else K.zero);
      K.Units(r);
    }
  }

  lemma {:induction false} EmptyGrid(K: Field, bits: seq<bool>, u1: seq<Elem>, u2: seq<Elem>, r: nat)
    requires K.Valid() && |bits| == |u1| * |u2| && |u2| == 0 && r <= |u1|
    ensures GridSum(K, bits, u1, u2, r) == K.zero && |bits| == 0
  {
    if r > 0 {
      EmptyGrid(K, bits, u1, u2, r - 1);
      K.Units(u1[r - 1]);
      K.Additive();
    }
  }

  /** One column of weight one is a plain sum. */
  lemma {:induction false} SingleColumn(K: Field, bits: seq<bool>, u: seq<Elem>)
    requires K.Valid() && |bits| == |u|
    ensures |bits| == |u| * |[K.one]| && GridSum(K, bits, u, [K.one], |u|) == R.BitSum(K, bits, u)
  {
    hide R.BitSum, GridSum;
    assert |u| * |[K.one]| == |u|;
    GridIsFlat(K, bits, u, [K.one]);
    forall i | 0 <= i < |u| ensures K.mul(K.one, u[i]) == u[i] { K.Units(u[i]); }
    assert [K.one][..0] == [];
    assert Tensor(K, u, [K.one]) == Tensor(K, u, [K.one][..0]) + Scale(K, K.one, u);
    assert Tensor(K, u, [K.one]) == u;
  }

  // ---------------------------------------------------------------- bit tables

  /** A table's bits, one column after another. */
  ghost function FlatBits(table: F.BitTable): (bits: seq<bool>)
    requires table.Valid()
    ensures |bits| == table.shape.Rows() * table.shape.Columns()
    ensures forall i: nat :: i < |bits| ==> bits[i] == FlatBit(table, i)
  {
    M.ProductMonotone(0, table.shape.Rows(), table.shape.Columns());
    var size := table.shape.Rows() * table.shape.Columns();
    seq(size, i requires 0 <= i < size => FlatBit(table, i))
  }

  ghost function FlatBit(table: F.BitTable, i: nat): bool
    requires table.Valid() && i < table.shape.Rows() * table.shape.Columns()
  {
    FlatIndex(table.shape.Rows(), table.shape.Columns(), i);
    table.Bit(i / table.shape.Rows(), i % table.shape.Rows())
  }

  lemma {:induction false} FlatIndex(rows: nat, columns: nat, i: nat)
    requires i < rows * columns
    ensures rows > 0 && 0 <= i / rows < columns && 0 <= i % rows < rows
  {
    var q := i / rows;
    if q >= columns { M.ProductMonotone(columns, q, rows); }
  }

  lemma {:induction false} FlatRow(table: F.BitTable, r: nat)
    requires table.Valid() && r < table.shape.Rows()
    ensures GridRow(FlatBits(table), table.shape.Rows(), table.shape.Columns(), r) == R.TableRow(table, r)
  {
    hide F.BitTable.Valid, F.BitTable.Bit;
    var rows, columns, flat := table.shape.Rows(), table.shape.Columns(), FlatBits(table);
    forall c: nat | c < columns ensures GridRow(flat, rows, columns, r)[c] == R.TableRow(table, r)[c] {
      GridEntry(flat, rows, columns, r, c);
      M.ModUnique(c * rows + r, c, r, rows);
    }
  }

  lemma {:induction false} TableIsGrid(K: Field, table: F.BitTable, u1: seq<Elem>, u2: seq<Elem>, r: nat)
    requires table.Valid() && |u1| == table.shape.Rows() && |u2| == table.shape.Columns() && r <= |u1|
    ensures GridSum(K, FlatBits(table), u1, u2, r) == R.TableSum(K, table, u1, u2, r)
  {
    hide F.BitTable.Valid, F.BitTable.Bit, FlatBits;
    if r > 0 {
      TableIsGrid(K, table, u1, u2, r - 1);
      FlatRow(table, r - 1);
    }
  }

  /** A claim of the reduction is true of a table exactly when, as a query, it holds of its bits. */
  lemma {:induction false} TableQuery(K: Field, claim: R.InnerProduct, table: F.BitTable)
    requires table.Valid()
    ensures R.TrueOf(K, claim, table)
      <==> Holds(K, Factored(claim), table.shape.logRows, table.shape.logColumns, FlatBits(table))
  {
    hide F.BitTable.Valid, F.BitTable.Bit, FlatBits, GridSum, R.TableSum;
    if |claim.rowWeights| == table.shape.Rows() && |claim.columnWeights| == table.shape.Columns() {
      TableIsGrid(K, table, claim.rowWeights, claim.columnWeights, |claim.rowWeights|);
    }
  }

  // ---------------------------------------------------------------- the rewriting

  /** One column's slot. */
  method ProcessColumn(K: Field, weights: array<Elem>, start: nat, rows: seq<Elem>, scale: Elem)
    requires start + |rows| <= weights.Length
    modifies weights
    ensures weights[..start + |rows|] == old(weights[..start]) + Scale(K, scale, rows)
  {
    for i := 0 to |rows|
      invariant forall k :: 0 <= k < start ==> weights[k] == old(weights[k])
      invariant forall k :: start <= k < start + i ==> weights[k] == K.mul(scale, rows[k - start])
    {
      weights[start + i] := K.mul(scale, rows[i]);
    }
  }

  /** The products of column and row weights, one column after another. */
  method Flatten(K: Field, rows: seq<Elem>, columns: seq<Elem>) returns (weights: array<Elem>)
    ensures fresh(weights) && weights[..] == Tensor(K, rows, columns)
  {
    hide Tensor, Scale;
    var size := |rows| * |columns|;
    M.ProductMonotone(0, |columns|, |rows|);
    weights := new Elem[size](_ => K.zero);
    NoTensor(K, rows);
    assert weights[..0] == columns[..0] == [];
    for c := 0 to |columns|
      invariant 0 <= c * |rows| <= weights.Length && weights[..c * |rows|] == Tensor(K, rows, columns[..c])
    {
      var next := c + 1;
      M.PlusTimes(c, 1, |rows|);
      M.ProductMonotone(next, |columns|, |rows|);
      NextTensor(K, rows, columns, c);
      ProcessColumn(K, weights, c * |rows|, rows, columns[c]);
    }
    assert columns[..|columns|] == columns;
    assert weights[..size] == weights[..];
  }

  lemma {:induction false} NoTensor(K: Field, rows: seq<Elem>)
    ensures Tensor(K, rows, []) == []
  {
  }

  lemma {:induction false} NextTensor(K: Field, rows: seq<Elem>, columns: seq<Elem>, c: nat)
    requires c < |columns|
    ensures Tensor(K, rows, columns[..c + 1]) == Tensor(K, rows, columns[..c]) + Scale(K, columns[c], rows)
  {
    assert columns[..c + 1][..c] == columns[..c];
  }

  datatype VirtualMapError = PointLengthMismatch | ClaimWeightCountMismatch | WeightCountMismatch | CommittedShapeTooSmall

  /** The coefficients a query puts on the virtual bits, or why it does not cover them. */
  method QueryWeights(K: Field, query: OpeningQuery, logRows: nat, logColumns: nat) returns (weights: Result<seq<Elem>, VirtualMapError>)
    requires K.Valid()
    ensures query.Mle? && |query.point| != logRows + logColumns ==> weights == Err(PointLengthMismatch)
    ensures query.Factored? && Mismatched(query.claim, logRows, logColumns) ==> weights == Err(ClaimWeightCountMismatch)
    ensures Fits(query, logRows, logColumns) ==> weights == Ok(Coefficients(K, query)) && |weights.value| == Pow2(logRows + logColumns)
    ensures Fits(query, logRows, logColumns) ==> forall h :: |h| == Pow2(logRows + logColumns) ==>
      (Holds(K, query, logRows, logColumns, h) <==> Target(query) == R.BitSum(K, h, weights.value))
  {
    hide R.BitSum, Weights, GridSum;
    Pow2Sum(logRows, logColumns);
    match query
    case Mle(point, target) =>
      if |point| != logRows + logColumns { return Err(PointLengthMismatch); }
      var table := EqTable(K, point);
      return Ok(table[..]);
    case Factored(claim) =>
      if |claim.rowWeights| != Pow2(logRows) || |claim.columnWeights| != Pow2(logColumns) { return Err(ClaimWeightCountMismatch); }
      var table := Flatten(K, claim.rowWeights, claim.columnWeights);
      FactoredMeans(K, claim, logRows, logColumns);
      return Ok(table[..]);
  }

  /** A factored query is a plain sum against its coefficients. */
  lemma {:induction false} FactoredMeans(K: Field, claim: R.InnerProduct, logRows: nat, logColumns: nat)
    requires K.Valid() && !Mismatched(claim, logRows, logColumns)
    ensures |Coefficients(K, Factored(claim))| == Pow2(logRows + logColumns)
    ensures forall h :: |h| == Pow2(logRows + logColumns) ==>
      (Holds(K, Factored(claim), logRows, logColumns, h) <==> claim.target == R.BitSum(K, h, Coefficients(K, Factored(claim))))
  {
    hide R.BitSum, GridSum, Tensor;
    Pow2Sum(logRows, logColumns);
    var w := Coefficients(K, Factored(claim));
    GridIsFlat(K, Falses(Pow2(logRows + logColumns)), claim.rowWeights, claim.columnWeights);
    forall h: seq<bool> | |h| == Pow2(logRows + logColumns)
      ensures |w| == |h| && (Holds(K, Factored(claim), logRows, logColumns, h) <==> claim.target == R.BitSum(K, h, w))
    {
      GridIsFlat(K, h, claim.rowWeights, claim.columnWeights);
    }
  }

  predicate Mismatched(claim: R.InnerProduct, logRows: nat, logColumns: nat) {
    |claim.rowWeights| != Pow2(logRows) || |claim.columnWeights| != Pow2(logColumns)
  }

  /** The query has as many coordinates or weights as the shape. */
  predicate Fits(query: OpeningQuery, logRows: nat, logColumns: nat) {
    match query
    case Mle(point, _) => |point| == logRows + logColumns
    case Factored(claim) => !Mismatched(claim, logRows, logColumns)
  }

  /** The weight of every bit. */
  ghost function Coefficients(K: Field, query: OpeningQuery): seq<Elem> {
    match query
    case Mle(point, _) => Weights(K, point)
    case Factored(claim) => Tensor(K, claim.rowWeights, claim.columnWeights)
  }

  function Target(query: OpeningQuery): Elem {
    match query
    case Mle(_, target) => target
    case Factored(claim) => claim.target
  }

  datatype TransposedWeights = TransposedWeights(weights: seq<Elem>, constantWeight: Elem)

  /** `M` transposed against the weights of its rows, split at the constant column. */
  method Transpose(K: Field, matrix: MaterializedMTranspose, weights: seq<Elem>, ghost rows: seq<Support>, ghost columns: nat)
      returns (transposed: Result<TransposedWeights, VirtualMapError>)
    requires K.Valid() && columns > 0 && TransposeOf(matrix, rows, columns)
    ensures if |weights| < |rows| then transposed == Err(WeightCountMismatch)
      else var on := ColumnSums(K, rows, weights[..|rows|], columns); transposed == Ok(TransposedWeights(on[1..], on[0]))
  {
    if matrix.rowCount > |weights| { return Err(WeightCountMismatch); }
    var applied := Apply(K, matrix, weights[..matrix.rowCount], rows, columns);
    match applied
    case None => return Err(WeightCountMismatch);
    case Some(on) => return Ok(TransposedWeights(on[1..], on[0]));
  }

  /** Whatever was committed, one query holds of it exactly when the other holds of the virtual bits. */
  ghost predicate SameClaim(
    K: Field, on: OpeningQuery, committedLog: nat, query: OpeningQuery, logRows: nat, logColumns: nat, rows: seq<Support>, used: nat
  )
    requires used <= Pow2(committedLog) && |rows| <= Pow2(logRows + logColumns)
  {
    forall f: seq<bool> :: |f| == Pow2(committedLog) ==>
      (Holds(K, on, committedLog, 0, f) <==> Holds(K, query, logRows, logColumns, Virtual(rows, f, used, Pow2(logRows + logColumns))))
  }

  /** The claim on the committed bits: the transposed weights, padded, and the target without the
      constant's weight. */
  ghost function Rewritten(K: Field, query: OpeningQuery, committedLog: nat, rows: seq<Support>, columns: nat): (claim: R.InnerProduct)
    requires |rows| <= |Coefficients(K, query)| && 0 < columns && columns - 1 <= Pow2(committedLog)
    ensures |claim.rowWeights| == Pow2(committedLog) && |claim.columnWeights| == 1
  {
    var on := ColumnSums(K, rows, Coefficients(K, query)[..|rows|], columns);
    R.InnerProduct(on[1..] + Zeros(K, Pow2(committedLog) - (columns - 1)), [K.one], K.add(Target(query), on[0]))
  }

  lemma {:induction false} RewriteMeans(
    K: Field, query: OpeningQuery, logRows: nat, logColumns: nat, committedLog: nat, rows: seq<Support>, used: nat, w: seq<Elem>
  )
    requires K.Valid() && AllWithin(rows, used + 1) && used <= Pow2(committedLog)
    requires |rows| <= |w| == Pow2(logRows + logColumns)
    requires forall h :: |h| == |w| ==> (Holds(K, query, logRows, logColumns, h) <==> Target(query) == R.BitSum(K, h, w))
    ensures var on := ColumnSums(K, rows, w[..|rows|], used + 1);
      var claim := R.InnerProduct(on[1..] + Zeros(K, Pow2(committedLog) - used), [K.one], K.add(Target(query), on[0]));
      SameClaim(K, Factored(claim), committedLog, query, logRows, logColumns, rows, used)
  {
    hide R.BitSum, Virtual, GridSum, ColumnSum, AllWithin;
    assert Pow2(0) == 1;
    hide Pow2;
    var on := ColumnSums(K, rows, w[..|rows|], used + 1);
    var padded, target := on[1..] + Zeros(K, Pow2(committedLog) - used), K.add(Target(query), on[0]);
    forall f: seq<bool> | |f| == Pow2(committedLog)
      ensures Holds(K, Factored(R.InnerProduct(padded, [K.one], target)), committedLog, 0, f)
        <==> Holds(K, query, logRows, logColumns, Virtual(rows, f, used, |w|))
    {
      ClaimMoves(K, rows, w, f, used);
      SingleColumn(K, f, padded);
      ConstantMoves(K, Target(query), on[0], R.BitSum(K, f, padded));
    }
  }

  lemma {:induction false} ConstantMoves(K: Field, target: Elem, constant: Elem, rest: Elem)
    requires K.Valid()
    ensures K.add(target, constant) == rest <==> target == K.add(constant, rest)
  {
    K.Additive();
    assert K.add(K.add(target, constant), constant) == target;
    assert K.add(K.add(constant, rest), constant) == rest;
  }

  /** The query covers the virtual bits, and both shapes have room for the map. */
  ghost predicate Rewritable(query: OpeningQuery, logRows: nat, logColumns: nat, committedLog: nat, rows: seq<Support>, columns: nat) {
    Fits(query, logRows, logColumns) && |rows| <= Pow2(logRows + logColumns) && 0 < columns <= Pow2(committedLog) + 1
  }

  /** Rewrites a query on the virtual bits into a single-column query on the committed bits. */
  method TransposeQuery(
    K: Field, matrix: MaterializedMTranspose, query: OpeningQuery, logRows: nat, logColumns: nat, committedLog: nat,
    ghost rows: seq<Support>, ghost columns: nat
  ) returns (result: Result<OpeningQuery, VirtualMapError>)
    requires K.Valid() && columns > 0 && TransposeOf(matrix, rows, columns) && AllWithin(rows, columns)
    ensures query.Mle? && !Fits(query, logRows, logColumns) ==> result == Err(PointLengthMismatch)
    ensures query.Factored? && !Fits(query, logRows, logColumns) ==> result == Err(ClaimWeightCountMismatch)
    ensures Fits(query, logRows, logColumns) && |rows| > Pow2(logRows + logColumns) ==> result == Err(WeightCountMismatch)
    ensures Fits(query, logRows, logColumns) && |rows| <= Pow2(logRows + logColumns) && columns - 1 > Pow2(committedLog)
      ==> result == Err(CommittedShapeTooSmall)
    ensures Rewritable(query, logRows, logColumns, committedLog, rows, columns)
      ==> |rows| <= |Coefficients(K, query)| && result == Ok(Factored(Rewritten(K, query, committedLog, rows, columns)))
    ensures Rewritable(query, logRows, logColumns, committedLog, rows, columns)
      ==> SameClaim(K, result.value, committedLog, query, logRows, logColumns, rows, columns - 1)
  {
    hide Holds, Virtual, ColumnSum, Pow2, TransposeOf, AllWithin, SameClaim, Coefficients;
    var weighed := QueryWeights(K, query, logRows, logColumns);
    if weighed.Err? { return Err(weighed.error); }
    var transposed := Transpose(K, matrix, weighed.value, rows, columns);
    if transposed.Err? { return Err(transposed.error); }
    CountIs(matrix, rows, columns);
    if |transposed.value.weights| != matrix.ColumnCount() - 1 { return Err(WeightCountMismatch); }
    var target := K.add(Target(query), transposed.value.constantWeight);
    var committed := Pow2(committedLog);
    if |transposed.value.weights| > committed { return Err(CommittedShapeTooSmall); }
    RewriteMeans(K, query, logRows, logColumns, committedLog, rows, columns - 1, weighed.value);
    var padded := transposed.value.weights + Zeros(K, committed - |transposed.value.weights|);
    result := Ok(Factored(R.InnerProduct(padded, [K.one], target)));
  }

  lemma {:induction false} CountIs(matrix: MaterializedMTranspose, rows: seq<Support>, columns: nat)
    requires TransposeOf(matrix, rows, columns)
    ensures matrix.ColumnCount() == columns
  {
  }

  /** From a program to the rewritten query: it is rewritten exactly when it covers the padded lifted bits and
      both shapes have room for the program's, and then the claim on the zero-padded lifted bits of any
      witness is the claim on the witness. */
  method TransposeProgramQuery(
    K: Field, steps: seq<C.Step>, inputs: nat, query: OpeningQuery, logRows: nat, logColumns: nat, committedLog: nat
  ) returns (result: Result<OpeningQuery, VirtualMapError>)
    requires K.Valid() && C.Valid(steps, inputs)
    ensures query.Mle? && !Fits(query, logRows, logColumns) ==> result == Err(PointLengthMismatch)
    ensures query.Factored? && !Fits(query, logRows, logColumns) ==> result == Err(ClaimWeightCountMismatch)
    ensures var (virtual, committed) := (Pow2(logRows + logColumns), Pow2(committedLog));
      var (rows, witnesses) := (LiftedBits(steps, inputs) + 1, WitnessBits(steps, inputs));
      && (Fits(query, logRows, logColumns) && rows > virtual ==> result == Err(WeightCountMismatch))
      && (Fits(query, logRows, logColumns) && rows <= virtual && witnesses > committed ==> result == Err(CommittedShapeTooSmall))
      && (Fits(query, logRows, logColumns) && rows <= virtual && witnesses <= committed ==> result.Ok?)
    ensures result.Ok? ==> ProgramClaims(K, result.value, committedLog, query, logRows, logColumns, steps, inputs)
  {
    hide TransposeOf, AllWithin, MatrixOf, Lifts, SameClaim, Pow2;
    var recorder := Replay(steps, inputs);
    ghost var rows, witnesses := recorder.Rows(), recorder.witnessCount;
    CountsOf(rows, witnesses, steps, inputs);
    var matrix := Finish(recorder);
    result := TransposeQuery(K, matrix, query, logRows, logColumns, committedLog, rows, witnesses + 1);
    if result.Ok? {
      forall f: seq<bool> | |f| == Pow2(committedLog)
        ensures ProgramClaim(K, result.value, committedLog, query, logRows, logColumns, steps, inputs, f)
      {
        ClaimOfProgram(K, result.value, committedLog, query, logRows, logColumns, steps, inputs, rows, witnesses, f);
      }
    }
  }

  /** The bits a program lifts, and the witnesses it takes. */
  ghost function LiftedBits(steps: seq<C.Step>, inputs: nat): nat { |C.BoolMeaningAt(steps, inputs, 0).mRows| }

  ghost function WitnessBits(steps: seq<C.Step>, inputs: nat): nat { C.BoolMeaningAt(steps, inputs, 0).witnesses }

  lemma {:induction false} CountsOf(rows: seq<Support>, witnesses: nat, steps: seq<C.Step>, inputs: nat)
    requires MatrixOf(rows, witnesses, steps, inputs)
    ensures |rows| == LiftedBits(steps, inputs) + 1 && witnesses == WitnessBits(steps, inputs)
  {
    hide AllWithin;
    assert RowsMean(rows, witnesses, C.BoolMeaningAt(steps, inputs, 0), 0);
  }

  /** Every run lifts that many bits and takes that many witnesses: the inputs and the hinted ones. */
  lemma {:induction false} RunCounts(steps: seq<C.Step>, inputs: nat, f: seq<bool>)
    ensures |C.RunBools(steps, inputs, f).lifted| == LiftedBits(steps, inputs)
    ensures C.RunBools(steps, inputs, f).next == WitnessBits(steps, inputs)
    decreases |steps|
  {
    if |steps| > 0 { RunCounts(steps[..|steps| - 1], inputs, f); }
  }

  /** The rewritten query on a witness against the query on its padded lifted bits. */
  ghost predicate ProgramClaim(
    K: Field, on: OpeningQuery, committedLog: nat, query: OpeningQuery, logRows: nat, logColumns: nat,
    steps: seq<C.Step>, inputs: nat, f: seq<bool>
  ) {
    var h := [true] + C.RunBools(steps, inputs, f).lifted;
    && |h| <= Pow2(logRows + logColumns)
    && (Holds(K, on, committedLog, 0, f)
        <==> Holds(K, query, logRows, logColumns, h + Falses(Pow2(logRows + logColumns) - |h|)))
  }

  ghost predicate ProgramClaims(
    K: Field, on: OpeningQuery, committedLog: nat, query: OpeningQuery, logRows: nat, logColumns: nat, steps: seq<C.Step>, inputs: nat
  ) {
    forall f: seq<bool> :: |f| == Pow2(committedLog) ==>
      ProgramClaim(K, on, committedLog, query, logRows, logColumns, steps, inputs, f)
  }

  lemma {:induction false} ClaimOfProgram(
    K: Field, on: OpeningQuery, committedLog: nat, query: OpeningQuery, logRows: nat, logColumns: nat,
    steps: seq<C.Step>, inputs: nat, rows: seq<Support>, witnesses: nat, f: seq<bool>
  )
    requires witnesses <= Pow2(committedLog) == |f| && |rows| <= Pow2(logRows + logColumns)
    requires Lifts(rows, witnesses, steps, inputs) && AllWithin(rows, witnesses + 1)
    requires SameClaim(K, on, committedLog, query, logRows, logColumns, rows, witnesses)
    ensures ProgramClaim(K, on, committedLog, query, logRows, logColumns, steps, inputs, f)
  {
    hide Holds, C.RunBools, RowBit, Pow2;
    var h := [true] + C.RunBools(steps, inputs, f).lifted;
    assert LiftsOn(rows, C.RunBools(steps, inputs, f).lifted, f);
    forall i | 0 <= i < |rows| ensures RowBit(rows[i], [true] + f[..witnesses]) == h[i] {
      assert Within(rows[i], witnesses + 1);
      RowBitPrefix(rows[i], [true] + f[..witnesses], [true] + f);
    }
    assert Image(rows, [true] + f[..witnesses]) == h;
  }

  lemma {:induction false} RowBitPrefix(row: Support, x: seq<bool>, y: seq<bool>)
    requires Within(row, |x|) && x <= y
    ensures RowBit(row, x) == RowBit(row, y)
  {
    if |row| > 0 { RowBitPrefix(row[..|row| - 1], x, y); }
  }
}
