/** The grand-product circuit of a bit table: its leaves, its outputs, and the opening claim its
    reduction emits. */
module GrandProducts {
  import M = Montgomery
  import opened FiniteField
  import opened Powers
  import opened Cubes
  import opened Transcript
  import opened Gkr
  import opened GkrSystem
  import opened Transposes
  import opened BitMatrices
  import opened Folds

  // ---------------------------------------------------------------- the leaves

  /** The leaf at `(row, column)`: the row's image where the bit is set, one elsewhere. */
  ghost function LeafAt(K: Field, table: BitTable, images: seq<Elem>, row: nat, column: nat): Elem
    requires table.Valid() && |images| == table.shape.Rows() && row < |images| && column < table.shape.Columns()
  {
    if table.Bit(column, row) then images[row] else K.one
  }

  ghost function LeafRow(K: Field, table: BitTable, images: seq<Elem>, row: nat): (leaves: seq<Elem>)
    requires table.Valid() && |images| == table.shape.Rows() && row < |images|
    ensures |leaves| == table.shape.Columns()
    ensures forall c: nat :: c < |leaves| ==> leaves[c] == LeafAt(K, table, images, row, c)
  {
    seq(table.shape.Columns(), c requires 0 <= c < table.shape.Columns() => LeafAt(K, table, images, row, c))
  }

  /** The first rows of leaves, one after another. */
  ghost function Leaves(K: Field, table: BitTable, images: seq<Elem>, rows: nat): (leaves: seq<Elem>)
    requires table.Valid() && |images| == table.shape.Rows() && rows <= |images|
    ensures |leaves| == rows * table.shape.Columns()
  {
    if rows == 0 then []
    else
      M.PlusTimes(rows - 1, 1, table.shape.Columns());
      Leaves(K, table, images, rows - 1) + LeafRow(K, table, images, rows - 1)
  }

  /** The circuit's leaves, filled row by row from the transposed table. */
  method CircuitLeaves(K: Field, images: seq<Elem>, table: BitTable) returns (leafs: array<Elem>)
    requires table.Valid() && table.shape.logColumns >= PACK_BITS && |images| == table.shape.Rows()
    ensures fresh(leafs) && leafs[..] == Leaves(K, table, images, table.shape.Rows())
  {
    hide BitTable.Valid, BitTable.Bit, Leaves, BitMatrix.Wide, BitMatrix.Valid, BitMatrix.Bit, BitMatrix.Dim1, BitMatrix.Dim2;
    TableIsWide(table);
    var matrix := table.AsMatrix().Transpose();
    var dim2 := matrix.Dim2();
    var rows := table.shape.Rows();
    assert dim2 == table.shape.Columns();
    leafs := new Elem[rows * dim2](_ => K.zero);
    NoLeaves(K, table, images);
    assert leafs[..0] == [];
    for b := 0 to rows
      invariant b * dim2 <= leafs.Length && leafs[..b * dim2] == Leaves(K, table, images, b)
    {
      M.ProductMonotone(b + 1, rows, dim2);
      M.PlusTimes(b, 1, dim2);
      NextRow(K, table, images, b);
      ghost var start, before := b * dim2, leafs[..];
      FillRow(K, table, matrix, images, b, leafs);
      RowAppended(before, leafs[..], start, dim2, LeafRow(K, table, images, b));
    }
    assert leafs[..leafs.Length] == leafs[..];
  }

  lemma {:induction false} RowAppended(before: seq<Elem>, after: seq<Elem>, start: nat, width: nat, row: seq<Elem>)
    requires |before| == |after| && start + width <= |after| && after[start..start + width] == row
    requires forall i: nat :: i < start ==> after[i] == before[i]
    ensures after[..start + width] == before[..start] + row
  {
    assert after[..start + width] == after[..start] + after[start..start + width];
  }

  lemma {:induction false} NoLeaves(K: Field, table: BitTable, images: seq<Elem>)
    requires table.Valid() && |images| == table.shape.Rows()
    ensures Leaves(K, table, images, 0) == []
  {
  }

  lemma {:induction false} NextRow(K: Field, table: BitTable, images: seq<Elem>, row: nat)
    requires table.Valid() && |images| == table.shape.Rows() && row < |images|
    ensures Leaves(K, table, images, row + 1) == Leaves(K, table, images, row) + LeafRow(K, table, images, row)
  {
  }

  lemma {:induction false} TableIsWide(table: BitTable)
    requires table.Valid() && table.shape.logColumns >= PACK_BITS
    ensures table.AsMatrix().Wide()
    ensures table.AsMatrix().Dim1() == table.shape.Columns() && table.AsMatrix().Dim2() == table.shape.Rows()
  {
    MatrixOf(table);
    RowsAreWords(table.shape.logRows);
    RowsAreWords(table.shape.logColumns);
  }

  /** One row of leaves, read from the transposed bits. */
  method FillRow(K: Field, ghost table: BitTable, matrix: BitMatrix, images: seq<Elem>, b: nat, leafs: array<Elem>)
    requires table.Valid() && |images| == table.shape.Rows() && b < |images|
    requires table.AsMatrix().Wide() && matrix.Wide() && Transposed(table.AsMatrix(), matrix)
    requires matrix.Dim1() == |images| && matrix.Dim2() == table.shape.Columns()
    requires 0 <= b * matrix.Dim2() && b * matrix.Dim2() + matrix.Dim2() <= leafs.Length
    modifies leafs
    ensures forall i: nat :: i < b * matrix.Dim2() ==> leafs[i] == old(leafs[i])
    ensures leafs[b * matrix.Dim2()..b * matrix.Dim2() + matrix.Dim2()] == LeafRow(K, table, images, b)
  {
    hide BitTable.Valid, BitTable.Bit, BitMatrix.Wide, BitMatrix.Valid, BitMatrix.Bit, BitMatrix.Dim1, BitMatrix.Dim2, LeafAt, Transposed;
    var dim2 := matrix.Dim2();
    var start := b * dim2;
    for c := 0 to dim2
      invariant forall i: nat :: i < start ==> leafs[i] == old(leafs[i])
      invariant forall k: nat :: k < c ==> leafs[start + k] == LeafAt(K, table, images, b, k)
    {
      var bit := ReadBit(matrix, b, c);
      TransposedBit(table, matrix, b, c);
      leafs[start + c] := if bit then images[b] else K.one;
      LeafIs(K, table, images, b, c);
    }
    assert leafs[start..start + dim2] == LeafRow(K, table, images, b);
  }

  lemma {:induction false} LeafIs(K: Field, table: BitTable, images: seq<Elem>, row: nat, column: nat)
    requires table.Valid() && |images| == table.shape.Rows() && row < |images| && column < table.shape.Columns()
    ensures LeafAt(K, table, images, row, column) == if table.Bit(column, row) then images[row] else K.one
  {
  }

  lemma {:induction false} TransposedBit(table: BitTable, matrix: BitMatrix, row: nat, column: nat)
    requires table.Valid() && table.AsMatrix().Wide() && matrix.Wide() && Transposed(table.AsMatrix(), matrix)
    requires row < matrix.Dim1() && column < matrix.Dim2() && row < table.shape.Rows() && column < table.shape.Columns()
    ensures matrix.Bit(row, column) == table.Bit(column, row)
  {
    hide BitMatrix.Bit, BitMatrix.Dim1, BitMatrix.Dim2;
    MatrixOf(table);
  }

  /** Bit `i2` of row `i1` of a matrix whose rows are whole words. */
  method ReadBit(m: BitMatrix, i1: nat, i2: nat) returns (bit: bool)
    requires m.Wide() && i1 < m.Dim1() && i2 < m.Dim2()
    ensures bit == m.Bit(i1, i2)
  {
    var words := m.Dim2() / BITS;
    WideBit(m, words, i1, i2);
    bit := m.packed[i1 * words + i2 / BITS][i2 % BITS];
  }

  // ---------------------------------------------------------------- the outputs

  /** The layer of `m` variables as a table. */
  ghost function LayerTable(K: Field, leaves: seq<Elem>, n: nat, m: nat): (s: seq<Elem>)
    requires |leaves| == Pow2(n) && m <= n
    ensures |s| == Pow2(m)
    decreases n - m
  {
    if m == n then leaves
    else
      var below := LayerTable(K, leaves, n, m + 1);
      Products(K, below[..Pow2(m)], below[Pow2(m)..])
  }

  lemma {:induction false} LayerTableIs(K: Field, leaves: seq<Elem>, n: nat, m: nat)
    requires |leaves| == Pow2(n) && m <= n
    ensures TableOf(K, CubeOf(leaves, n), n, m, LayerTable(K, leaves, n, m))
    decreases n - m
  {
    hide CubeOf, Layer, Products;
    if m < n {
      LayerTableIs(K, leaves, n, m + 1);
      NextTable(K, CubeOf(leaves, n), n, m, LayerTable(K, leaves, n, m + 1));
    } else {
      LeavesTable(K, leaves, n);
    }
  }

  lemma {:induction false} CubeDetermines(s: seq<Elem>, t: seq<Elem>, n: nat)
    requires |s| == |t| == Pow2(n) && CubeOf(s, n) == CubeOf(t, n)
    ensures s == t
  {
    if n > 0 {
      var h := Pow2(n - 1);
      CubeDetermines(s[..h], t[..h], n - 1);
      CubeDetermines(s[h..], t[h..], n - 1);
      assert s == s[..h] + s[h..] && t == t[..h] + t[h..];
    }
  }

  /** The product of every `step`-th entry from index `b` on. */
  ghost function Strided(K: Field, t: seq<Elem>, step: nat, b: nat, count: nat): Elem
    requires b < step && count * step <= |t|
  {
    if count == 0 then K.one
    else
      StrideInside(t, step, b, count);
      K.mul(Strided(K, t, step, b, count - 1), t[(count - 1) * step + b])
  }

  lemma {:induction false} StrideInside(t: seq<Elem>, step: nat, b: nat, count: nat)
    requires b < step && 0 < count && count * step <= |t|
    ensures 0 <= (count - 1) * step <= |t| && 0 <= (count - 1) * step + b < |t|
  {
    M.PlusTimes(count - 1, 1, step);
    M.ProductMonotone(0, count - 1, step);
  }

  /** Even strides times odd strides are all strides. */
  lemma {:induction false} Interleave(K: Field, t: seq<Elem>, step: nat, b: nat, count: nat)
    requires K.Valid() && b < step && count * (2 * step) <= |t|
    ensures (2 * count) * step <= |t|
    ensures K.mul(Strided(K, t, 2 * step, b, count), Strided(K, t, 2 * step, b + step, count))
      == Strided(K, t, step, b, 2 * count)
    decreases count
  {
    M.Assoc(count, 2, step);
    assert count * (2 * step) == 2 * count * step;
    if count == 0 {
      K.Units(K.one);
    } else {
      StrideInside(t, 2 * step, b, count);
      Interleave(K, t, step, b, count - 1);
      TwoStrides(K, t, step, b, count);
      var x, y := Strided(K, t, 2 * step, b, count - 1), Strided(K, t, 2 * step, b + step, count - 1);
      FourFactors(K, x, t[(count - 1) * (2 * step) + b], y, t[(count - 1) * (2 * step) + (b + step)]);
    }
  }

  lemma {:induction false} TwoStrides(K: Field, t: seq<Elem>, step: nat, b: nat, count: nat)
    requires b < step && 0 < count && 2 * count * step <= |t| && (2 * count - 2) * step <= |t|
    ensures 0 <= (count - 1) * (2 * step) && (count - 1) * (2 * step) + (b + step) < |t|
    ensures Strided(K, t, step, b, 2 * count)
      == K.mul(K.mul(Strided(K, t, step, b, 2 * count - 2), t[(count - 1) * (2 * step) + b]),
               t[(count - 1) * (2 * step) + (b + step)])
  {
    StrideInside(t, step, b, 2 * count);
    StrideInside(t, step, b, 2 * count - 1);
    Positions(count, step);
  }

  lemma {:induction false} Positions(count: nat, step: nat)
    requires count > 0
    ensures (2 * count - 2) * step == (count - 1) * (2 * step) && (2 * count - 1) * step == (count - 1) * (2 * step) + step
    ensures 0 <= (count - 1) * (2 * step)
  {
    M.Assoc(count - 1, 2, step);
    M.PlusTimes(2 * count - 2, 1, step);
    M.ProductMonotone(0, count - 1, 2 * step);
  }

  lemma {:induction false} FourFactors(K: Field, x: Elem, a: Elem, y: Elem, b: Elem)
    requires K.Valid()
    ensures K.mul(K.mul(x, a), K.mul(y, b)) == K.mul(K.mul(K.mul(x, y), a), b)
  {
    K.Assoc(K.mul(x, a), y, b);
    K.Assoc(x, a, y);
    K.Comm(a, y);
    K.Assoc(x, y, a);
  }

  /** An entry of a layer is the product of the leaves above it. */
  lemma {:induction false} LayerEntry(K: Field, leaves: seq<Elem>, n: nat, m: nat, b: nat, step: nat, count: nat)
    requires K.Valid() && |leaves| == Pow2(n) && m <= n && b < step == Pow2(m) && count == Pow2(n - m)
    requires count * step == |leaves|
    ensures LayerTable(K, leaves, n, m)[b] == Strided(K, leaves, step, b, count)
    decreases n - m
  {
    hide Strided, LayerTable, Pow2;
    if m == n {
      LastLayer(K, leaves, n);
      OneStride(K, leaves, step, b, count);
    } else {
      var half := Pow2(n - m - 1);
      NextEntry(K, leaves, n, m, b);
      assert half * (2 * step) == count * step by { M.Assoc(half, 2, step); }
      LayerEntry(K, leaves, n, m + 1, b, 2 * step, half);
      LayerEntry(K, leaves, n, m + 1, b + step, 2 * step, half);
      Interleave(K, leaves, step, b, half);
    }
  }

  lemma {:induction false} LastLayer(K: Field, leaves: seq<Elem>, n: nat)
    requires |leaves| == Pow2(n)
    ensures LayerTable(K, leaves, n, n) == leaves && Pow2(n - n) == 1
  {
  }

  lemma {:induction false} NextEntry(K: Field, leaves: seq<Elem>, n: nat, m: nat, b: nat)
    requires |leaves| == Pow2(n) && m < n && b < Pow2(m)
    ensures Pow2(m + 1) == 2 * Pow2(m) && Pow2(n - m) == 2 * Pow2(n - m - 1)
    ensures var below := LayerTable(K, leaves, n, m + 1);
      LayerTable(K, leaves, n, m)[b] == K.mul(below[b], below[b + Pow2(m)])
  {
  }

  lemma {:induction false} OneStride(K: Field, t: seq<Elem>, step: nat, b: nat, count: nat)
    requires K.Valid() && b < step && step <= |t| && count == 1 && count * step <= |t|
    ensures Strided(K, t, step, b, count) == t[b]
  {
    assert Strided(K, t, step, b, 1) == K.mul(Strided(K, t, step, b, 0), t[0 * step + b]);
    K.Units(t[b]);
  }

  // ---------------------------------------------------------------- outputs and images

  lemma {:induction false} LeafIndex(K: Field, table: BitTable, images: seq<Elem>, rows: nat, row: nat, column: nat)
    requires table.Valid() && |images| == table.shape.Rows() && row < rows <= |images| && column < table.shape.Columns()
    ensures 0 <= row * table.shape.Columns() + column < rows * table.shape.Columns()
    ensures Leaves(K, table, images, rows)[row * table.shape.Columns() + column] == LeafAt(K, table, images, row, column)
    decreases rows
  {
    hide BitTable.Valid, BitTable.Bit, LeafAt, Leaves, LeafRow, Shape.Columns, Shape.Rows;
    var columns, last := table.shape.Columns(), rows - 1;
    RowAndWord(row, column, rows, columns);
    M.PlusTimes(last, 1, columns);
    NextRow(K, table, images, last);
    if row < last {
      RowAndWord(row, column, last, columns);
      LeafIndex(K, table, images, last, row, column);
    } else {
      LeafOfRow(K, table, images, last, column);
    }
  }

  lemma {:induction false} LeafOfRow(K: Field, table: BitTable, images: seq<Elem>, row: nat, column: nat)
    requires table.Valid() && |images| == table.shape.Rows() && row < |images| && column < table.shape.Columns()
    ensures LeafRow(K, table, images, row)[column] == LeafAt(K, table, images, row, column)
  {
    hide BitTable.Valid, BitTable.Bit;
  }

  /** The product of a column's leaves is the product of the images at its set bits. */
  lemma {:induction false} ColumnProduct(K: Field, table: BitTable, images: seq<Elem>, column: nat, rows: nat)
    requires table.Valid() && |images| == table.shape.Rows() && rows <= |images| && column < table.shape.Columns()
    ensures rows * table.shape.Columns() <= |Leaves(K, table, images, |images|)|
    ensures Strided(K, Leaves(K, table, images, |images|), table.shape.Columns(), column, rows)
      == LeafProduct(K, ColumnBits(table, column)[..rows], images)
    decreases rows
  {
    hide BitTable.Valid, BitTable.Bit, Leaves;
    M.ProductMonotone(rows, |images|, table.shape.Columns());
    if rows > 0 {
      var bits, last := ColumnBits(table, column), rows - 1;
      ColumnProduct(K, table, images, column, last);
      assert bits[..rows][..last] == bits[..last];
      LeafIndex(K, table, images, |images|, last, column);
    }
  }

  /** The fold meets the grand product: each output of the circuit is the image of its column's fold. */
  lemma {:induction false} OutputIsImage(
    K: Field, g: Elem, table: BitTable, exponents: seq<nat>, images: seq<Elem>, output: seq<Elem>, column: nat
  )
    requires K.Valid() && table.Valid() && |exponents| == table.shape.Rows() && Images(K, g, exponents, images)
    requires column < table.shape.Columns()
    requires |Leaves(K, table, images, |images|)| == Pow2(table.shape.LogBits())
    requires TableOf(K, CubeOf(Leaves(K, table, images, |images|), table.shape.LogBits()), table.shape.LogBits(),
               table.shape.logColumns, output)
    ensures column < |output| && output[column] == Raise(K, g, Selected(ColumnBits(table, column), exponents))
  {
    hide BitTable.Valid, BitTable.Bit, Leaves, CubeOf, Layer, LayerTable, Strided, LeafProduct, Selected, Raise;
    var leaves, n, m := Leaves(K, table, images, |images|), table.shape.LogBits(), table.shape.logColumns;
    LayerTableIs(K, leaves, n, m);
    CubeDetermines(output, LayerTable(K, leaves, n, m), m);
    Pow2Sum(n - m, m);
    LayerEntry(K, leaves, n, m, column, Pow2(m), Pow2(n - m));
    ColumnProduct(K, table, images, column, |images|);
    var bits := ColumnBits(table, column);
    assert bits[..|images|] == bits;
    FoldImage(K, g, bits, exponents, images);
  }
}
