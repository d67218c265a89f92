/** The finished column-major M, and the product of a challenge vector with it. */
module TransposedMatrix {
  import opened Wrappers
  import opened FiniteField
  import opened LinearCombinations
  import opened Buckets
  import opened MTranspose

  /** Per column, the rows that have it, in increasing order. */
  datatype MaterializedMTranspose = MaterializedMTranspose(rowCount: nat, columnOffsets: seq<nat>, rowIndices: seq<nat>)
  {
    function ColumnCount(): int { |columnOffsets| - 1 }
  }

  // ---------------------------------------------------------------- the counting sort

  function RowItems(row: Support, i: nat): (items: seq<(nat, nat)>)
    ensures |items| == |row| && forall k :: 0 <= k < |row| ==> items[k] == (row[k], i)
  {
    seq(|row|, k requires 0 <= k < |row| => (row[k], i))
  }

  /** The entries of the rows, each with its row. */
  function MatrixItems(rows: seq<Support>): seq<(nat, nat)> {
    if |rows| == 0 then [] else MatrixItems(rows[..|rows| - 1]) + RowItems(rows[|rows| - 1], |rows| - 1)
  }

  /** The rows with a column, in order. */
  function RowsWith(rows: seq<Support>, c: nat): seq<nat> {
    if |rows| == 0 then []
    else RowsWith(rows[..|rows| - 1], c) + (if c in rows[|rows| - 1] then [|rows| - 1] else [])
  }

  lemma {:induction false} PickedConcat(a: seq<(nat, nat)>, b: seq<(nat, nat)>, c: nat)
    ensures Picked(a + b, c) == Picked(a, c) + Picked(b, c)
    decreases |b|
  {
    if |b| == 0 {
      assert a + b == a;
    } else {
      PickedConcat(a, b[..|b| - 1], c);
      assert (a + b)[..|a + b| - 1] == a + b[..|b| - 1];
    }
  }

  /** A sorted row has a column at most once. */
  lemma {:induction false} PickedRow(row: Support, i: nat, c: nat)
    requires Rising(row)
    ensures Picked(RowItems(row, i), c) == if c in row then [i] else []
  {
    if |row| > 0 {
      var n := |row| - 1;
      PickedRow(row[..n], i, c);
      assert RowItems(row, i)[..n] == RowItems(row[..n], i);
      assert row == row[..n] + [row[n]];
      assert c == row[n] ==> c !in row[..n];
    }
  }

  lemma {:induction false} PickedRows(rows: seq<Support>, columns: nat, c: nat)
    requires AllWithin(rows, columns)
    ensures Picked(MatrixItems(rows), c) == RowsWith(rows, c)
  {
    hide Picked, RowItems;
    if |rows| == 0 {
      NothingPicked(c);
    } else {
      var n := |rows| - 1;
      PickedRows(rows[..n], columns, c);
      PickedConcat(MatrixItems(rows[..n]), RowItems(rows[n], n), c);
      assert Within(rows[n], columns);
      PickedRow(rows[n], n, c);
    }
  }

  lemma {:induction false} NothingPicked(c: nat)
    ensures Picked<nat>([], c) == []
  {
  }

  lemma {:induction false} ItemKeys(rows: seq<Support>, columns: nat)
    requires AllWithin(rows, columns)
    ensures KeysBelow(MatrixItems(rows), columns)
  {
    if |rows| > 0 {
      ItemKeys(rows[..|rows| - 1], columns);
      assert Within(rows[|rows| - 1], columns);
    }
  }

  /** Every column's slice lists the rows that have it. */
  ghost predicate TransposeOf(m: MaterializedMTranspose, rows: seq<Support>, columns: nat) {
    && m.rowCount == |rows| && |m.columnOffsets| == columns + 1
    && forall c :: 0 <= c < columns ==> Slice(m, c) == Some(RowsWith(rows, c))
  }

  function Slice(m: MaterializedMTranspose, c: nat): Option<seq<nat>> {
    if c + 1 < |m.columnOffsets| && m.columnOffsets[c] <= m.columnOffsets[c + 1] <= |m.rowIndices|
    then Some(m.rowIndices[m.columnOffsets[c]..m.columnOffsets[c + 1]]) else None
  }

  /** Lists the entries row by row and distributes them by column. */
  method Finish(recorder: Recorder) returns (m: MaterializedMTranspose)
    requires recorder.Valid()
    ensures TransposeOf(m, recorder.Rows(), recorder.witnessCount + 1)
  {
    hide Segmented, AllWithin, MatrixItems, RowItems, RowsWith, Bucketed, KeysBelow, Picked;
    var columns, rowCount := recorder.witnessCount + 1, |recorder.rowOffsets| - 1;
    ghost var rows := recorder.Rows();
    var items: seq<(nat, nat)> := [];
    assert rows[..0] == [];
    NoEntries();
    for row: nat := 0 to rowCount
      invariant items == MatrixItems(rows[..row])
    {
      NextRow(rows, row);
      RowBounds(recorder.rowOffsets, recorder.columnIndices, row);
      var start, end := recorder.rowOffsets[row], recorder.rowOffsets[row + 1];
      ghost var before := items;
      assert RowItems(rows[row], row)[..0] == [];
      for k := start to end
        invariant items == before + RowItems(rows[row], row)[..k - start]
      {
        RowEntry(rows[row], row, k - start);
        items := items + [(recorder.columnIndices[k], row)];
      }
      AllTaken(RowItems(rows[row], row));
    }
    assert rows[..rowCount] == rows;
    ItemKeys(rows, columns);
    var offsets, indices := Distribute(items, columns, 0);
    m := MaterializedMTranspose(rowCount, offsets, indices);
    assert |offsets| == columns + 1 by { BucketedLength(items, columns, offsets, indices); }
    forall c | 0 <= c < columns ensures Slice(m, c) == Some(RowsWith(rows, c)) {
      SliceIsPicked(items, columns, offsets, indices, c);
      PickedRows(rows, columns, c);
    }
  }

  lemma {:induction false} BucketedLength(items: seq<(nat, nat)>, n: nat, offsets: seq<nat>, table: seq<nat>)
    requires Bucketed(items, n, offsets, table)
    ensures |offsets| == n + 1
  {
  }

  lemma {:induction false} NoEntries()
    ensures MatrixItems([]) == []
  {
  }

  lemma {:induction false} NextRow(rows: seq<Support>, i: nat)
    requires i < |rows|
    ensures MatrixItems(rows[..i + 1]) == MatrixItems(rows[..i]) + RowItems(rows[i], i)
  {
    assert rows[..i + 1][..i] == rows[..i];
  }

  lemma {:induction false} RowBounds(offsets: seq<nat>, entries: seq<nat>, i: nat)
    requires Segmented(offsets, entries) && i + 1 < |offsets|
    ensures offsets[i] <= offsets[i + 1] <= |entries| && Segment(offsets, entries, i) == entries[offsets[i]..offsets[i + 1]]
  {
  }

  lemma {:induction false} RowEntry(row: Support, i: nat, k: nat)
    requires k < |row|
    ensures |RowItems(row, i)| == |row|
    ensures RowItems(row, i)[..k + 1] == RowItems(row, i)[..k] + [(row[k], i)]
  {
  }

  lemma {:induction false} AllTaken(items: seq<(nat, nat)>)
    ensures items[..|items|] == items
  {
  }

  // ---------------------------------------------------------------- the product

  /** The challenges of the rows with a column, added up. */
  ghost function ColumnSum(K: Field, rows: seq<Support>, r: seq<Elem>, c: nat): Elem
    requires |rows| <= |r|
  {
    if |rows| == 0 then K.zero
    else K.add(ColumnSum(K, rows[..|rows| - 1], r, c), if c in rows[|rows| - 1] then r[|rows| - 1] else K.zero)
  }

  ghost function ColumnSums(K: Field, rows: seq<Support>, r: seq<Elem>, columns: nat): (sums: seq<Elem>)
    requires |rows| <= |r|
    ensures |sums| == columns && forall c :: 0 <= c < columns ==> sums[c] == ColumnSum(K, rows, r, c)
  {
    seq(columns, c requires 0 <= c < columns => ColumnSum(K, rows, r, c))
  }

  /** The challenges at some indices, added in order. */
  ghost function Gathered(K: Field, r: seq<Elem>, indices: seq<nat>): Elem {
    if |indices| == 0 then K.zero
    else
      var last := indices[|indices| - 1];
      K.add(Gathered(K, r, indices[..|indices| - 1]), if last < |r| then r[last] else K.zero)
  }

  lemma {:induction false} GatheredRows(K: Field, rows: seq<Support>, r: seq<Elem>, c: nat)
    requires K.Valid() && |rows| <= |r|
    ensures Gathered(K, r, RowsWith(rows, c)) == ColumnSum(K, rows, r, c)
    ensures forall k :: 0 <= k < |RowsWith(rows, c)| ==> RowsWith(rows, c)[k] < |rows|
  {
    if |rows| > 0 {
      var n := |rows| - 1;
      GatheredRows(K, rows[..n], r, c);
      var before, all := RowsWith(rows[..n], c), RowsWith(rows, c);
      if c in rows[n] {
        assert all[..|all| - 1] == before;
      } else {
        assert all == before;
        assert K.AddCancels(ColumnSum(K, rows[..n], r, c));
      }
    }
  }

  /** One column gathered over its slice. */
  method Evaluate(K: Field, m: MaterializedMTranspose, challenges: seq<Elem>, column: nat, ghost rows: seq<Support>, ghost columns: nat)
      returns (value: Elem)
    requires K.Valid() && TransposeOf(m, rows, columns) && column < columns && |challenges| == |rows|
    ensures value == ColumnSum(K, rows, challenges, column)
  {
    hide RowsWith, ColumnSum;
    GatheredRows(K, rows, challenges, column);
    assert Slice(m, column) == Some(RowsWith(rows, column));
    var start, end := m.columnOffsets[column], m.columnOffsets[column + 1];
    ghost var indices := RowsWith(rows, column);
    assert indices == m.rowIndices[start..end];
    value := K.zero;
    for k := start to end
      invariant value == Gathered(K, challenges, indices[..k - start])
    {
      assert indices[..k + 1 - start][..k - start] == indices[..k - start];
      assert indices[k - start] == m.rowIndices[k];
      value := K.add(value, challenges[m.rowIndices[k]]);
    }
    assert indices[..end - start] == indices;
  }

  /** `r M`, or nothing when the challenges do not match the rows. */
  method Apply(K: Field, m: MaterializedMTranspose, challenges: seq<Elem>, ghost rows: seq<Support>, ghost columns: nat)
      returns (output: Option<seq<Elem>>)
    requires K.Valid() && TransposeOf(m, rows, columns)
    ensures output == if |challenges| == |rows| then Some(ColumnSums(K, rows, challenges, columns)) else None
  {
    hide ColumnSum;
    if |challenges| != m.rowCount { return None; }
    var sums := [];
    for column := 0 to m.ColumnCount()
      invariant |sums| == column && forall c :: 0 <= c < column ==> sums[c] == ColumnSum(K, rows, challenges, c)
    {
      var value := Evaluate(K, m, challenges, column, rows, columns);
      sums := sums + [value];
    }
    assert sums == ColumnSums(K, rows, challenges, columns);
    return Some(sums);
  }
}
