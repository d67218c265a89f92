/** The column-major materialization of A, B and C, and its application. */
module SparseAbc {
  import opened Wrappers
  import opened Circuits
  import opened Wengert
  import opened WengertAdjoint
  import opened Buckets
  import opened LinearCombinations
  import opened ConstraintGenerator
  import opened Residues
  import M = Montgomery
  import SC = StoredCoefficients

  const ROW_LIMIT: nat := 0x1000_0000
  const KIND_LIMIT: nat := 0x4000_0000

  /** Row, matrix and coefficient class packed in one word. */
  datatype Entry = Entry(coordinate: nat, coefficient: int)

  function KindIndex(kind: Kind): nat {
    match kind case A => 0 case B => 1 case C => 2
  }

  function ClassOf(coefficient: int): nat {
    if coefficient == 1 then 1 else if coefficient == -1 then 2 else 0
  }

  function Packed(row: nat, kind: Kind, coefficient: int): Entry {
    Entry(row + ROW_LIMIT * KindIndex(kind) + KIND_LIMIT * ClassOf(coefficient), coefficient)
  }

  function RowOf(coordinate: nat): nat {
    coordinate % ROW_LIMIT
  }

  function KindAt(coordinate: nat): Kind {
    var k := coordinate / ROW_LIMIT % 4;
    if k == 0 then Kind.A else if k == 1 then Kind.B else Kind.C
  }

  function ClassAt(coordinate: nat): nat {
    coordinate / KIND_LIMIT
  }

  lemma {:induction false} Unpacked(row: nat, kind: Kind, coefficient: int)
    requires row < ROW_LIMIT
    ensures Packed(row, kind, coefficient).coefficient == coefficient
    ensures var c := Packed(row, kind, coefficient).coordinate;
      RowOf(c) == row && KindAt(c) == kind && ClassAt(c) == ClassOf(coefficient)
  {
  }

  datatype MaterializedAbc = MaterializedAbc(rowCount: nat, columnOffsets: seq<nat>, entries: seq<Entry>)

  /** The entries of one row with their columns. */
  function RowItems(row: Entries, i: nat, kind: Kind): (items: seq<(nat, Entry)>)
    ensures |items| == |row|
    ensures forall k :: 0 <= k < |row| ==> items[k] == (row[k].0, Packed(i, kind, row[k].1))
  {
    seq(|row|, k requires 0 <= k < |row| => (row[k].0, Packed(i, kind, row[k].1)))
  }

  function MatrixItems(rows: seq<Entries>, kind: Kind): seq<(nat, Entry)> {
    if |rows| == 0 then []
    else MatrixItems(rows[..|rows| - 1], kind) + RowItems(rows[|rows| - 1], |rows| - 1, kind)
  }

  /** The three matrices one after another. */
  function AllItems(x: Matrices): seq<(nat, Entry)> {
    MatrixItems(x.a, Kind.A) + MatrixItems(x.b, Kind.B) + MatrixItems(x.c, Kind.C)
  }

  // ---------------------------------------------------------------- what the items sum to

  function EntryWeight(e: Entry, w: seq<Weights>): int {
    Weight(w, RowOf(e.coordinate), KindAt(e.coordinate)) * e.coefficient
  }

  function TotalAt(items: seq<(nat, Entry)>, c: nat, w: seq<Weights>): int {
    if |items| == 0 then 0
    else
      var last := items[|items| - 1];
      TotalAt(items[..|items| - 1], c, w) + (if last.0 == c then EntryWeight(last.1, w) else 0)
  }

  function Total(entries: seq<Entry>, w: seq<Weights>): int {
    if |entries| == 0 then 0 else Total(entries[..|entries| - 1], w) + EntryWeight(entries[|entries| - 1], w)
  }

  lemma {:induction false} TotalConcat(a: seq<(nat, Entry)>, b: seq<(nat, Entry)>, c: nat, w: seq<Weights>)
    ensures TotalAt(a + b, c, w) == TotalAt(a, c, w) + TotalAt(b, c, w)
    decreases |b|
  {
    hide EntryWeight;
    if |b| == 0 {
      assert a + b == a;
    } else {
      TotalConcat(a, b[..|b| - 1], c, w);
      assert (a + b)[..|a + b| - 1] == a + b[..|b| - 1];
    }
  }

  lemma {:induction false} PickedTotal(items: seq<(nat, Entry)>, c: nat, w: seq<Weights>)
    ensures Total(Picked(items, c), w) == TotalAt(items, c, w)
    decreases |items|
  {
    hide EntryWeight;
    if |items| > 0 {
      var before, last := items[..|items| - 1], items[|items| - 1];
      PickedTotal(before, c, w);
      if last.0 == c {
        assert Picked(items, c)[..|Picked(before, c)|] == Picked(before, c);
      } else {
        assert Picked(items, c) == Picked(before, c);
      }
    }
  }

  lemma {:induction false} RowTotal(row: Entries, i: nat, kind: Kind, c: nat, w: seq<Weights>)
    requires i < ROW_LIMIT
    ensures TotalAt(RowItems(row, i, kind), c, w) == Weight(w, i, kind) * EntryAt(row, c)
  {
    hide Packed, RowOf, KindAt;
    if |row| > 0 {
      var n := |row| - 1;
      RowTotal(row[..n], i, kind, c, w);
      assert RowItems(row, i, kind)[..n] == RowItems(row[..n], i, kind);
      Unpacked(i, kind, row[n].1);
      TimesSum(Weight(w, i, kind), EntryAt(row[..n], c), row[n].1);
    }
  }

  lemma {:induction false} TimesSum(a: int, b: int, c: int)
    ensures a * (b + c) == a * b + a * c
  {
  }

  /** One matrix against its weights, at one column. */
  function MatrixTotal(rows: seq<Entries>, kind: Kind, c: nat, w: seq<Weights>): int {
    if |rows| == 0 then 0
    else MatrixTotal(rows[..|rows| - 1], kind, c, w) + Weight(w, |rows| - 1, kind) * EntryAt(rows[|rows| - 1], c)
  }

  lemma {:induction false} MatrixItemsTotal(rows: seq<Entries>, kind: Kind, c: nat, w: seq<Weights>)
    requires |rows| <= ROW_LIMIT
    ensures TotalAt(MatrixItems(rows, kind), c, w) == MatrixTotal(rows, kind, c, w)
  {
    hide TotalAt, EntryAt, Weight, RowItems;
    if |rows| == 0 {
      NoItems(c, w);
    } else {
      var n := |rows| - 1;
      MatrixItemsTotal(rows[..n], kind, c, w);
      TotalConcat(MatrixItems(rows[..n], kind), RowItems(rows[n], n, kind), c, w);
      RowTotal(rows[n], n, kind, c, w);
    }
  }

  lemma {:induction false} NoItems(c: nat, w: seq<Weights>)
    ensures TotalAt([], c, w) == 0
  {
  }

  /** The three totals together are the column of the combined matrix. */
  lemma {:induction false} CombinedTotal(x: Matrices, steps: seq<Step>, j: nat, r: seq<int>, e: int, n: nat)
    requires |x.a| == |x.b| == |x.c| == |r| && n <= |r|
    requires forall i :: 0 <= i < |r| ==> RowMeans(x, steps, i, j)
    ensures |MeaningAt(steps, j).rows| >= n
    ensures var w := WeightsOf(r, e);
      MatrixTotal(x.a[..n], Kind.A, j, w) + MatrixTotal(x.b[..n], Kind.B, j, w) + MatrixTotal(x.c[..n], Kind.C, j, w)
        == Combined(r, e, MeaningAt(steps, j).rows[..n])
    decreases n
  {
    hide MeaningAt, EntryAt;
    if n > 0 {
      var k := n - 1;
      CombinedTotal(x, steps, j, r, e, k);
      assert RowMeans(x, steps, k, j);
      assert x.a[..n][..k] == x.a[..k] && x.b[..n][..k] == x.b[..k] && x.c[..n][..k] == x.c[..k];
      assert MeaningAt(steps, j).rows[..n][..k] == MeaningAt(steps, j).rows[..k];
    }
  }

  // ---------------------------------------------------------------- the materialization

  ghost predicate AbcFor(abc: MaterializedAbc, x: Matrices) {
    && abc.rowCount == |x.a| && |abc.columnOffsets| == x.columns + 1
    && Bucketed(AllItems(x), x.columns, abc.columnOffsets, abc.entries)
  }

  lemma {:induction false} MatrixItemKeys(rows: seq<Entries>, kind: Kind, columns: nat)
    requires forall i, k :: 0 <= i < |rows| && 0 <= k < |rows[i]| ==> rows[i][k].0 < columns
    ensures KeysBelow(MatrixItems(rows, kind), columns)
  {
    hide Packed;
    if |rows| > 0 { MatrixItemKeys(rows[..|rows| - 1], kind, columns); }
  }

  /** Transposes the three matrices into one column-major table. */
  method FromMatrices(x: Matrices, ghost steps: seq<Step>, ghost inputs: nat) returns (abc: MaterializedAbc)
    requires Circuits.Valid(steps, inputs) && ForProgram(x, steps, inputs)
    ensures AbcFor(abc, x)
  {
    hide Bucketed, MatrixItems, Canonical;
    forall i | 0 <= i < Rows(steps)
      ensures forall k :: 0 <= k < |x.a[i]| ==> x.a[i][k].0 < x.columns
      ensures forall k :: 0 <= k < |x.b[i]| ==> x.b[i][k].0 < x.columns
      ensures forall k :: 0 <= k < |x.c[i]| ==> x.c[i][k].0 < x.columns
    {
      RowsWithin(x, steps, inputs, i);
    }
    MatrixItemKeys(x.a, Kind.A, x.columns);
    MatrixItemKeys(x.b, Kind.B, x.columns);
    MatrixItemKeys(x.c, Kind.C, x.columns);
    var items := AllItems(x);
    var offsets, table := Distribute(items, x.columns, Entry(0, 0));
    OffsetCount(items, x.columns, offsets, table);
    abc := MaterializedAbc(|x.a|, offsets, table);
  }

  lemma {:induction false} OffsetCount(items: seq<(nat, Entry)>, n: nat, offsets: seq<nat>, table: seq<Entry>)
    requires Bucketed(items, n, offsets, table)
    ensures |offsets| == n + 1 && |table| == |items|
  {
  }

  /** The slice of a column sums to the column of `r (A + x B + x^2 C)`. */
  lemma {:induction false} ColumnSlice(x: Matrices, abc: MaterializedAbc, steps: seq<Step>, inputs: nat, j: nat, r: seq<int>, e: int)
    requires ForProgram(x, steps, inputs) && AbcFor(abc, x) && j < x.columns && |r| == Rows(steps) && |r| <= ROW_LIMIT
    ensures abc.columnOffsets[j] <= abc.columnOffsets[j + 1] <= |abc.entries|
    ensures |MeaningAt(steps, j).rows| == |r|
    ensures Total(abc.entries[abc.columnOffsets[j]..abc.columnOffsets[j + 1]], WeightsOf(r, e))
      == Combined(r, e, MeaningAt(steps, j).rows)
  {
    hide Bucketed, Picked, MeaningAt, Total, MatrixTotal, Canonical, Combined, EntryAt, TotalAt, MatrixItems;
    var w, items := WeightsOf(r, e), AllItems(x);
    SliceIsPicked(items, x.columns, abc.columnOffsets, abc.entries, j);
    PickedTotal(items, j, w);
    TotalConcat(MatrixItems(x.a, Kind.A) + MatrixItems(x.b, Kind.B), MatrixItems(x.c, Kind.C), j, w);
    TotalConcat(MatrixItems(x.a, Kind.A), MatrixItems(x.b, Kind.B), j, w);
    MatrixItemsTotal(x.a, Kind.A, j, w);
    MatrixItemsTotal(x.b, Kind.B, j, w);
    MatrixItemsTotal(x.c, Kind.C, j, w);
    forall i | 0 <= i < |r| ensures RowMeans(x, steps, i, j) {}
    SameShape(steps, 0, j);
    CombinedTotal(x, steps, j, r, e, |r|);
    assert x.a[..|r|] == x.a && x.b[..|r|] == x.b && x.c[..|r|] == x.c;
    assert MeaningAt(steps, j).rows[..|r|] == MeaningAt(steps, j).rows;
  }

  // ---------------------------------------------------------------- the application

  /** The materialization with everything that depends on the modulus. */
  datatype PreparedAbc = PreparedAbc(abc: MaterializedAbc, modulus: Modulus, coefficients: seq<M.Pair>)

  ghost predicate AbcPrepared(p: PreparedAbc) {
    && Ready(p.modulus) && |p.coefficients| == |p.abc.entries|
    && (forall i :: 0 <= i < |p.coefficients| ==> p.coefficients[i] == Enc(p.modulus, p.abc.entries[i].coefficient))
  }

  ghost predicate EntriesReadable(p: PreparedAbc, rows: nat) {
    forall i :: 0 <= i < |p.abc.entries| ==>
      RowOf(p.abc.entries[i].coordinate) < rows
      && ClassAt(p.abc.entries[i].coordinate) == ClassOf(p.abc.entries[i].coefficient)
  }

  lemma {:induction false} TotalNext(entries: seq<Entry>, from: nat, i: nat, w: seq<Weights>)
    requires from <= i < |entries|
    ensures Total(entries[from..i + 1], w) == Total(entries[from..i], w) + EntryWeight(entries[i], w)
  {
    assert entries[from..i + 1][..i - from] == entries[from..i];
  }

  /** One contribution: classes one and minus one need no product. */
  method Contribution(p: PreparedAbc, index: nat, source: M.Pair, ghost x: int) returns (r: M.Pair)
    requires AbcPrepared(p) && index < |p.abc.entries| && source == Enc(p.modulus, x)
    requires ClassAt(p.abc.entries[index].coordinate) == ClassOf(p.abc.entries[index].coefficient)
    ensures r == Enc(p.modulus, x * p.abc.entries[index].coefficient)
  {
    hide M.Encode, Enc, ClassAt;
    var class_ := ClassAt(p.abc.entries[index].coordinate);
    if class_ == 1 {
      r := source;
    } else if class_ == 2 {
      r := Negate(p.modulus, source, x);
    } else {
      r := Multiply(p.modulus, source, p.coefficients[index], x, p.abc.entries[index].coefficient);
    }
  }

  /** One output column, gathered from its slice. */
  method GatherColumn(p: PreparedAbc, start: nat, end: nat, weighted: seq<Weighted>, ghost w: seq<Weights>) returns (value: M.Pair)
    requires AbcPrepared(p) && EntriesReadable(p, |weighted|) && start <= end <= |p.abc.entries|
    requires WeightsEncoded(p.modulus, weighted, w)
    ensures value == Enc(p.modulus, Total(p.abc.entries[start..end], w))
  {
    hide M.Encode, Enc, Total, RowOf, KindAt, ClassAt, ClassOf;
    value := M.Pair(0, 0);
    var initialized := false;
    ZeroIsEncoded(p.modulus);
    NothingTotal(w);
    assert p.abc.entries[start..start] == [];
    for index := start to end
      invariant value == Enc(p.modulus, Total(p.abc.entries[start..index], w)) && initialized == (index > start)
    {
      var entry := p.abc.entries[index];
      var source := Pick(weighted[RowOf(entry.coordinate)], KindAt(entry.coordinate));
      ghost var x, y := Total(p.abc.entries[start..index], w), Weight(w, RowOf(entry.coordinate), KindAt(entry.coordinate));
      var contribution := Contribution(p, index, source, y);
      TotalNext(p.abc.entries, start, index, w);
      value := Accumulate(p.modulus, value, initialized, contribution, x, y * entry.coefficient);
      initialized := true;
    }
  }

  lemma {:induction false} NothingTotal(w: seq<Weights>)
    ensures Total([], w) == 0
  {
  }

  lemma {:induction false} ItemsPacked(rows: seq<Entries>, kind: Kind)
    requires |rows| <= ROW_LIMIT
    ensures forall i :: 0 <= i < |MatrixItems(rows, kind)| ==> ItemPacked(MatrixItems(rows, kind)[i].1, |rows|)
  {
    hide Packed, RowOf, ClassAt, ClassOf;
    if |rows| > 0 {
      var n := |rows| - 1;
      ItemsPacked(rows[..n], kind);
      forall k | 0 <= k < |rows[n]| ensures ItemPacked(RowItems(rows[n], n, kind)[k].1, |rows|) { Unpacked(n, kind, rows[n][k].1); }
    }
  }

  ghost predicate ItemPacked(e: Entry, rows: nat) {
    RowOf(e.coordinate) < rows && ClassAt(e.coordinate) == ClassOf(e.coefficient)
  }

  lemma {:induction false} TableReadable(items: seq<(nat, Entry)>, n: nat, offsets: seq<nat>, table: seq<Entry>, rows: nat)
    requires Bucketed(items, n, offsets, table) && KeysBelow(items, n)
    requires forall i :: 0 <= i < |items| ==> ItemPacked(items[i].1, rows)
    ensures forall v :: 0 <= v < |table| ==> ItemPacked(table[v], rows)
  {
    hide ItemPacked;
    forall v | 0 <= v < |table| ensures ItemPacked(table[v], rows) {
      var k, i := TableEntry(items, n, offsets, table, v);
    }
  }

  lemma {:induction false} AllReadable(x: Matrices, abc: MaterializedAbc, steps: seq<Step>, inputs: nat)
    requires Circuits.Valid(steps, inputs) && ForProgram(x, steps, inputs) && AbcFor(abc, x) && Rows(steps) <= ROW_LIMIT
    ensures forall v :: 0 <= v < |abc.entries| ==> ItemPacked(abc.entries[v], Rows(steps))
  {
    hide Bucketed, MatrixItems, Canonical, ItemPacked;
    forall i | 0 <= i < Rows(steps)
      ensures forall k :: 0 <= k < |x.a[i]| ==> x.a[i][k].0 < x.columns
      ensures forall k :: 0 <= k < |x.b[i]| ==> x.b[i][k].0 < x.columns
      ensures forall k :: 0 <= k < |x.c[i]| ==> x.c[i][k].0 < x.columns
    {
      RowsWithin(x, steps, inputs, i);
    }
    MatrixItemKeys(x.a, Kind.A, x.columns);
    MatrixItemKeys(x.b, Kind.B, x.columns);
    MatrixItemKeys(x.c, Kind.C, x.columns);
    ItemsPacked(x.a, Kind.A);
    ItemsPacked(x.b, Kind.B);
    ItemsPacked(x.c, Kind.C);
    TableReadable(AllItems(x), x.columns, abc.columnOffsets, abc.entries, Rows(steps));
  }

  datatype SparseError = ChallengeLength(expected: nat, actual: nat) | SmallModulus | EvenModulus

  /** The prepared evaluator with its reusable storage. */
  class PreparedMaterializedAbc {
    const prepared: PreparedAbc
    var weightedChallenges: seq<Weighted>
    var output: seq<M.Pair>

    constructor (prepared: PreparedAbc)
      ensures this.prepared == prepared
    {
      this.prepared := prepared;
      weightedChallenges, output := [], [];
    }

    method Apply(challenges: seq<M.Pair>, x: M.Pair, ghost m: Matrices, ghost steps: seq<Step>, ghost inputs: nat, ghost r: seq<int>, ghost e: int)
        returns (result: Result<seq<M.Pair>, SparseError>)
      requires AbcPrepared(prepared) && Circuits.Valid(steps, inputs) && ForProgram(m, steps, inputs) && AbcFor(prepared.abc, m)
      requires Rows(steps) <= ROW_LIMIT
      requires x == Enc(prepared.modulus, e) && |r| == |challenges|
      requires forall i :: 0 <= i < |r| ==> challenges[i] == Enc(prepared.modulus, r[i])
      modifies this
      ensures |challenges| != Rows(steps) ==>
        result == Err(ChallengeLength(Rows(steps), |challenges|)) && output == old(output)
      ensures |challenges| == Rows(steps) ==>
        && result == Ok(output) && |output| == Columns(steps)
        && forall j :: 0 <= j < Columns(steps) ==>
             |MeaningAt(steps, j).rows| == |r| && output[j] == Enc(prepared.modulus, Combined(r, e, MeaningAt(steps, j).rows))
    {
      hide M.Encode, Enc, Bucketed, MeaningAt, Combined, Total, MatrixItems, RowOf, ClassAt, ClassOf;
      if |challenges| != prepared.abc.rowCount { return Err(ChallengeLength(prepared.abc.rowCount, |challenges|)); }
      weightedChallenges := PrepareChallenges(prepared.modulus, challenges, x, r, e);
      AllReadable(m, prepared.abc, steps, inputs);
      output := [];
      for j := 0 to |prepared.abc.columnOffsets| - 1
        invariant |output| == j && WeightsEncoded(prepared.modulus, weightedChallenges, WeightsOf(r, e))
        invariant forall k :: 0 <= k < j ==>
          |MeaningAt(steps, k).rows| == |r| && output[k] == Enc(prepared.modulus, Combined(r, e, MeaningAt(steps, k).rows))
      {
        ColumnSlice(m, prepared.abc, steps, inputs, j, r, e);
        var start, end := prepared.abc.columnOffsets[j], prepared.abc.columnOffsets[j + 1];
        var value := GatherColumn(prepared, start, end, weightedChallenges, WeightsOf(r, e));
        output := output + [value];
      }
      return Ok(output);
    }
  }

  /** The reference backend: for every program, odd modulus, challenge vector and `x`, the materialized
      matrices give the same `r (A + x B + x^2 C)`. */
  method Apply(steps: seq<Step>, inputs: nat, challenges: seq<M.Pair>, x: M.Pair, modulus: M.Pair, inverse: M.Word)
      returns (result: Result<seq<M.Pair>, SparseError>)
    requires Circuits.Valid(steps, inputs) && Rows(steps) <= ROW_LIMIT
    requires modulus.Value() % 2 == 1 ==> (modulus.lo * inverse + 1) % M.B == 0
    ensures modulus.Value() <= 1 ==> result == Err(SmallModulus)
    ensures modulus.Value() > 1 && modulus.Value() % 2 == 0 ==> result == Err(EvenModulus)
    ensures modulus.Value() > 1 && modulus.Value() % 2 == 1 && |challenges| != Rows(steps) ==>
      result == Err(ChallengeLength(Rows(steps), |challenges|))
    ensures modulus.Value() > 1 && modulus.Value() % 2 == 1 && |challenges| == Rows(steps) ==>
      && result.Ok? && |result.value| == Columns(steps)
      && forall j :: 0 <= j < Columns(steps) ==>
           result.value[j].Value() == ProgramColumn(steps, ValuesOf(challenges), x.Value(), j) % modulus.Value()
  {
    hide ForProgram, AbcFor, M.Encode, MeaningAt, Combined;
    var matrices := Materialize(steps, inputs);
    var abc := FromMatrices(matrices, steps, inputs);
    var runtime := SC.NewModulus(modulus);
    if runtime.None? { return Err(SmallModulus); }
    if modulus.Value() % 2 == 0 { return Err(EvenModulus); }
    var m := modulus.Value();
    var exact := seq(|abc.entries|, i requires 0 <= i < |abc.entries| => abc.entries[i].coefficient);
    var coefficients := SC.PrepareCoefficients(runtime.value, m, exact);
    var prepared := PreparedAbc(abc, Modulus(modulus, inverse), coefficients);
    var evaluator := new PreparedMaterializedAbc(prepared);
    var encoded := seq(|challenges|, i requires 0 <= i < |challenges| => M.Encode(m, challenges[i].Value()));
    var output := evaluator.Apply(encoded, M.Encode(m, x.Value()), matrices, steps, inputs, ValuesOf(challenges), x.Value());
    if output.Err? { return output; }
    var canonical := Retrieve(prepared.modulus, output.value, ProgramColumns(steps, ValuesOf(challenges), x.Value()));
    return Ok(canonical);
  }
}
