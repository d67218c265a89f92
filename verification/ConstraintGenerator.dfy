/** The backend that materializes M, A, B and C, proved to hold the meaning of the program. */
module ConstraintGenerator {
  import opened Powers
  import opened Circuits
  import opened LinearCombinations

  /** Row-major sparse matrices; the first row of M is the implicit constant. */
  datatype Matrices = Matrices(m: seq<Support>, mColumns: nat, a: seq<Entries>, b: seq<Entries>, c: seq<Entries>, columns: nat)

  ghost predicate IntsAgree(ints: seq<Lc>, r1cs: seq<(Lc, Lc, Lc)>, columns: nat, m: Meaning, j: nat) {
    && |ints| == |m.values| && (forall h :: 0 <= h < |ints| ==> LcAt(ints[h], j) == m.values[h])
    && columns == m.columns && |r1cs| == |m.rows|
    && (forall i :: 0 <= i < |r1cs| ==> m.rows[i] == (LcAt(r1cs[i].0, j), LcAt(r1cs[i].1, j), LcAt(r1cs[i].2, j)))
  }

  ghost predicate BoolsAgree(bools: seq<BoolLc>, next: nat, mRows: seq<BoolLc>, m: BoolMeaning, b: nat) {
    && |bools| == |m.bits| && (forall h :: 0 <= h < |bools| ==> BoolLcAt(bools[h], b) == m.bits[h])
    && next == m.witnesses && |mRows| == |m.mRows|
    && (forall i :: 0 <= i < |mRows| ==> BoolLcAt(mRows[i], b) == m.mRows[i])
  }

  ghost predicate LcsValid(ints: seq<Lc>) {
    forall h :: 0 <= h < |ints| ==> LcValid(ints[h])
  }

  ghost predicate BoolLcsValid(bools: seq<BoolLc>) {
    forall h :: 0 <= h < |bools| ==> BoolLcValid(bools[h])
  }

  ghost predicate RowsValid(r1cs: seq<(Lc, Lc, Lc)>) {
    forall i :: 0 <= i < |r1cs| ==> LcValid(r1cs[i].0) && LcValid(r1cs[i].1) && LcValid(r1cs[i].2)
  }

  /** The combination of one integer witness. */
  function WitnessLc(index: nat, coefficient: int): Lc {
    Lc(0, [(index, coefficient)])
  }

  class Generator {
    var nextBoolean: nat
    var mRows: seq<BoolLc>
    var r1cs: seq<(Lc, Lc, Lc)>

    ghost predicate Valid()
      reads this
    {
      BoolLcsValid(mRows) && RowsValid(r1cs)
    }

    constructor (inputs: nat)
      ensures Valid() && nextBoolean == inputs && mRows == [] && r1cs == []
    {
      nextBoolean, mRows, r1cs := inputs, [], [];
    }

    /** Records a value as the next row of M. */
    method RecordBitz(value: BoolLc) returns (index: nat)
      requires Valid() && BoolLcValid(value)
      modifies this`mRows
      ensures Valid() && mRows == old(mRows) + [value] && index == |old(mRows)|
    {
      index := |mRows|;
      mRows := mRows + [value];
    }

    method Hint(count: nat) returns (handles: seq<BoolLc>)
      requires Valid()
      modifies this`nextBoolean
      ensures nextBoolean == old(nextBoolean) + count && |handles| == count && BoolLcsValid(handles)
      ensures handles == FreshHandles(old(nextBoolean), count)
    {
      handles := FreshHandles(nextBoolean, count);
      nextBoolean := nextBoolean + count;
    }

    /** One row and one coefficient per bit. */
    method BitzUnsigned(bits: seq<BoolLc>, low: nat) returns (full: Lc, lowLc: Lc)
      requires Valid() && BoolLcsValid(bits) && low <= |bits|
      modifies this`mRows
      ensures Valid() && mRows == old(mRows) + bits
      ensures LcValid(full) && forall j :: LcAt(full, j) == Lifted(j, |old(mRows)| + 1, |bits|)
      ensures LcValid(lowLc) && forall j :: LcAt(lowLc, j) == Lifted(j, |old(mRows)| + 1, low)
    {
      var witnesses := [];
      for index := 0 to |bits|
        invariant Valid() && mRows == old(mRows) + bits[..index] && witnesses == PowerEntries(|old(mRows)|, index)
      {
        var row := RecordBitz(bits[index]);
        witnesses := witnesses + [(row, Pow2(index))];
      }
      assert bits[..|bits|] == bits;
      lowLc, full := Lc(0, witnesses[..low]), Lc(0, witnesses);
      PowerEntriesAre(|old(mRows)|, |bits|);
      PowerEntriesAre(|old(mRows)|, low);
      assert witnesses[..low] == PowerEntries(|old(mRows)|, low);
    }

    method AssertR1c(a: Lc, b: Lc, c: Lc)
      requires Valid() && LcValid(a) && LcValid(b) && LcValid(c)
      modifies this`r1cs
      ensures Valid() && r1cs == old(r1cs) + [(a, b, c)]
    {
      r1cs := r1cs + [(a, b, c)];
    }

    /** The integer side of one step. */
    method RunInts(ints: seq<Lc>, bools: seq<BoolLc>, s: Step) returns (after: seq<Lc>)
      requires Valid() && LcsValid(ints) && BoolLcsValid(bools) && StepValid(s, |bools|, |ints|)
      modifies this`mRows, this`r1cs
      ensures Valid() && LcsValid(after)
      ensures s.Bitz? ==> mRows == old(mRows) + [bools[s.source]]
      ensures s.BitzUnsigned? ==> mRows == old(mRows) + Chosen(bools, s.bits)
      ensures !s.Bitz? && !s.BitzUnsigned? ==> mRows == old(mRows)
      ensures forall m, j ::
        IntsAgree(ints, old(r1cs), |old(mRows)| + 1, m, j) ==> IntsAgree(after, r1cs, |mRows| + 1, After(m, s, j), j)
    {
      hide LcAt, Lifted;
      match s
      case Xor(_, _) | Fixed(_) | Hint(_) => after := ints;
      case Bitz(bit) =>
        var k := RecordBitz(bools[bit]);
        after := ints + [WitnessLc(k, 1)];
        forall j: nat ensures LcAt(WitnessLc(k, 1), j) == Lifted(j, k + 1, 1) { SingleWitness(k, j); }
      case BitzUnsigned(bits, low, _) =>
        var full, lowLc := BitzUnsigned(Chosen(bools, bits), low);
        after := ints + [full, lowLc];
      case Constant(value, _) =>
        after := ints + [Lc(value, [])];
        forall j: nat ensures LcAt(Lc(value, []), j) == if j == 0 then value else 0 { ConstantLc(value, j); }
      case Add(x, y, _) =>
        var sum := AddLc(ints[x], ints[y]);
        after := ints + [sum];
      case Neg(x, _) =>
        var negated := NegateLc(ints[x]);
        after := ints + [negated];
      case Scale(x, factor, _) =>
        var product := ScaleLc(ints[x], factor);
        after := ints + [product];
      case AssertR1c(a, b, c) =>
        AssertR1c(ints[a], ints[b], ints[c]);
        after := ints;
    }

    /** The Boolean side of one step. */
    method RunBools(bools: seq<BoolLc>, s: Step) returns (after: seq<BoolLc>)
      requires Valid() && BoolLcsValid(bools) && (s.Xor? ==> s.left < |bools| && s.right < |bools|)
      modifies this`nextBoolean
      ensures BoolLcsValid(after)
      ensures forall m, b ::
        BoolsAgree(bools, old(nextBoolean), [], m, b) ==> BoolsAgree(after, nextBoolean, [], BoolAfter(m, s, b).(mRows := []), b)
    {
      hide BoolLcAt;
      match s
      case Xor(l, r) =>
        var sum := XorLc(bools[l], bools[r]);
        after := bools + [sum];
      case Fixed(bit) =>
        after := bools + [BoolLc(bit, [])];
        forall b: nat ensures BoolLcAt(BoolLc(bit, []), b) == (b == 0 && bit) { FixedLc(bit, b); }
      case Hint(count) =>
        var handles := Hint(count);
        after := bools + handles;
        forall i, b: nat | 0 <= i < count ensures BoolLcAt(handles[i], b) == (b == old(nextBoolean) + i + 1) {
          FreshLc(old(nextBoolean) + i, b);
        }
      case Bitz(_) | BitzUnsigned(_, _, _) | Constant(_, _) | Add(_, _, _) | Neg(_, _) | Scale(_, _, _) | AssertR1c(_, _, _) =>
        after := bools;
    }
  }

  function FreshHandles(first: nat, count: nat): (handles: seq<BoolLc>)
    ensures |handles| == count && forall i :: 0 <= i < count ==> handles[i] == BoolLc(false, [first + i])
  {
    seq(count, i requires 0 <= i < count => BoolLc(false, [first + i]))
  }

  function Chosen(bools: seq<BoolLc>, sources: seq<nat>): (picked: seq<BoolLc>)
    requires forall i :: 0 <= i < |sources| ==> sources[i] < |bools|
    ensures |picked| == |sources| && forall i :: 0 <= i < |sources| ==> picked[i] == bools[sources[i]]
  {
    seq(|sources|, i requires 0 <= i < |sources| => bools[sources[i]])
  }

  lemma {:induction false} SingleWitness(k: nat, j: nat)
    ensures LcAt(WitnessLc(k, 1), j) == Lifted(j, k + 1, 1)
  {
    if j > 0 { SingleEntry(k, 1, j - 1); }
  }

  lemma {:induction false} ConstantLc(value: int, j: nat)
    ensures LcAt(Lc(value, []), j) == if j == 0 then value else 0
  {
  }

  lemma {:induction false} FixedLc(bit: bool, b: nat)
    ensures BoolLcAt(BoolLc(bit, []), b) == (b == 0 && bit)
  {
  }

  lemma {:induction false} FreshLc(index: nat, b: nat)
    ensures BoolLcAt(BoolLc(false, [index]), b) == (b == index + 1)
  {
  }

  /** The coefficients of a packed lift. */
  function PowerEntries(first: nat, n: nat): (e: Entries)
    ensures |e| == n && forall i :: 0 <= i < n ==> e[i] == (first + i, Pow2(i))
  {
    seq(n, i requires 0 <= i < n => (first + i, Pow2(i)))
  }

  lemma {:induction false} PowerEntriesAt(first: nat, n: nat, c: nat)
    ensures EntryAt(PowerEntries(first, n), c) == Lifted(c, first, n)
  {
    if n > 0 {
      PowerEntriesAt(first, n - 1, c);
      assert PowerEntries(first, n)[..n - 1] == PowerEntries(first, n - 1);
    }
  }

  lemma {:induction false} PowerEntriesAre(first: nat, n: nat)
    ensures LcValid(Lc(0, PowerEntries(first, n)))
    ensures forall j :: LcAt(Lc(0, PowerEntries(first, n)), j) == Lifted(j, first + 1, n)
  {
    forall j: nat ensures LcAt(Lc(0, PowerEntries(first, n)), j) == Lifted(j, first + 1, n) {
      if j > 0 { PowerEntriesAt(first, n, j - 1); }
    }
  }

  // ---------------------------------------------------------------- whole programs

  lemma {:induction false} BoolStep(bools: seq<BoolLc>, next: nat, mRows: seq<BoolLc>, after: seq<BoolLc>, next': nat,
      mRows': seq<BoolLc>, s: Step, m: BoolMeaning, b: nat)
    requires BoolsAgree(bools, next, mRows, m, b) && (s.Bitz? ==> s.source < |bools|)
    requires s.BitzUnsigned? ==> forall i :: 0 <= i < |s.bits| ==> s.bits[i] < |bools|
    requires BoolsAgree(after, next', [], BoolAfter(m.(mRows := []), s, b).(mRows := []), b)
    requires mRows' == mRows + (if s.Bitz? then [bools[s.source]] else if s.BitzUnsigned? then Chosen(bools, s.bits) else [])
    ensures BoolsAgree(after, next', mRows', BoolAfter(m, s, b), b)
  {
    hide BoolLcAt;
  }

  /** Everything the generator holds agrees with the program at every column. */
  ghost predicate Generated(steps: seq<Step>, inputs: nat, bools: seq<BoolLc>, ints: seq<Lc>, next: nat,
      mRows: seq<BoolLc>, r1cs: seq<(Lc, Lc, Lc)>)
  {
    && (forall j :: IntsAgree(ints, r1cs, |mRows| + 1, MeaningAt(steps, j), j))
    && (forall b :: BoolsAgree(bools, next, mRows, BoolMeaningAt(steps, inputs, b), b))
  }

  lemma {:induction false} GeneratedStart(inputs: nat)
    ensures BoolLcsValid(FreshHandles(0, inputs))
    ensures Generated([], inputs, FreshHandles(0, inputs), [], inputs, [], [])
  {
    forall b: nat ensures BoolsAgree(FreshHandles(0, inputs), inputs, [], BoolMeaningAt([], inputs, b), b) {
      forall i | 0 <= i < inputs ensures BoolLcAt(FreshHandles(0, inputs)[i], b) == (b == i + 1) { FreshLc(i, b); }
    }
  }

  lemma {:induction false} GeneratedCounts(steps: seq<Step>, inputs: nat, bools: seq<BoolLc>, ints: seq<Lc>, next: nat,
      mRows: seq<BoolLc>, r1cs: seq<(Lc, Lc, Lc)>)
    requires Generated(steps, inputs, bools, ints, next, mRows, r1cs)
    ensures |ints| == Handles(steps, inputs).1 && |bools| == Handles(steps, inputs).0
    ensures |mRows| + 1 == Columns(steps) && |r1cs| == Rows(steps)
  {
    hide MeaningAt, BoolMeaningAt, Handles;
    assert IntsAgree(ints, r1cs, |mRows| + 1, MeaningAt(steps, 0), 0);
    assert BoolsAgree(bools, next, mRows, BoolMeaningAt(steps, inputs, 0), 0);
    MeaningHandles(steps, inputs, 0);
    BoolHandles(steps, inputs, 0);
  }

  lemma {:induction false} BoolHandles(steps: seq<Step>, inputs: nat, b: nat)
    ensures |BoolMeaningAt(steps, inputs, b).bits| == Handles(steps, inputs).0
    decreases |steps|
  {
    if |steps| > 0 { BoolHandles(steps[..|steps| - 1], inputs, b); }
  }

  lemma {:induction false} GeneratedStep(steps: seq<Step>, inputs: nat, i: nat, bools: seq<BoolLc>, ints: seq<Lc>, next: nat,
      mRows: seq<BoolLc>, r1cs: seq<(Lc, Lc, Lc)>, bools': seq<BoolLc>, ints': seq<Lc>, next': nat, mRows': seq<BoolLc>, r1cs': seq<(Lc, Lc, Lc)>)
    requires i < |steps| && Generated(steps[..i], inputs, bools, ints, next, mRows, r1cs)
    requires StepValid(steps[i], |bools|, |ints|)
    requires mRows' == mRows + (if steps[i].Bitz? then [bools[steps[i].source]]
                                else if steps[i].BitzUnsigned? then Chosen(bools, steps[i].bits) else [])
    requires forall m, j ::
      IntsAgree(ints, r1cs, |mRows| + 1, m, j) ==> IntsAgree(ints', r1cs', |mRows'| + 1, After(m, steps[i], j), j)
    requires forall m, b ::
      BoolsAgree(bools, next, [], m, b) ==> BoolsAgree(bools', next', [], BoolAfter(m, steps[i], b).(mRows := []), b)
    ensures Generated(steps[..i + 1], inputs, bools', ints', next', mRows', r1cs')
  {
    hide LcAt, BoolLcAt, After, BoolAfter;
    var now, columns := steps[..i + 1], |mRows'| + 1;
    assert now[..i] == steps[..i];
    forall j: nat ensures IntsAgree(ints', r1cs', columns, MeaningAt(now, j), j) {
      assert IntsAgree(ints, r1cs, |mRows| + 1, MeaningAt(steps[..i], j), j);
    }
    forall b: nat ensures BoolsAgree(bools', next', mRows', BoolMeaningAt(now, inputs, b), b) {
      var m := BoolMeaningAt(steps[..i], inputs, b);
      assert BoolsAgree(bools, next, mRows, m, b);
      assert BoolsAgree(bools, next, [], m.(mRows := []), b);
      BoolStep(bools, next, mRows, bools', next', mRows', steps[i], m, b);
    }
  }

  /** Replays a program into a fresh generator. */
  method Replay(steps: seq<Step>, inputs: nat) returns (generator: Generator, bools: seq<BoolLc>, ints: seq<Lc>)
    requires Circuits.Valid(steps, inputs)
    ensures fresh(generator) && generator.Valid() && LcsValid(ints) && BoolLcsValid(bools)
    ensures Generated(steps, inputs, bools, ints, generator.nextBoolean, generator.mRows, generator.r1cs)
  {
    hide LcAt, BoolLcAt, After, BoolAfter, Generated, LcsValid, BoolLcsValid, RowsValid, IntsAgree, BoolsAgree, MeaningAt, BoolMeaningAt;
    generator := new Generator(inputs);
    bools, ints := FreshHandles(0, inputs), [];
    GeneratedStart(inputs);
    assert steps[..0] == [];
    NoLcs();
    for i := 0 to |steps|
      invariant fresh(generator) && generator.Valid() && LcsValid(ints) && BoolLcsValid(bools)
      invariant Generated(steps[..i], inputs, bools, ints, generator.nextBoolean, generator.mRows, generator.r1cs)
    {
      ValidPrefix(steps, inputs, i);
      ghost var next, mRows, r1cs := generator.nextBoolean, generator.mRows, generator.r1cs;
      GeneratedCounts(steps[..i], inputs, bools, ints, next, mRows, r1cs);
      var ints' := generator.RunInts(ints, bools, steps[i]);
      var bools' := generator.RunBools(bools, steps[i]);
      GeneratedStep(steps, inputs, i, bools, ints, next, mRows, r1cs, bools', ints', generator.nextBoolean, generator.mRows, generator.r1cs);
      bools, ints := bools', ints';
    }
    assert steps[..|steps|] == steps;
  }

  lemma {:induction false} NoLcs()
    ensures LcsValid([])
  {
  }

  lemma {:induction false} ValidPrefix(steps: seq<Step>, inputs: nat, i: nat)
    requires Circuits.Valid(steps, inputs) && i < |steps|
    ensures StepValid(steps[i], Handles(steps[..i], inputs).0, Handles(steps[..i], inputs).1)
    decreases |steps|
  {
    var before := steps[..|steps| - 1];
    if i < |before| {
      ValidPrefix(before, inputs, i);
      assert before[..i] == steps[..i];
    }
  }

  // ---------------------------------------------------------------- the matrices

  ghost predicate IsRow(row: Entries, l: Lc) {
    Canonical(row) && forall j :: EntryAt(row, j) == LcAt(l, j)
  }

  ghost predicate IsBoolRow(row: Support, l: BoolLc) {
    Rising(row) && forall b :: b in row <==> BoolLcAt(l, b)
  }

  /** Materializes the rows; the first row of M is the implicit constant. */
  method IntoMatrices(nextBoolean: nat, mRows: seq<BoolLc>, r1cs: seq<(Lc, Lc, Lc)>) returns (matrices: Matrices)
    requires BoolLcsValid(mRows) && RowsValid(r1cs)
    ensures matrices.columns == |mRows| + 1 && matrices.mColumns == nextBoolean + 1
    ensures |matrices.m| == |mRows| + 1 && matrices.m[0] == [0]
    ensures forall i :: 0 <= i < |mRows| ==> IsBoolRow(matrices.m[i + 1], mRows[i])
    ensures |matrices.a| == |matrices.b| == |matrices.c| == |r1cs|
    ensures forall i :: 0 <= i < |r1cs| ==>
      IsRow(matrices.a[i], r1cs[i].0) && IsRow(matrices.b[i], r1cs[i].1) && IsRow(matrices.c[i], r1cs[i].2)
  {
    hide EntryAt, LcAt, BoolLcAt, Canonical;
    var m := [[0]];
    for i := 0 to |mRows|
      invariant |m| == i + 1 && m[0] == [0] && forall k :: 0 <= k < i ==> IsBoolRow(m[k + 1], mRows[k])
    {
      var row := BoolSparseRow(mRows[i]);
      m := m + [row];
    }
    var a, b, c := [], [], [];
    for i := 0 to |r1cs|
      invariant |a| == |b| == |c| == i
      invariant forall k :: 0 <= k < i ==> IsRow(a[k], r1cs[k].0) && IsRow(b[k], r1cs[k].1) && IsRow(c[k], r1cs[k].2)
    {
      var left := IntoSparseRow(r1cs[i].0);
      var right := IntoSparseRow(r1cs[i].1);
      var output := IntoSparseRow(r1cs[i].2);
      a, b, c := a + [left], b + [right], c + [output];
    }
    matrices := Matrices(m, nextBoolean + 1, a, b, c, |mRows| + 1);
  }

  /** The matrices of a program: every entry of A, B and C and every position of M is its meaning. */
  ghost predicate ForProgram(x: Matrices, steps: seq<Step>, inputs: nat) {
    && x.columns == |x.m| == Columns(steps) && |x.m| > 0 && x.m[0] == [0]
    && |x.a| == |x.b| == |x.c| == Rows(steps)
    && (forall i :: 0 <= i < Rows(steps) ==> Canonical(x.a[i]) && Canonical(x.b[i]) && Canonical(x.c[i]))
    && (forall i, j :: 0 <= i < Rows(steps) && 0 <= j ==> RowMeans(x, steps, i, j))
    && (forall i :: 0 <= i < |x.m| ==> Rising(x.m[i]))
    && (forall i, b :: 0 <= i < Columns(steps) - 1 && 0 <= b ==> BoolRowMeans(x, steps, inputs, i, b))
  }

  ghost predicate RowMeans(x: Matrices, steps: seq<Step>, i: nat, j: nat)
    requires i < |x.a| == |x.b| == |x.c|
  {
    i < |MeaningAt(steps, j).rows|
    && MeaningAt(steps, j).rows[i] == (EntryAt(x.a[i], j), EntryAt(x.b[i], j), EntryAt(x.c[i], j))
  }

  ghost predicate BoolRowMeans(x: Matrices, steps: seq<Step>, inputs: nat, i: nat, b: nat)
    requires i + 1 < |x.m|
  {
    var m := BoolMeaningAt(steps, inputs, b);
    i < |m.mRows| && x.mColumns == m.witnesses + 1 && (b in x.m[i + 1] <==> m.mRows[i])
  }

  lemma {:induction false} MatricesMean(steps: seq<Step>, inputs: nat, bools: seq<BoolLc>, ints: seq<Lc>, next: nat,
      mRows: seq<BoolLc>, r1cs: seq<(Lc, Lc, Lc)>, x: Matrices)
    requires Generated(steps, inputs, bools, ints, next, mRows, r1cs)
    requires x.columns == |mRows| + 1 && x.mColumns == next + 1 && |x.m| == |mRows| + 1 && x.m[0] == [0]
    requires forall i :: 0 <= i < |mRows| ==> IsBoolRow(x.m[i + 1], mRows[i])
    requires |x.a| == |x.b| == |x.c| == |r1cs|
    requires forall i :: 0 <= i < |r1cs| ==> IsRow(x.a[i], r1cs[i].0) && IsRow(x.b[i], r1cs[i].1) && IsRow(x.c[i], r1cs[i].2)
    ensures ForProgram(x, steps, inputs)
  {
    hide EntryAt, LcAt, BoolLcAt, Canonical, MeaningAt, BoolMeaningAt;
    GeneratedCounts(steps, inputs, bools, ints, next, mRows, r1cs);
    forall i, j: nat | 0 <= i < |r1cs| ensures RowMeans(x, steps, i, j) {
      assert IntsAgree(ints, r1cs, |mRows| + 1, MeaningAt(steps, j), j);
    }
    forall i | 0 <= i < |x.m| ensures Rising(x.m[i]) {
      if i > 0 { assert IsBoolRow(x.m[i - 1 + 1], mRows[i - 1]); }
    }
    forall i, b: nat | 0 <= i < |mRows| ensures BoolRowMeans(x, steps, inputs, i, b) {
      assert BoolsAgree(bools, next, mRows, BoolMeaningAt(steps, inputs, b), b);
      assert IsBoolRow(x.m[i + 1], mRows[i]);
    }
  }

  /** Runs a program and materializes its matrices. */
  method Materialize(steps: seq<Step>, inputs: nat) returns (matrices: Matrices)
    requires Circuits.Valid(steps, inputs)
    ensures ForProgram(matrices, steps, inputs)
  {
    hide Generated, ForProgram, IsRow, IsBoolRow;
    var generator, bools, ints := Replay(steps, inputs);
    matrices := IntoMatrices(generator.nextBoolean, generator.mRows, generator.r1cs);
    MatricesMean(steps, inputs, bools, ints, generator.nextBoolean, generator.mRows, generator.r1cs, matrices);
  }

  // ---------------------------------------------------------------- columns that do not exist

  lemma {:induction false} NothingBeyond(steps: seq<Step>, inputs: nat, j: nat)
    requires Circuits.Valid(steps, inputs) && j >= MeaningAt(steps, j).columns
    ensures forall h :: 0 <= h < |MeaningAt(steps, j).values| ==> MeaningAt(steps, j).values[h] == 0
    ensures forall i :: 0 <= i < |MeaningAt(steps, j).rows| ==> MeaningAt(steps, j).rows[i] == (0, 0, 0)
    decreases |steps|
  {
    if |steps| > 0 {
      var before := steps[..|steps| - 1];
      ColumnsGrow(before, steps[|steps| - 1], j);
      NothingBeyond(before, inputs, j);
      StepBeyond(MeaningAt(before, j), steps[|steps| - 1], j);
    }
  }

  lemma {:induction false} ColumnsGrow(before: seq<Step>, s: Step, j: nat)
    ensures MeaningAt(before, j).columns <= After(MeaningAt(before, j), s, j).columns
    ensures MeaningAt(before, j).columns > 0
    decreases |before|
  {
    if |before| > 0 { ColumnsGrow(before[..|before| - 1], before[|before| - 1], j); }
  }

  lemma {:induction false} StepBeyond(m: Meaning, s: Step, j: nat)
    requires j >= After(m, s, j).columns && j > 0 && (s.BitzUnsigned? ==> s.low <= |s.bits|)
    requires forall h :: 0 <= h < |m.values| ==> m.values[h] == 0
    requires forall i :: 0 <= i < |m.rows| ==> m.rows[i] == (0, 0, 0)
    ensures forall h :: 0 <= h < |After(m, s, j).values| ==> After(m, s, j).values[h] == 0
    ensures forall i :: 0 <= i < |After(m, s, j).rows| ==> After(m, s, j).rows[i] == (0, 0, 0)
  {
    if s.Scale? {
      var v := At(m.values, s.scaled);
      assert v == 0;
      assert v * s.factor == 0;
    }
  }

  /** Every column index of a row exists. */
  lemma {:induction false} RowsWithin(x: Matrices, steps: seq<Step>, inputs: nat, i: nat)
    requires Circuits.Valid(steps, inputs) && ForProgram(x, steps, inputs) && i < Rows(steps)
    ensures forall k :: 0 <= k < |x.a[i]| ==> x.a[i][k].0 < x.columns
    ensures forall k :: 0 <= k < |x.b[i]| ==> x.b[i][k].0 < x.columns
    ensures forall k :: 0 <= k < |x.c[i]| ==> x.c[i][k].0 < x.columns
  {
    hide EntryAt, MeaningAt;
    forall j: nat | j >= x.columns ensures EntryAt(x.a[i], j) == 0 && EntryAt(x.b[i], j) == 0 && EntryAt(x.c[i], j) == 0 {
      assert RowMeans(x, steps, i, j);
      SameShape(steps, 0, j);
      NothingBeyond(steps, inputs, j);
    }
    forall k | 0 <= k < |x.a[i]| ensures x.a[i][k].0 < x.columns { EntryUnique(x.a[i], k); }
    forall k | 0 <= k < |x.b[i]| ensures x.b[i][k].0 < x.columns { EntryUnique(x.b[i], k); }
    forall k | 0 <= k < |x.c[i]| ensures x.c[i][k].0 < x.columns { EntryUnique(x.c[i], k); }
  }
}
