/** The materialized matrices on a witness: they are satisfied exactly when the program run on it is. */
module Satisfaction {
  import opened Wrappers
  import opened Powers
  import opened Circuits
  import opened LinearCombinations
  import opened ConstraintGenerator
  import MT = MTranspose
  import N = Numerals

  // ---------------------------------------------------------------- rows against a vector

  function Dot(a: seq<int>, z: seq<int>): int
    requires |a| == |z|
  {
    if |a| == 0 then 0 else Dot(a[..|a| - 1], z[..|z| - 1]) + a[|a| - 1] * z[|z| - 1]
  }

  /** The coefficients of an integer handle over the first columns. */
  ghost function Coefficients(steps: seq<Step>, h: nat, n: nat): (a: seq<int>)
    ensures |a| == n && forall j: nat :: j < n ==> a[j] == At(MeaningAt(steps, j).values, h)
  {
    seq(n, j requires 0 <= j < n => At(MeaningAt(steps, j).values, h))
  }

  lemma {:induction false} DotAdd(a: seq<int>, b: seq<int>, c: seq<int>, z: seq<int>)
    requires |a| == |b| == |c| == |z| && forall j :: 0 <= j < |a| ==> c[j] == a[j] + b[j]
    ensures Dot(c, z) == Dot(a, z) + Dot(b, z)
  {
    if |a| > 0 {
      var n := |a| - 1;
      DotAdd(a[..n], b[..n], c[..n], z[..n]);
      PlusFactor(a[n], b[n], z[n]);
    }
  }

  lemma {:induction false} PlusFactor(a: int, b: int, z: int)
    ensures (a + b) * z == a * z + b * z
  {
  }

  lemma {:induction false} DotScale(a: seq<int>, k: int, c: seq<int>, z: seq<int>)
    requires |a| == |c| == |z| && forall j :: 0 <= j < |a| ==> c[j] == a[j] * k
    ensures Dot(c, z) == Dot(a, z) * k
  {
    if |a| > 0 {
      var n := |a| - 1;
      DotScale(a[..n], k, c[..n], z[..n]);
      MovedFactor(a[n], k, z[n]);
      PlusFactor(Dot(a[..n], z[..n]), a[n] * z[n], k);
    }
  }

  lemma {:induction false} MovedFactor(a: int, k: int, z: int)
    ensures a * k * z == a * z * k
  {
  }

  lemma {:induction false} DotZero(a: seq<int>, z: seq<int>)
    requires |a| == |z| && forall j :: 0 <= j < |a| ==> a[j] == 0
    ensures Dot(a, z) == 0
  {
    if |a| > 0 { DotZero(a[..|a| - 1], z[..|z| - 1]); }
  }

  lemma {:induction false} DotSame(a: seq<int>, b: seq<int>, z: seq<int>)
    requires |a| == |b| == |z| && forall j :: 0 <= j < |a| ==> a[j] == b[j]
    ensures Dot(a, z) == Dot(b, z)
  {
    assert a == b;
  }

  // ---------------------------------------------------------------- packed bits

  /** `sum 2^i z[first + i]` over `n` columns. */
  ghost function LiftSum(z: seq<int>, first: nat, n: nat): int
    requires first + n <= |z|
  {
    if n == 0 then 0 else LiftSum(z, first, n - 1) + Pow2(n - 1) * z[first + n - 1]
  }

  ghost function LiftColumns(first: nat, n: nat, width: nat): (a: seq<int>)
    ensures |a| == width && forall j: nat :: j < width ==> a[j] == Lifted(j, first, n)
  {
    seq(width, j requires 0 <= j < width => Lifted(j, first, n))
  }

  lemma {:induction false} LiftDot(z: seq<int>, first: nat, n: nat)
    requires first + n <= |z|
    ensures Dot(LiftColumns(first, n, |z|), z) == LiftSum(z, first, n)
    decreases |z|
  {
    hide Pow2;
    var w := |z|;
    var a := LiftColumns(first, n, w);
    if w == 0 || (n == 0 && w == first) {
      DotZero(a, z);
    } else if w == first + n {
      var m := w - 1;
      LiftDot(z[..m], first, n - 1);
      DotSame(a[..m], LiftColumns(first, n - 1, m), z[..m]);
      LiftSumPrefix(z, m, first, n - 1);
    } else {
      var m := w - 1;
      LiftDot(z[..m], first, n);
      DotSame(a[..m], LiftColumns(first, n, m), z[..m]);
      LiftSumPrefix(z, m, first, n);
    }
  }

  lemma {:induction false} LiftSumPrefix(z: seq<int>, m: nat, first: nat, n: nat)
    requires first + n <= m <= |z|
    ensures LiftSum(z[..m], first, n) == LiftSum(z, first, n)
  {
    if n > 0 { LiftSumPrefix(z, m, first, n - 1); }
  }

  lemma {:induction false} LiftSumIsPacked(z: seq<int>, first: nat, bits: seq<bool>)
    requires first + |bits| <= |z| && forall i :: 0 <= i < |bits| ==> z[first + i] == BitValue(bits[i])
    ensures LiftSum(z, first, |bits|) == PackedValue(bits)
  {
    if |bits| > 0 {
      var n := |bits| - 1;
      LiftSumIsPacked(z, first, bits[..n]);
      Commuted(Pow2(n), z[first + n]);
    }
  }

  /** A packed lift is the number in its bits, lowest first. */
  lemma {:induction false} PackedIsNumber(bits: seq<bool>)
    ensures PackedValue(bits) == N.Number(bits)
  {
    if |bits| > 0 {
      var n: nat := |bits| - 1;
      PackedIsNumber(bits[..n]);
      assert bits == bits[..n] + [bits[n]];
      N.NumberConcat(bits[..n], [bits[n]]);
      assert N.Number([bits[n]]) == BitValue(bits[n]);
    }
  }

  lemma {:induction false} Commuted(x: int, y: int)
    ensures x * y == y * x
  {
  }

  // ---------------------------------------------------------------- handles on a witness

  /** The constant one and the lifted bits of a run, as integers. */
  ghost function Assignment(steps: seq<Step>, inputs: nat, f: seq<bool>): (z: seq<int>)
    ensures |z| == 1 + |RunBools(steps, inputs, f).lifted| && z[0] == 1
    ensures forall i: nat :: i + 1 < |z| ==> z[i + 1] == BitValue(RunBools(steps, inputs, f).lifted[i])
  {
    var lifted := RunBools(steps, inputs, f).lifted;
    [1] + seq(|lifted|, i requires 0 <= i < |lifted| => BitValue(lifted[i]))
  }

  /** An assignment that agrees with the bits lifted so far. */
  ghost predicate Carries(z: seq<int>, lifted: seq<bool>) {
    |z| > |lifted| && z[0] == 1 && forall i :: 0 <= i < |lifted| ==> z[i + 1] == BitValue(lifted[i])
  }

  lemma {:induction false} RunCounts(steps: seq<Step>, inputs: nat, f: seq<bool>)
    ensures |RunInts(steps, inputs, f).values| == Handles(steps, inputs).1
    ensures |RunBools(steps, inputs, f).bits| == Handles(steps, inputs).0
    ensures |RunBools(steps, inputs, f).lifted| + 1 == Columns(steps)
    ensures |RunInts(steps, inputs, f).rows| == Rows(steps)
    decreases |steps|
  {
    if |steps| > 0 { RunCounts(steps[..|steps| - 1], inputs, f); }
  }

  /** The coefficients of one handle over all columns give its value. */
  ghost predicate Means(steps: seq<Step>, inputs: nat, f: seq<bool>, z: seq<int>, h: nat) {
    Dot(Coefficients(steps, h, |z|), z) == At(RunInts(steps, inputs, f).values, h)
  }

  /** A handle keeps its coefficients and its value. */
  lemma {:induction false} OldHandle(before: seq<Step>, s: Step, inputs: nat, f: seq<bool>, z: seq<int>, h: nat)
    requires Means(before, inputs, f, z, h) && h < Handles(before, inputs).1
    ensures Means(before + [s], inputs, f, z, h)
  {
    hide Dot;
    var steps := before + [s];
    assert steps[..|before|] == before;
    RunCounts(before, inputs, f);
    forall j: nat | j < |z| ensures At(MeaningAt(steps, j).values, h) == At(MeaningAt(before, j).values, h) {
      MeaningHandles(before, inputs, j);
    }
    assert Coefficients(steps, h, |z|) == Coefficients(before, h, |z|);
  }

  /** A lift's coefficients against an assignment that carries its bits. */
  lemma {:induction false} LiftMeans(z: seq<int>, lifted: seq<bool>, bits: seq<bool>, n: nat)
    requires Carries(z, lifted + bits) && n <= |bits|
    ensures |lifted| + 1 + n <= |z| && Dot(LiftColumns(|lifted| + 1, n, |z|), z) == PackedValue(bits[..n])
  {
    hide Dot, PackedValue, LiftSum;
    var first := |lifted| + 1;
    LiftDot(z, first, n);
    forall i: nat | i < n ensures z[first + i] == BitValue(bits[..n][i]) {
      var k := |lifted| + i;
      assert (lifted + bits)[k] == bits[i];
    }
    LiftSumIsPacked(z, first, bits[..n]);
  }

  /** What a step makes of a coefficient vector, at one column. */
  lemma {:induction false} StepCoefficient(before: seq<Step>, s: Step, inputs: nat, j: nat, h: nat)
    requires h < |After(MeaningAt(before, j), s, j).values|
    ensures At(MeaningAt(before + [s], j).values, h) == After(MeaningAt(before, j), s, j).values[h]
    ensures |MeaningAt(before, j).values| == Handles(before, inputs).1 && MeaningAt(before, j).columns == Columns(before)
  {
    assert (before + [s])[..|before|] == before;
    MeaningHandles(before, inputs, j);
    SameShape(before, j, 0);
  }

  /** The handles a step makes. */
  lemma {:induction false} NewHandle(before: seq<Step>, s: Step, inputs: nat, f: seq<bool>, z: seq<int>, h: nat)
    requires StepValid(s, Handles(before, inputs).0, Handles(before, inputs).1)
    requires Handles(before, inputs).1 <= h < Handles(before + [s], inputs).1
    requires Carries(z, RunBools(before + [s], inputs, f).lifted)
    requires forall k: nat :: k < Handles(before, inputs).1 ==> Means(before, inputs, f, z, k)
    ensures Means(before + [s], inputs, f, z, h)
  {
    hide Carries, Means;
    var steps := before + [s];
    assert steps[..|before|] == before;
    match s
    case Bitz(bit) =>
      NewLift(before, s, [bit], 1, inputs, f, z, h);
    case BitzUnsigned(sources, low, _) =>
      NewLift(before, s, sources, if h == Handles(before, inputs).1 then |sources| else low, inputs, f, z, h);
    case Constant(value, limbs) => NewConstant(before, value, limbs, inputs, f, z);
    case Add(x, y, limbs) => NewSum(before, x, y, limbs, inputs, f, z);
    case Neg(x, limbs) => NewMultiple(before, s, x, -1, inputs, f, z);
    case Scale(x, factor, _) => NewMultiple(before, s, x, factor, inputs, f, z);
    case Xor(_, _) | Fixed(_) | Hint(_) | AssertR1c(_, _, _) =>
  }

  /** A lift of some bits, or of the lowest of them. */
  lemma {:induction false} NewLift(
    before: seq<Step>, s: Step, sources: seq<nat>, count: nat, inputs: nat, f: seq<bool>, z: seq<int>, h: nat
  )
    requires (s.Bitz? && sources == [s.source] && count == 1) || (s.BitzUnsigned? && sources == s.bits && s.low <= |s.bits|)
    requires var n := Handles(before, inputs).1;
      if s.Bitz? then h == n else (h == n && count == |sources|) || (h == n + 1 && count == s.low)
    requires Carries(z, RunBools(before + [s], inputs, f).lifted)
    ensures Means(before + [s], inputs, f, z, h)
  {
    hide Dot, PackedValue, Carries, MeaningAt, RunBools, RunInts;
    var bits, n := RunBools(before, inputs, f), Handles(before, inputs).1;
    RunCounts(before, inputs, f);
    StepRuns(before, s, inputs, f);
    var chosen := Selected(bits.bits, sources);
    assert s.Bitz? ==> chosen == [BitAt(bits.bits, s.source)];
    LiftMeans(z, bits.lifted, chosen, count);
    assert chosen[..|chosen|] == chosen;
    if s.Bitz? { OneBit(BitAt(bits.bits, s.source)); }
    forall j: nat | j < |z| ensures At(MeaningAt(before + [s], j).values, h) == Lifted(j, Columns(before), count) {
      MeaningHandles(before, inputs, j);
      StepCoefficient(before, s, inputs, j, h);
    }
    assert Coefficients(before + [s], h, |z|) == LiftColumns(|bits.lifted| + 1, count, |z|);
  }

  lemma {:induction false} StepRuns(before: seq<Step>, s: Step, inputs: nat, f: seq<bool>)
    ensures RunBools(before + [s], inputs, f) == RunStep(RunBools(before, inputs, f), s, f)
    ensures RunInts(before + [s], inputs, f) == RunIntStep(RunInts(before, inputs, f), RunBools(before, inputs, f).bits, s)
  {
    assert (before + [s])[..|before|] == before;
  }

  lemma {:induction false} NewConstant(before: seq<Step>, value: int, limbs: nat, inputs: nat, f: seq<bool>, z: seq<int>)
    requires Carries(z, RunBools(before + [Constant(value, limbs)], inputs, f).lifted)
    ensures Means(before + [Constant(value, limbs)], inputs, f, z, Handles(before, inputs).1)
  {
    hide Dot, MeaningAt, RunBools, RunInts;
    var s, n := Constant(value, limbs), Handles(before, inputs).1;
    RunCounts(before, inputs, f);
    StepRuns(before, s, inputs, f);
    forall j: nat | j < |z| ensures At(MeaningAt(before + [s], j).values, n) == if j == 0 then value else 0 {
      MeaningHandles(before, inputs, j);
      StepCoefficient(before, s, inputs, j, n);
    }
    ConstantDot(Coefficients(before + [s], n, |z|), value, z);
  }

  lemma {:induction false} NewSum(before: seq<Step>, x: nat, y: nat, limbs: nat, inputs: nat, f: seq<bool>, z: seq<int>)
    requires x < Handles(before, inputs).1 && y < Handles(before, inputs).1
    requires Means(before, inputs, f, z, x) && Means(before, inputs, f, z, y)
    ensures Means(before + [Add(x, y, limbs)], inputs, f, z, Handles(before, inputs).1)
  {
    hide Dot, MeaningAt, RunBools, RunInts;
    var s, n := Add(x, y, limbs), Handles(before, inputs).1;
    RunCounts(before, inputs, f);
    StepRuns(before, s, inputs, f);
    var a := Coefficients(before + [s], n, |z|);
    forall j: nat | j < |z| ensures a[j] == At(MeaningAt(before, j).values, x) + At(MeaningAt(before, j).values, y) {
      MeaningHandles(before, inputs, j);
      StepCoefficient(before, s, inputs, j, n);
    }
    DotAdd(Coefficients(before, x, |z|), Coefficients(before, y, |z|), a, z);
  }

  lemma {:induction false} NewMultiple(before: seq<Step>, s: Step, x: nat, factor: int, inputs: nat, f: seq<bool>, z: seq<int>)
    requires x < Handles(before, inputs).1 && Means(before, inputs, f, z, x)
    requires (s.Neg? && s.operand == x && factor == -1) || (s.Scale? && s.scaled == x && s.factor == factor)
    ensures Means(before + [s], inputs, f, z, Handles(before, inputs).1)
  {
    hide Dot, MeaningAt, RunBools, RunInts;
    var n := Handles(before, inputs).1;
    RunCounts(before, inputs, f);
    StepRuns(before, s, inputs, f);
    var a := Coefficients(before + [s], n, |z|);
    forall j: nat | j < |z| ensures a[j] == At(MeaningAt(before, j).values, x) * factor {
      MeaningHandles(before, inputs, j);
      StepCoefficient(before, s, inputs, j, n);
    }
    DotScale(Coefficients(before, x, |z|), factor, a, z);
  }

  lemma {:induction false} OneBit(bit: bool)
    ensures PackedValue([bit]) == BitValue(bit) && [bit][..1] == [bit]
  {
    assert [bit][..0] == [];
    assert Pow2(0) == 1;
  }

  lemma {:induction false} PrefixCarried(z: seq<int>, lifted: seq<bool>, more: seq<bool>)
    requires Carries(z, lifted + more)
    ensures Carries(z, lifted)
  {
    forall i | 0 <= i < |lifted| ensures z[i + 1] == BitValue(lifted[i]) {
      assert (lifted + more)[i] == lifted[i];
    }
  }

  lemma {:induction false} ConstantDot(a: seq<int>, value: int, z: seq<int>)
    requires |a| == |z| > 0 && z[0] == 1 && forall j :: 0 <= j < |a| ==> a[j] == if j == 0 then value else 0
    ensures Dot(a, z) == value
  {
    var n := |a| - 1;
    if n > 0 { ConstantDot(a[..n], value, z[..n]); }
  }

  lemma {:induction false} StepLifts(before: seq<Step>, s: Step, inputs: nat, f: seq<bool>) returns (more: seq<bool>)
    ensures RunBools(before + [s], inputs, f).lifted == RunBools(before, inputs, f).lifted + more
  {
    assert (before + [s])[..|before|] == before;
    var r := RunBools(before, inputs, f);
    more := match s
      case Bitz(bit) => [BitAt(r.bits, bit)]
      case BitzUnsigned(sources, _, _) => Selected(r.bits, sources)
      case Xor(_, _) | Fixed(_) | Hint(_) | Constant(_, _) | Add(_, _, _) | Neg(_, _) | Scale(_, _, _) | AssertR1c(_, _, _) => [];
  }

  /** Every handle of a program is its coefficients against any assignment that carries its lifted bits. */
  lemma {:induction false} AllMean(steps: seq<Step>, inputs: nat, f: seq<bool>, z: seq<int>)
    requires Valid(steps, inputs) && Carries(z, RunBools(steps, inputs, f).lifted)
    ensures forall h: nat :: h < Handles(steps, inputs).1 ==> Means(steps, inputs, f, z, h)
    decreases |steps|
  {
    hide Means, Carries;
    if |steps| > 0 {
      var before, s := steps[..|steps| - 1], steps[|steps| - 1];
      assert steps == before + [s];
      var more := StepLifts(before, s, inputs, f);
      PrefixCarried(z, RunBools(before, inputs, f).lifted, more);
      AllMean(before, inputs, f, z);
      forall h: nat | h < Handles(steps, inputs).1 ensures Means(steps, inputs, f, z, h) {
        if h < Handles(before, inputs).1 { OldHandle(before, s, inputs, f, z, h); } else { NewHandle(before, s, inputs, f, z, h); }
      }
    }
  }

  // ---------------------------------------------------------------- rows

  ghost function SideOf(row: (int, int, int), side: nat): int {
    if side == 0 then row.0 else if side == 1 then row.1 else row.2
  }

  /** The coefficients of one side of a row. */
  ghost function RowCoefficients(steps: seq<Step>, i: nat, side: nat, n: nat): (a: seq<int>)
    ensures |a| == n && forall j: nat :: j < n && i < |MeaningAt(steps, j).rows| ==> a[j] == SideOf(MeaningAt(steps, j).rows[i], side)
  {
    seq(n, j requires 0 <= j < n => if i < |MeaningAt(steps, j).rows| then SideOf(MeaningAt(steps, j).rows[i], side) else 0)
  }

  ghost predicate RowMeaning(steps: seq<Step>, inputs: nat, f: seq<bool>, z: seq<int>, i: nat) {
    && i < |RunInts(steps, inputs, f).rows|
    && forall side: nat :: side < 3 ==>
         Dot(RowCoefficients(steps, i, side, |z|), z) == SideOf(RunInts(steps, inputs, f).rows[i], side)
  }

  lemma {:induction false} OldRow(before: seq<Step>, s: Step, inputs: nat, f: seq<bool>, z: seq<int>, i: nat)
    requires RowMeaning(before, inputs, f, z, i) && i < Rows(before)
    ensures RowMeaning(before + [s], inputs, f, z, i)
  {
    hide Dot, SideOf;
    var steps := before + [s];
    assert steps[..|before|] == before;
    forall side: nat ensures RowCoefficients(steps, i, side, |z|) == RowCoefficients(before, i, side, |z|) {
      forall j: nat | j < |z| ensures RowCoefficients(steps, i, side, |z|)[j] == RowCoefficients(before, i, side, |z|)[j] {
        SameShape(before, j, 0);
      }
    }
  }

  lemma {:induction false} NewRow(before: seq<Step>, a: nat, b: nat, c: nat, inputs: nat, f: seq<bool>, z: seq<int>)
    requires a < Handles(before, inputs).1 && b < Handles(before, inputs).1 && c < Handles(before, inputs).1
    requires Means(before, inputs, f, z, a) && Means(before, inputs, f, z, b) && Means(before, inputs, f, z, c)
    ensures RowMeaning(before + [AssertR1c(a, b, c)], inputs, f, z, Rows(before))
  {
    hide Dot;
    var steps, i := before + [AssertR1c(a, b, c)], Rows(before);
    assert steps[..|before|] == before;
    RunCounts(before, inputs, f);
    forall j: nat ensures |MeaningAt(before, j).rows| == i { SameShape(before, j, 0); }
    assert RowCoefficients(steps, i, 0, |z|) == Coefficients(before, a, |z|);
    assert RowCoefficients(steps, i, 1, |z|) == Coefficients(before, b, |z|);
    assert RowCoefficients(steps, i, 2, |z|) == Coefficients(before, c, |z|);
  }

  lemma {:induction false} AllRowsMean(steps: seq<Step>, inputs: nat, f: seq<bool>, z: seq<int>)
    requires Valid(steps, inputs) && Carries(z, RunBools(steps, inputs, f).lifted)
    ensures forall i: nat :: i < Rows(steps) ==> RowMeaning(steps, inputs, f, z, i)
    decreases |steps|
  {
    hide Means, Carries, RowMeaning;
    if |steps| > 0 {
      var before, s := steps[..|steps| - 1], steps[|steps| - 1];
      assert steps == before + [s];
      var more := StepLifts(before, s, inputs, f);
      PrefixCarried(z, RunBools(before, inputs, f).lifted, more);
      AllRowsMean(before, inputs, f, z);
      AllMean(before, inputs, f, z);
      forall i: nat | i < Rows(steps) ensures RowMeaning(steps, inputs, f, z, i) {
        if i < Rows(before) { OldRow(before, s, inputs, f, z, i); } else { NewRow(before, s.a, s.b, s.c, inputs, f, z); }
      }
    }
  }

  // ---------------------------------------------------------------- sparse rows

  /** A sparse row against the assignment, entry by entry. */
  function EvaluateRow(row: Entries, z: seq<int>): int {
    if |row| == 0 then 0
    else
      var last := row[|row| - 1];
      EvaluateRow(row[..|row| - 1], z) + (if last.0 < |z| then z[last.0] * last.1 else 0)
  }

  ghost function EntryColumns(row: Entries, n: nat): (a: seq<int>)
    ensures |a| == n && forall j: nat :: j < n ==> a[j] == EntryAt(row, j)
  {
    seq(n, j requires 0 <= j < n => EntryAt(row, j))
  }

  lemma {:induction false} UnitDot(a: seq<int>, k: nat, value: int, z: seq<int>)
    requires |a| == |z| && forall j :: 0 <= j < |a| ==> a[j] == if j == k then value else 0
    ensures Dot(a, z) == if k < |z| then z[k] * value else 0
  {
    if |a| > 0 {
      var n := |a| - 1;
      UnitDot(a[..n], k, value, z[..n]);
      Commuted(value, z[n]);
    }
  }

  /** A sparse row is the dot product with its total coefficients. */
  lemma {:induction false} EvaluateIsDot(row: Entries, z: seq<int>)
    ensures EvaluateRow(row, z) == Dot(EntryColumns(row, |z|), z)
  {
    hide Dot, EntryAt;
    if |row| == 0 {
      NoEntry(row);
      DotZero(EntryColumns(row, |z|), z);
    } else {
      var n := |row| - 1;
      var last := row[n];
      EvaluateIsDot(row[..n], z);
      var unit := seq(|z|, j requires 0 <= j < |z| => if j == last.0 then last.1 else 0);
      UnitDot(unit, last.0, last.1, z);
      forall j: nat | j < |z| ensures EntryColumns(row, |z|)[j] == EntryColumns(row[..n], |z|)[j] + unit[j] {
        EntryNext(row, n, j);
        assert row[..n + 1] == row;
      }
      DotAdd(EntryColumns(row[..n], |z|), unit, EntryColumns(row, |z|), z);
    }
  }

  method EvaluateIntegerRow(row: Entries, z: seq<int>) returns (value: int)
    requires forall k :: 0 <= k < |row| ==> row[k].0 < |z|
    ensures value == EvaluateRow(row, z)
  {
    value := 0;
    for k := 0 to |row|
      invariant value == EvaluateRow(row[..k], z)
    {
      assert row[..k + 1][..k] == row[..k];
      value := value + z[row[k].0] * row[k].1;
    }
    assert row[..|row|] == row;
  }

  // ---------------------------------------------------------------- the Boolean rows

  /** The sum over two elements of the products. */
  ghost function XorDot(a: seq<bool>, x: seq<bool>): bool
    requires |a| == |x|
  {
    |a| > 0 && (XorDot(a[..|a| - 1], x[..|x| - 1]) != (a[|a| - 1] && x[|x| - 1]))
  }

  lemma {:induction false} XorDotAdd(a: seq<bool>, b: seq<bool>, c: seq<bool>, x: seq<bool>)
    requires |a| == |b| == |c| == |x| && forall j :: 0 <= j < |a| ==> c[j] == (a[j] != b[j])
    ensures XorDot(c, x) == (XorDot(a, x) != XorDot(b, x))
  {
    if |a| > 0 {
      var n := |a| - 1;
      XorDotAdd(a[..n], b[..n], c[..n], x[..n]);
    }
  }

  lemma {:induction false} XorDotUnit(a: seq<bool>, k: nat, x: seq<bool>)
    requires |a| == |x| && forall j :: 0 <= j < |a| ==> a[j] == (j == k)
    ensures XorDot(a, x) == (k < |x| && x[k])
  {
    if |a| > 0 {
      var n := |a| - 1;
      if k == n { XorDotNothing(a[..n], x[..n]); } else { XorDotUnit(a[..n], k, x[..n]); }
    }
  }

  lemma {:induction false} XorDotNothing(a: seq<bool>, x: seq<bool>)
    requires |a| == |x| && forall j :: 0 <= j < |a| ==> !a[j]
    ensures !XorDot(a, x)
  {
    if |a| > 0 { XorDotNothing(a[..|a| - 1], x[..|x| - 1]); }
  }

  ghost function Members(row: Support, n: nat): (a: seq<bool>)
    ensures |a| == n && forall b: nat :: b < n ==> a[b] == (b in row)
  {
    seq(n, b requires 0 <= b < n => b in row)
  }

  lemma {:induction false} RowBitIsXorDot(row: Support, x: seq<bool>)
    requires Rising(row)
    ensures MT.RowBit(row, x) == XorDot(Members(row, |x|), x)
  {
    hide XorDot;
    if |row| == 0 {
      XorDotNothing(Members(row, |x|), x);
    } else {
      var k := |row| - 1;
      RowBitIsXorDot(row[..k], x);
      var unit := Members([row[k]], |x|);
      XorDotUnit(unit, row[k], x);
      assert row == row[..k] + [row[k]];
      assert row[k] !in row[..k];
      XorDotAdd(Members(row[..k], |x|), unit, Members(row, |x|), x);
    }
  }

  ghost function BitColumns(steps: seq<Step>, inputs: nat, h: nat, n: nat): (a: seq<bool>)
    ensures |a| == n && forall b: nat :: b < n ==> a[b] == BitAt(BoolMeaningAt(steps, inputs, b).bits, h)
  {
    seq(n, b requires 0 <= b < n => BitAt(BoolMeaningAt(steps, inputs, b).bits, h))
  }

  ghost predicate BitMeans(steps: seq<Step>, inputs: nat, f: seq<bool>, h: nat) {
    XorDot(BitColumns(steps, inputs, h, |f| + 1), [true] + f) == BitAt(RunBools(steps, inputs, f).bits, h)
  }

  lemma {:induction false} BoolStepCoefficient(before: seq<Step>, s: Step, inputs: nat, f: seq<bool>, b: nat)
    ensures BoolMeaningAt(before + [s], inputs, b) == BoolAfter(BoolMeaningAt(before, inputs, b), s, b)
    ensures |BoolMeaningAt(before, inputs, b).bits| == Handles(before, inputs).0 == |RunBools(before, inputs, f).bits|
    ensures BoolMeaningAt(before, inputs, b).witnesses == RunBools(before, inputs, f).next
    ensures |BoolMeaningAt(before, inputs, b).mRows| == |RunBools(before, inputs, f).lifted|
  {
    assert (before + [s])[..|before|] == before;
    BoolHandles(before, inputs, b);
    RunCounts(before, inputs, f);
    NextWitness(before, inputs, f, b);
  }

  lemma {:induction false} NextWitness(steps: seq<Step>, inputs: nat, f: seq<bool>, b: nat)
    ensures BoolMeaningAt(steps, inputs, b).witnesses == RunBools(steps, inputs, f).next
    ensures |BoolMeaningAt(steps, inputs, b).mRows| == |RunBools(steps, inputs, f).lifted|
    decreases |steps|
  {
    if |steps| > 0 { NextWitness(steps[..|steps| - 1], inputs, f, b); }
  }

  /** A handle at a fresh witness reads that bit. */
  lemma {:induction false} FreshMeans(a: seq<bool>, f: seq<bool>, first: nat)
    requires |a| == |f| + 1 && forall b: nat :: b < |a| ==> a[b] == (b == first + 1)
    ensures XorDot(a, [true] + f) == BitAt(f, first)
  {
    XorDotUnit(a, first + 1, [true] + f);
  }

  lemma {:induction false} InputBits(inputs: nat, f: seq<bool>, h: nat)
    requires h < inputs
    ensures BitMeans([], inputs, f, h)
  {
    hide XorDot;
    FreshMeans(BitColumns([], inputs, h, |f| + 1), f, h);
  }

  lemma {:induction false} OldBit(before: seq<Step>, s: Step, inputs: nat, f: seq<bool>, h: nat)
    requires h < Handles(before, inputs).0 && BitMeans(before, inputs, f, h)
    ensures BitMeans(before + [s], inputs, f, h)
  {
    hide XorDot, BoolMeaningAt, RunBools;
    StepRuns(before, s, inputs, f);
    BoolStepCoefficient(before, s, inputs, f, 0);
    forall b: nat ensures BitAt(BoolMeaningAt(before + [s], inputs, b).bits, h) == BitAt(BoolMeaningAt(before, inputs, b).bits, h) {
      BoolStepCoefficient(before, s, inputs, f, b);
    }
    assert BitColumns(before + [s], inputs, h, |f| + 1) == BitColumns(before, inputs, h, |f| + 1);
  }

  lemma {:induction false} NewBit(before: seq<Step>, s: Step, inputs: nat, f: seq<bool>, h: nat)
    requires StepValid(s, Handles(before, inputs).0, Handles(before, inputs).1)
    requires Handles(before, inputs).0 <= h < Handles(before + [s], inputs).0
    requires forall k: nat :: k < Handles(before, inputs).0 ==> BitMeans(before, inputs, f, k)
    ensures BitMeans(before + [s], inputs, f, h)
  {
    NewCount(before, s, inputs);
    hide BitMeans, Handles;
    match s
    case Xor(l, r) => NewXor(before, l, r, inputs, f);
    case Fixed(bit) => NewFixed(before, bit, inputs, f);
    case Hint(count) => NewHint(before, count, inputs, f, h - Handles(before, inputs).0);
    case Bitz(_) | BitzUnsigned(_, _, _) | Constant(_, _) | Add(_, _, _) | Neg(_, _) | Scale(_, _, _) | AssertR1c(_, _, _) =>
  }

  lemma {:induction false} NewCount(before: seq<Step>, s: Step, inputs: nat)
    ensures Handles(before + [s], inputs).0
      == Handles(before, inputs).0 + (if s.Xor? || s.Fixed? then 1 else if s.Hint? then s.count else 0)
  {
    assert (before + [s])[..|before|] == before;
  }

  lemma {:induction false} NewXor(before: seq<Step>, l: nat, r: nat, inputs: nat, f: seq<bool>)
    requires l < Handles(before, inputs).0 && r < Handles(before, inputs).0
    requires BitMeans(before, inputs, f, l) && BitMeans(before, inputs, f, r)
    ensures BitMeans(before + [Xor(l, r)], inputs, f, Handles(before, inputs).0)
  {
    hide XorDot, BoolMeaningAt, RunBools;
    var s, n, w := Xor(l, r), Handles(before, inputs).0, |f| + 1;
    StepRuns(before, s, inputs, f);
    BoolStepCoefficient(before, s, inputs, f, 0);
    forall b: nat | b < w
      ensures BitColumns(before + [s], inputs, n, w)[b] == (BitColumns(before, inputs, l, w)[b] != BitColumns(before, inputs, r, w)[b])
    {
      BoolStepCoefficient(before, s, inputs, f, b);
    }
    XorDotAdd(BitColumns(before, inputs, l, w), BitColumns(before, inputs, r, w), BitColumns(before + [s], inputs, n, w), [true] + f);
  }

  lemma {:induction false} NewFixed(before: seq<Step>, bit: bool, inputs: nat, f: seq<bool>)
    ensures BitMeans(before + [Fixed(bit)], inputs, f, Handles(before, inputs).0)
  {
    hide XorDot, BoolMeaningAt, RunBools;
    var s, n, w := Fixed(bit), Handles(before, inputs).0, |f| + 1;
    StepRuns(before, s, inputs, f);
    BoolStepCoefficient(before, s, inputs, f, 0);
    var a := BitColumns(before + [s], inputs, n, w);
    forall b: nat | b < w ensures a[b] == (b == 0 && bit) { BoolStepCoefficient(before, s, inputs, f, b); }
    if bit { XorDotUnit(a, 0, [true] + f); } else { XorDotNothing(a, [true] + f); }
  }

  lemma {:induction false} NewHint(before: seq<Step>, count: nat, inputs: nat, f: seq<bool>, i: nat)
    requires i < count
    ensures BitMeans(before + [Hint(count)], inputs, f, Handles(before, inputs).0 + i)
  {
    hide XorDot, BoolMeaningAt, RunBools;
    var s, n, w := Hint(count), Handles(before, inputs).0 + i, |f| + 1;
    StepRuns(before, s, inputs, f);
    BoolStepCoefficient(before, s, inputs, f, 0);
    var first := RunBools(before, inputs, f).next;
    var a := BitColumns(before + [s], inputs, n, w);
    forall b: nat | b < w ensures a[b] == (b == first + i + 1) { BoolStepCoefficient(before, s, inputs, f, b); }
    FreshMeans(a, f, first + i);
  }

  lemma {:induction false} AllBitsMean(steps: seq<Step>, inputs: nat, f: seq<bool>)
    requires Valid(steps, inputs)
    ensures forall h: nat :: h < Handles(steps, inputs).0 ==> BitMeans(steps, inputs, f, h)
    decreases |steps|
  {
    hide BitMeans;
    if |steps| == 0 {
      assert steps == [];
      forall h: nat | h < inputs ensures BitMeans(steps, inputs, f, h) { InputBits(inputs, f, h); }
    } else {
      var before, s := steps[..|steps| - 1], steps[|steps| - 1];
      assert steps == before + [s];
      AllBitsMean(before, inputs, f);
      forall h: nat | h < Handles(steps, inputs).0 ensures BitMeans(steps, inputs, f, h) {
        if h < Handles(before, inputs).0 { OldBit(before, s, inputs, f, h); } else { NewBit(before, s, inputs, f, h); }
      }
    }
  }

  ghost function RowBits(steps: seq<Step>, inputs: nat, i: nat, n: nat): (a: seq<bool>)
    ensures |a| == n && forall b: nat :: b < n ==> a[b] == BitAt(BoolMeaningAt(steps, inputs, b).mRows, i)
  {
    seq(n, b requires 0 <= b < n => BitAt(BoolMeaningAt(steps, inputs, b).mRows, i))
  }

  lemma {:induction false} OldRowBits(before: seq<Step>, s: Step, inputs: nat, f: seq<bool>, i: nat, n: nat)
    requires i < |RunBools(before, inputs, f).lifted|
    ensures RowBits(before + [s], inputs, i, n) == RowBits(before, inputs, i, n)
  {
    hide BoolMeaningAt, RunBools, Selected;
    forall b: nat | b < n ensures RowBits(before + [s], inputs, i, n)[b] == RowBits(before, inputs, i, n)[b] {
      BoolStepCoefficient(before, s, inputs, f, b);
    }
  }

  /** A new row of M lists the columns of the handle it lifts. */
  lemma {:induction false} NewRowBits(before: seq<Step>, s: Step, inputs: nat, f: seq<bool>, i: nat, n: nat, h: nat)
    requires s.Bitz? || s.BitzUnsigned?
    requires var first := |RunBools(before, inputs, f).lifted|;
      if s.Bitz? then i == first && h == s.source else first <= i < first + |s.bits| && h == s.bits[i - first]
    ensures RowBits(before + [s], inputs, i, n) == BitColumns(before, inputs, h, n)
  {
    hide BoolMeaningAt, RunBools;
    forall b: nat | b < n ensures RowBits(before + [s], inputs, i, n)[b] == BitColumns(before, inputs, h, n)[b] {
      BoolStepCoefficient(before, s, inputs, f, b);
    }
  }

  /** Every row of M gives the bit the run lifts. */
  lemma {:induction false} AllRowsLift(steps: seq<Step>, inputs: nat, f: seq<bool>, i: nat)
    requires Valid(steps, inputs) && i < |RunBools(steps, inputs, f).lifted|
    ensures XorDot(RowBits(steps, inputs, i, |f| + 1), [true] + f) == RunBools(steps, inputs, f).lifted[i]
    decreases |steps|
  {
    var before, s, w := steps[..|steps| - 1], steps[|steps| - 1], |f| + 1;
    assert steps == before + [s];
    var run := RunBools(before, inputs, f);
    StepRuns(before, s, inputs, f);
    hide XorDot, BoolMeaningAt, RunBools, RowBits;
    if i < |run.lifted| {
      AllRowsLift(before, inputs, f, i);
      OldRowBits(before, s, inputs, f, i, w);
    } else {
      NewRowLifts(before, s, inputs, f, i);
    }
  }

  /** A row the last step adds. */
  lemma {:induction false} NewRowLifts(before: seq<Step>, s: Step, inputs: nat, f: seq<bool>, i: nat)
    requires Valid(before, inputs) && StepValid(s, Handles(before, inputs).0, Handles(before, inputs).1)
    requires |RunBools(before, inputs, f).lifted| <= i < |RunStep(RunBools(before, inputs, f), s, f).lifted|
    ensures XorDot(RowBits(before + [s], inputs, i, |f| + 1), [true] + f) == RunStep(RunBools(before, inputs, f), s, f).lifted[i]
  {
    hide XorDot, BoolMeaningAt, RunBools, RowBits, Valid;
    var first, w := |RunBools(before, inputs, f).lifted|, |f| + 1;
    var h := if s.Bitz? then s.source else s.bits[i - first];
    AllBitsMean(before, inputs, f);
    assert BitMeans(before, inputs, f, h);
    NewRowBits(before, s, inputs, f, i, w, h);
  }

  // ---------------------------------------------------------------- checking a witness

  datatype SatisfactionError =
    | InvalidShape
    | WitnessLength(expected: nat, actual: nat)
    | Constraint(row: nat)

  /** One row of M: the sum over two elements of the constant and the witness bits it lists. */
  method ApplyRow(row: Support, f: seq<bool>) returns (value: bool)
    requires forall k :: 0 <= k < |row| ==> row[k] < |f| + 1
    ensures value == MT.RowBit(row, [true] + f)
  {
    value := false;
    for k := 0 to |row|
      invariant value == MT.RowBit(row[..k], [true] + f)
    {
      assert row[..k + 1][..k] == row[..k];
      value := value != (if row[k] == 0 then true else f[row[k] - 1]);
    }
    assert row[..|row|] == row;
  }

  /** No row of M lists a column that does not exist. */
  lemma {:induction false} MRowsWithin(x: Matrices, steps: seq<Step>, inputs: nat, i: nat)
    requires Valid(steps, inputs) && ForProgram(x, steps, inputs) && i < |x.m| && x.mColumns > 0
    ensures forall k :: 0 <= k < |x.m[i]| ==> x.m[i][k] < x.mColumns
  {
    hide BoolMeaningAt, MeaningAt, EntryAt, RowMeans;
    if i > 0 {
      forall k | 0 <= k < |x.m[i]| ensures x.m[i][k] < x.mColumns {
        var b := x.m[i][k];
        assert BoolRowMeans(x, steps, inputs, i - 1, b);
        if b >= x.mColumns { NoBitsBeyond(steps, inputs, b); }
      }
    }
  }

  lemma {:induction false} NoBitsBeyond(steps: seq<Step>, inputs: nat, b: nat)
    requires Valid(steps, inputs) && b > BoolMeaningAt(steps, inputs, b).witnesses
    ensures forall h :: 0 <= h < |BoolMeaningAt(steps, inputs, b).bits| ==> !BoolMeaningAt(steps, inputs, b).bits[h]
    ensures forall i :: 0 <= i < |BoolMeaningAt(steps, inputs, b).mRows| ==> !BoolMeaningAt(steps, inputs, b).mRows[i]
    decreases |steps|
  {
    if |steps| > 0 { NoBitsBeyond(steps[..|steps| - 1], inputs, b); }
  }

  /** The constant one and a bit per row of M, or an error when the witness has the wrong length. */
  method IntegerWitness(x: Matrices, f: seq<bool>, ghost steps: seq<Step>, ghost inputs: nat)
      returns (z: Result<seq<int>, SatisfactionError>)
    requires Valid(steps, inputs) && ForProgram(x, steps, inputs) && x.mColumns > 0
    ensures |f| != x.mColumns - 1 ==> z == Err(WitnessLength(x.mColumns - 1, |f|))
    ensures |f| == x.mColumns - 1 ==> z == Ok(Assignment(steps, inputs, f))
  {
    hide BoolMeaningAt, MeaningAt, EntryAt, RowMeans, BoolRowMeans, RunBools;
    if |f| != x.mColumns - 1 { return Err(WitnessLength(x.mColumns - 1, |f|)); }
    var values := [];
    RunCounts(steps, inputs, f);
    for i: nat := 0 to |x.m|
      invariant |values| == i && forall k: nat :: k < i ==> values[k] == Assignment(steps, inputs, f)[k]
    {
      MRowsWithin(x, steps, inputs, i);
      var bit := ApplyRow(x.m[i], f);
      RowIsBit(x, steps, inputs, f, i);
      values := values + [if bit then 1 else 0];
    }
    assert values == Assignment(steps, inputs, f);
    return Ok(values);
  }

  lemma {:induction false} RowIsBit(x: Matrices, steps: seq<Step>, inputs: nat, f: seq<bool>, i: nat)
    requires Valid(steps, inputs) && ForProgram(x, steps, inputs) && i < |x.m|
    ensures |x.m| == |Assignment(steps, inputs, f)|
    ensures BitValue(MT.RowBit(x.m[i], [true] + f)) == Assignment(steps, inputs, f)[i]
  {
    hide BoolMeaningAt, MeaningAt, EntryAt, RowMeans, RunBools, XorDot, MT.RowBit;
    RunCounts(steps, inputs, f);
    RowBitIsXorDot(x.m[i], [true] + f);
    if i == 0 {
      XorDotUnit(Members([0], |f| + 1), 0, [true] + f);
    } else {
      AllRowsLift(steps, inputs, f, i - 1);
      var members, bits, w := Members(x.m[i], |f| + 1), RowBits(steps, inputs, i - 1, |f| + 1), |f| + 1;
      forall b: nat | b < w ensures members[b] == bits[b] {
        assert BoolRowMeans(x, steps, inputs, i - 1, b);
      }
      assert members == bits;
    }
  }

  lemma {:induction false} AssignmentCarries(steps: seq<Step>, inputs: nat, f: seq<bool>)
    ensures Carries(Assignment(steps, inputs, f), RunBools(steps, inputs, f).lifted)
  {
  }

  /** The three evaluated sides of a row are those of the run. */
  lemma {:induction false} SidesAreRun(x: Matrices, steps: seq<Step>, inputs: nat, f: seq<bool>, i: nat)
    requires Valid(steps, inputs) && ForProgram(x, steps, inputs) && i < Rows(steps)
    ensures i < |RunInts(steps, inputs, f).rows|
    ensures var z, row := Assignment(steps, inputs, f), RunInts(steps, inputs, f).rows[i];
      && EvaluateRow(x.a[i], z) == row.0 && EvaluateRow(x.b[i], z) == row.1 && EvaluateRow(x.c[i], z) == row.2
  {
    hide BoolMeaningAt, MeaningAt, EntryAt, BoolRowMeans, RunBools, RunInts, Dot, EvaluateRow, Carries, Assignment;
    var z := Assignment(steps, inputs, f);
    AssignmentCarries(steps, inputs, f);
    AllRowsMean(steps, inputs, f, z);
    assert RowMeaning(steps, inputs, f, z, i);
    EvaluateIsDot(x.a[i], z);
    EvaluateIsDot(x.b[i], z);
    EvaluateIsDot(x.c[i], z);
    ColumnsOfRow(x, steps, inputs, i, |z|);
  }

  lemma {:induction false} ColumnsOfRow(x: Matrices, steps: seq<Step>, inputs: nat, i: nat, n: nat)
    requires ForProgram(x, steps, inputs) && i < Rows(steps)
    ensures EntryColumns(x.a[i], n) == RowCoefficients(steps, i, 0, n)
    ensures EntryColumns(x.b[i], n) == RowCoefficients(steps, i, 1, n)
    ensures EntryColumns(x.c[i], n) == RowCoefficients(steps, i, 2, n)
  {
    hide BoolMeaningAt, MeaningAt, EntryAt, BoolRowMeans;
    var a, b, c := EntryColumns(x.a[i], n), EntryColumns(x.b[i], n), EntryColumns(x.c[i], n);
    forall j: nat | j < n
      ensures a[j] == RowCoefficients(steps, i, 0, n)[j]
      ensures b[j] == RowCoefficients(steps, i, 1, n)[j] && c[j] == RowCoefficients(steps, i, 2, n)[j]
    {
      assert RowMeans(x, steps, i, j);
    }
  }

  /** A, B and C have as many rows as each other, and as many columns as M has rows. */
  method ValidateShape(x: Matrices) returns (valid: bool)
    ensures valid <==> |x.a| == |x.b| == |x.c| && |x.m| == x.columns
  {
    if |x.a| != |x.b| || |x.a| != |x.c| { return false; }
    return |x.m| == x.columns;
  }

  /** The index of the first row of a run that does not multiply out. */
  ghost predicate FirstFailure(rows: seq<(int, int, int)>, i: nat) {
    && i < |rows| && rows[i].0 * rows[i].1 != rows[i].2
    && Satisfied(rows[..i])
  }

  /** Checks every row: the materialized system of a program accepts a witness exactly when the program
      run on it satisfies every assertion, and otherwise names the first that fails. */
  method CheckWitness(x: Matrices, f: seq<bool>, ghost steps: seq<Step>, ghost inputs: nat)
      returns (result: Result<(), SatisfactionError>)
    requires Valid(steps, inputs) && ForProgram(x, steps, inputs) && x.mColumns > 0
    ensures |f| != x.mColumns - 1 ==> result == Err(WitnessLength(x.mColumns - 1, |f|))
    ensures |f| == x.mColumns - 1 ==> (result == Ok(()) <==> Satisfied(RunInts(steps, inputs, f).rows))
    ensures |f| == x.mColumns - 1 && result.Err? ==>
      result.error.Constraint? && FirstFailure(RunInts(steps, inputs, f).rows, result.error.row)
  {
    hide BoolMeaningAt, MeaningAt, EntryAt, BoolRowMeans, RowMeans, RunBools, RunInts, EvaluateRow, Canonical;
    var valid := ValidateShape(x);
    if !valid { return Err(InvalidShape); }
    var assignment := IntegerWitness(x, f, steps, inputs);
    if assignment.Err? { return Err(assignment.error); }
    var z := assignment.value;
    RunCounts(steps, inputs, f);
    for row: nat := 0 to |x.a|
      invariant row <= |RunInts(steps, inputs, f).rows| && Satisfied(RunInts(steps, inputs, f).rows[..row])
    {
      RowsWithin(x, steps, inputs, row);
      var a := EvaluateIntegerRow(x.a[row], z);
      var b := EvaluateIntegerRow(x.b[row], z);
      var c := EvaluateIntegerRow(x.c[row], z);
      SidesAreRun(x, steps, inputs, f, row);
      if a * b != c { return Err(Constraint(row)); }
      OneMoreSatisfied(RunInts(steps, inputs, f).rows, row);
    }
    assert RunInts(steps, inputs, f).rows[..|x.a|] == RunInts(steps, inputs, f).rows;
    return Ok(());
  }

  lemma {:induction false} OneMoreSatisfied(rows: seq<(int, int, int)>, i: nat)
    requires i < |rows| && Satisfied(rows[..i]) && rows[i].0 * rows[i].1 == rows[i].2
    ensures Satisfied(rows[..i + 1])
  {
    var after, n := rows[..i + 1], i + 1;
    forall k | 0 <= k < n ensures after[k].0 * after[k].1 == after[k].2 {
      if k < i { assert rows[..i][k] == rows[k]; }
    }
  }
}
