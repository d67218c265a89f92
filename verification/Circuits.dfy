/** Circuit programs, and what they mean one integer-witness column at a time. Every backend runs the
    same steps over its own handles; the matrices A, B and C are the coefficients of the asserted
    rows, and a coefficient at column `j` is the value of a handle on the `j`th unit vector. */
module Circuits {
  import M = Montgomery
  import opened Powers

  datatype Step =
    | Xor(left: nat, right: nat)
    | Fixed(bit: bool)
    | Hint(count: nat)
    | Bitz(source: nat)
    | BitzUnsigned(bits: seq<nat>, low: nat, limbs: nat)
    | Constant(value: int, limbs: nat)
    | Add(x: nat, y: nat, limbs: nat)
    | Neg(operand: nat, limbs: nat)
    | Scale(scaled: nat, factor: int, limbs: nat)
    | AssertR1c(a: nat, b: nat, c: nat)

  // ---------------------------------------------------------------- which handles exist

  /** How many Boolean and integer handles a program has produced, the inputs included. */
  function Handles(steps: seq<Step>, inputs: nat): (nat, nat) {
    if |steps| == 0 then (inputs, 0)
    else
      var (bools, ints) := Handles(steps[..|steps| - 1], inputs);
      match steps[|steps| - 1]
      case Xor(_, _) | Fixed(_) => (bools + 1, ints)
      case Hint(count) => (bools + count, ints)
      case Bitz(_) | Constant(_, _) | Add(_, _, _) | Neg(_, _) | Scale(_, _, _) => (bools, ints + 1)
      case BitzUnsigned(_, _, _) => (bools, ints + 2)
      case AssertR1c(_, _, _) => (bools, ints)
  }

  predicate StepValid(s: Step, bools: nat, ints: nat) {
    match s
    case Xor(l, r) => l < bools && r < bools
    case Fixed(_) | Hint(_) | Constant(_, _) => true
    case Bitz(bit) => bit < bools
    case BitzUnsigned(bits, low, _) => low <= |bits| && forall i :: 0 <= i < |bits| ==> bits[i] < bools
    case Add(x, y, _) => x < ints && y < ints
    case Neg(x, _) => x < ints
    case Scale(x, _, _) => x < ints
    case AssertR1c(a, b, c) => a < ints && b < ints && c < ints
  }

  /** Every step uses handles produced before it. */
  predicate Valid(steps: seq<Step>, inputs: nat) {
    |steps| > 0 ==>
      var before := steps[..|steps| - 1];
      && Valid(before, inputs)
      && StepValid(steps[|steps| - 1], Handles(before, inputs).0, Handles(before, inputs).1)
  }

  // ---------------------------------------------------------------- the integer side

  /** Coefficients at one column: of each integer handle, and of the three sides of each row. */
  datatype Meaning = Meaning(values: seq<int>, columns: nat, rows: seq<(int, int, int)>)

  /** The coefficient at column `j` of `sum 2^i z[first + i]` over `n` columns. */
  function Lifted(j: nat, first: nat, n: nat): int {
    if first <= j < first + n then Pow2(j - first) else 0
  }

  function At(values: seq<int>, i: nat): int {
    if i < |values| then values[i] else 0
  }

  function After(m: Meaning, s: Step, j: nat): Meaning {
    var v := m.values;
    match s
    case Xor(_, _) | Fixed(_) | Hint(_) => m
    case Bitz(_) => m.(values := v + [Lifted(j, m.columns, 1)], columns := m.columns + 1)
    case BitzUnsigned(bits, low, _) =>
      m.(values := v + [Lifted(j, m.columns, |bits|), Lifted(j, m.columns, low)], columns := m.columns + |bits|)
    case Constant(value, _) => m.(values := v + [if j == 0 then value else 0])
    case Add(x, y, _) => m.(values := v + [At(v, x) + At(v, y)])
    case Neg(x, _) => m.(values := v + [-At(v, x)])
    case Scale(x, factor, _) => m.(values := v + [At(v, x) * factor])
    case AssertR1c(a, b, c) => m.(rows := m.rows + [(At(v, a), At(v, b), At(v, c))])
  }

  /** Column zero is the implicit constant one. */
  function MeaningAt(steps: seq<Step>, j: nat): Meaning {
    if |steps| == 0 then Meaning([], 1, [])
    else After(MeaningAt(steps[..|steps| - 1], j), steps[|steps| - 1], j)
  }

  lemma {:induction false} MeaningHandles(steps: seq<Step>, inputs: nat, j: nat)
    ensures |MeaningAt(steps, j).values| == Handles(steps, inputs).1
    decreases |steps|
  {
    if |steps| > 0 { MeaningHandles(steps[..|steps| - 1], inputs, j); }
  }

  lemma {:induction false} SameShape(steps: seq<Step>, j: nat, k: nat)
    ensures MeaningAt(steps, j).columns == MeaningAt(steps, k).columns
    ensures |MeaningAt(steps, j).rows| == |MeaningAt(steps, k).rows|
    decreases |steps|
  {
    if |steps| > 0 { SameShape(steps[..|steps| - 1], j, k); }
  }

  /** The columns and rows of a program's matrices. */
  function Columns(steps: seq<Step>): nat {
    MeaningAt(steps, 0).columns
  }

  function Rows(steps: seq<Step>): nat {
    |MeaningAt(steps, 0).rows|
  }

  /** The entry of `A + x B + x^2 C`, row by row, against a vector `r` of integers. */
  function Combined(r: seq<int>, x: int, rows: seq<(int, int, int)>): int
    requires |r| >= |rows|
  {
    if |rows| == 0 then 0
    else
      var i := |rows| - 1;
      Combined(r, x, rows[..i]) + r[i] * rows[i].0 + r[i] * x * rows[i].1 + r[i] * (x * x) * rows[i].2
  }

  /** Column `j` of `r (A + x B + x^2 C)` for the matrices of a program. */
  function ProgramColumn(steps: seq<Step>, r: seq<int>, x: int, j: nat): int {
    var rows := MeaningAt(steps, j).rows;
    if |rows| <= |r| then Combined(r, x, rows) else 0
  }

  function ProgramColumns(steps: seq<Step>, r: seq<int>, x: int): (columns: seq<int>)
    ensures |columns| == Columns(steps) && forall j :: 0 <= j < |columns| ==> columns[j] == ProgramColumn(steps, r, x, j)
  {
    seq(Columns(steps), j requires 0 <= j < Columns(steps) => ProgramColumn(steps, r, x, j))
  }

  // ---------------------------------------------------------------- the Boolean side

  /** At one Boolean column, the constant being column zero: whether each Boolean handle and each row
      of M has it. The row of the constant itself is left out. */
  datatype BoolMeaning = BoolMeaning(bits: seq<bool>, witnesses: nat, mRows: seq<bool>)

  function BitAt(bits: seq<bool>, i: nat): bool {
    i < |bits| && bits[i]
  }

  /** The handles of `n` fresh witnesses from `first` on. */
  function Witnesses(b: nat, first: nat, n: nat): (bits: seq<bool>)
    ensures |bits| == n && forall i :: 0 <= i < n ==> bits[i] == (b == first + i + 1)
  {
    seq(n, i requires 0 <= i < n => b == first + i + 1)
  }

  function Selected(bits: seq<bool>, sources: seq<nat>): (picked: seq<bool>)
    ensures |picked| == |sources| && forall i :: 0 <= i < |sources| ==> picked[i] == BitAt(bits, sources[i])
  {
    seq(|sources|, i requires 0 <= i < |sources| => BitAt(bits, sources[i]))
  }

  function BoolAfter(m: BoolMeaning, s: Step, b: nat): BoolMeaning {
    match s
    case Xor(l, r) => m.(bits := m.bits + [BitAt(m.bits, l) != BitAt(m.bits, r)])
    case Fixed(bit) => m.(bits := m.bits + [b == 0 && bit])
    case Hint(count) => m.(bits := m.bits + Witnesses(b, m.witnesses, count), witnesses := m.witnesses + count)
    case Bitz(bit) => m.(mRows := m.mRows + [BitAt(m.bits, bit)])
    case BitzUnsigned(bits, _, _) => m.(mRows := m.mRows + Selected(m.bits, bits))
    case Constant(_, _) | Add(_, _, _) | Neg(_, _) | Scale(_, _, _) | AssertR1c(_, _, _) => m
  }

  function BoolMeaningAt(steps: seq<Step>, inputs: nat, b: nat): BoolMeaning {
    if |steps| == 0 then BoolMeaning(Witnesses(b, 0, inputs), inputs, [])
    else BoolAfter(BoolMeaningAt(steps[..|steps| - 1], inputs, b), steps[|steps| - 1], b)
  }

  /** The Boolean side run on values: of the handles, and of the bits that were lifted, in order. */
  datatype BoolRun = BoolRun(bits: seq<bool>, next: nat, lifted: seq<bool>)

  /** The next witnesses. */
  function Taken(f: seq<bool>, first: nat, n: nat): (bits: seq<bool>)
    ensures |bits| == n && forall i :: 0 <= i < n ==> bits[i] == BitAt(f, first + i)
  {
    seq(n, i requires 0 <= i < n => BitAt(f, first + i))
  }

  function RunStep(r: BoolRun, s: Step, f: seq<bool>): BoolRun {
    match s
    case Xor(a, b) => r.(bits := r.bits + [BitAt(r.bits, a) != BitAt(r.bits, b)])
    case Fixed(bit) => r.(bits := r.bits + [bit])
    case Hint(count) => r.(bits := r.bits + Taken(f, r.next, count), next := r.next + count)
    case Bitz(bit) => r.(lifted := r.lifted + [BitAt(r.bits, bit)])
    case BitzUnsigned(bits, _, _) => r.(lifted := r.lifted + Selected(r.bits, bits))
    case Constant(_, _) | Add(_, _, _) | Neg(_, _) | Scale(_, _, _) | AssertR1c(_, _, _) => r
  }

  /** A program on a witness: inputs first, then every hint's bits. */
  function RunBools(steps: seq<Step>, inputs: nat, f: seq<bool>): BoolRun {
    if |steps| == 0 then BoolRun(Taken(f, 0, inputs), inputs, [])
    else RunStep(RunBools(steps[..|steps| - 1], inputs, f), steps[|steps| - 1], f)
  }

  /** A program run on a witness: the integer handles, and the three values of each asserted row. */
  datatype IntRun = IntRun(values: seq<int>, rows: seq<(int, int, int)>)

  function BitValue(bit: bool): int { if bit then 1 else 0 }

  /** The number in some bits, lowest first. */
  function PackedValue(bits: seq<bool>): int {
    if |bits| == 0 then 0 else PackedValue(bits[..|bits| - 1]) + BitValue(bits[|bits| - 1]) * Pow2(|bits| - 1)
  }

  function RunIntStep(r: IntRun, bits: seq<bool>, s: Step): IntRun {
    var v := r.values;
    match s
    case Xor(_, _) | Fixed(_) | Hint(_) => r
    case Bitz(bit) => r.(values := v + [BitValue(BitAt(bits, bit))])
    case BitzUnsigned(sources, low, _) =>
      var lifted := Selected(bits, sources);
      r.(values := v + [PackedValue(lifted), PackedValue(if low <= |lifted| then lifted[..low] else lifted)])
    case Constant(value, _) => r.(values := v + [value])
    case Add(x, y, _) => r.(values := v + [At(v, x) + At(v, y)])
    case Neg(x, _) => r.(values := v + [-At(v, x)])
    case Scale(x, factor, _) => r.(values := v + [At(v, x) * factor])
    case AssertR1c(a, b, c) => r.(rows := r.rows + [(At(v, a), At(v, b), At(v, c))])
  }

  function RunInts(steps: seq<Step>, inputs: nat, f: seq<bool>): IntRun {
    if |steps| == 0 then IntRun([], [])
    else
      var before := steps[..|steps| - 1];
      RunIntStep(RunInts(before, inputs, f), RunBools(before, inputs, f).bits, steps[|steps| - 1])
  }

  /** Every asserted row multiplies out. */
  predicate Satisfied(rows: seq<(int, int, int)>) {
    forall i :: 0 <= i < |rows| ==> rows[i].0 * rows[i].1 == rows[i].2
  }

  // ---------------------------------------------------------------- fixed-width coefficients

  /** The two's-complement value that `limbs` words keep of an integer. */
  function Wrap(limbs: nat, c: int): int {
    var m := Pow2(64 * limbs);
    (c + m / 2) % m - m / 2
  }

  predicate Fits(limbs: nat, c: int) {
    var half := Pow2(64 * limbs) / 2;
    -half <= c < half
  }

  lemma {:induction false} SmallMod(x: nat, m: nat)
    requires x < m
    ensures x % m == x
  {
  }

  lemma {:induction false} WrapFits(limbs: nat, c: int)
    requires Fits(limbs, c)
    ensures Wrap(limbs, c) == c
  {
    var m := Pow2(64 * limbs);
    if limbs > 0 {
      assert m == 2 * Pow2(64 * limbs - 1);
      SmallMod(c + m / 2, m);
    }
  }

  /** Only what fits is kept. */
  lemma {:induction false} WrapKeeps(limbs: nat, c: int)
    requires limbs > 0
    ensures Wrap(limbs, c) == c <==> Fits(limbs, c)
  {
    var m := Pow2(64 * limbs);
    assert m == 2 * Pow2(64 * limbs - 1);
    if Fits(limbs, c) { WrapFits(limbs, c); }
  }

  /** What is kept is the one value in range that is the same modulo the width. */
  lemma {:induction false} WrapInRange(limbs: nat, c: int)
    requires limbs > 0
    ensures Fits(limbs, Wrap(limbs, c)) && (Wrap(limbs, c) - c) % Pow2(64 * limbs) == 0
  {
    var m := Pow2(64 * limbs);
    assert m == 2 * Pow2(64 * limbs - 1);
    var q := (c + m / 2) / m;
    assert c + m / 2 == q * m + (c + m / 2) % m;
    M.NegTimes(q, m);
    M.MultipleMod(-q, m);
  }
}
