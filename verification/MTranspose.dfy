/** The backend that stores M by columns: Boolean expressions as sorted supports in an arena, rows as
    they are lifted, and a counting sort at the end. */
module MTranspose {
  import opened FiniteField
  import opened Circuits
  import opened LinearCombinations
  import CG = ConstraintGenerator

  // ---------------------------------------------------------------- segments of an arena

  /** Offsets cut the entries into consecutive segments. */
  ghost predicate Segmented(offsets: seq<nat>, entries: seq<nat>) {
    && |offsets| > 0 && offsets[0] == 0 && offsets[|offsets| - 1] == |entries|
    && forall i, k :: 0 <= i <= k < |offsets| ==> offsets[i] <= offsets[k] <= |entries|
  }

  function Segment(offsets: seq<nat>, entries: seq<nat>, i: nat): Support {
    if i + 1 < |offsets| && offsets[i] <= offsets[i + 1] <= |entries| then entries[offsets[i]..offsets[i + 1]] else []
  }

  /** All segments in order. */
  function Segments(offsets: seq<nat>, entries: seq<nat>): (rows: seq<Support>)
    requires |offsets| > 0
    ensures |rows| == |offsets| - 1 && forall i :: 0 <= i < |rows| ==> rows[i] == Segment(offsets, entries, i)
  {
    seq(|offsets| - 1, i requires 0 <= i < |offsets| - 1 => Segment(offsets, entries, i))
  }

  /** Appending a segment keeps the others. */
  lemma {:induction false} AppendSegment(offsets: seq<nat>, entries: seq<nat>, s: Support)
    requires Segmented(offsets, entries)
    ensures Segmented(offsets + [|entries| + |s|], entries + s)
    ensures Segments(offsets + [|entries| + |s|], entries + s) == Segments(offsets, entries) + [s]
  {
    var offsets', entries' := offsets + [|entries| + |s|], entries + s;
    forall i: nat | i + 1 < |offsets| ensures Segment(offsets', entries', i) == Segment(offsets, entries, i) {
      assert entries'[offsets[i]..offsets[i + 1]] == entries[offsets[i]..offsets[i + 1]];
    }
    assert Segment(offsets', entries', |offsets| - 1) == s;
  }

  // ---------------------------------------------------------------- expressions

  const INLINE: nat := 4
  const ARENA: nat := 255

  /** A Boolean expression: at most four columns inline, or the index of a segment. */
  datatype MatrixBit = MatrixBit(constantTerm: bool, supportLen: nat, support: seq<nat>)

  function ConstantBit(value: bool): MatrixBit {
    MatrixBit(value, if value then 1 else 0, [0, 0, 0, 0])
  }

  function WitnessBit(index: nat): MatrixBit {
    MatrixBit(false, 1, [index + 1, 0, 0, 0])
  }

  function InlineBit(support: Support): MatrixBit
    requires |support| <= INLINE
  {
    MatrixBit(|support| > 0 && support[0] == 0, |support|,
      seq(INLINE, i requires 0 <= i < INLINE => if i < |support| then support[i] else 0))
  }

  function ArenaBit(support: Support, expression: nat): MatrixBit {
    MatrixBit(|support| > 0 && support[0] == 0, ARENA, [expression, 0, 0, 0])
  }

  function SupportOf(offsets: seq<nat>, entries: seq<nat>, bit: MatrixBit): Support {
    if bit.supportLen == ARENA then (if |bit.support| > 0 then Segment(offsets, entries, bit.support[0]) else [])
    else if bit.supportLen <= |bit.support| then bit.support[..bit.supportLen] else []
  }

  /** A bit of a recorder: its support is sorted, of existing columns, and its constant term says
      whether column zero is in it. */
  ghost predicate BitGood(offsets: seq<nat>, entries: seq<nat>, columns: nat, bit: MatrixBit) {
    && |bit.support| == INLINE && (bit.supportLen != ARENA ==> bit.supportLen <= INLINE)
    && (bit.supportLen == ARENA ==> bit.support[0] + 1 < |offsets|)
    && Within(SupportOf(offsets, entries, bit), columns)
    && (bit.constantTerm <==> 0 in SupportOf(offsets, entries, bit))
  }

  ghost predicate Within(s: Support, columns: nat) {
    Rising(s) && forall i :: 0 <= i < |s| ==> s[i] < columns
  }

  ghost predicate BitsGood(offsets: seq<nat>, entries: seq<nat>, columns: nat, bits: seq<MatrixBit>) {
    forall h :: 0 <= h < |bits| ==> BitGood(offsets, entries, columns, bits[h])
  }

  ghost predicate AllWithin(rows: seq<Support>, columns: nat) {
    forall i :: 0 <= i < |rows| ==> Within(rows[i], columns)
  }

  /** A sorted support's first entry decides whether it has the constant. */
  lemma {:induction false} FirstEntry(s: Support)
    requires Rising(s)
    ensures (|s| > 0 && s[0] == 0) <==> 0 in s
  {
  }

  lemma {:induction false} ConstantGood(offsets: seq<nat>, entries: seq<nat>, columns: nat, value: bool)
    requires columns > 0
    ensures BitGood(offsets, entries, columns, ConstantBit(value))
    ensures SupportOf(offsets, entries, ConstantBit(value)) == if value then [0] else []
  {
    var s := SupportOf(offsets, entries, ConstantBit(value));
    assert s == if value then [0] else [];
  }

  lemma {:induction false} WitnessGood(offsets: seq<nat>, entries: seq<nat>, columns: nat, index: nat)
    requires index + 1 < columns
    ensures BitGood(offsets, entries, columns, WitnessBit(index))
    ensures SupportOf(offsets, entries, WitnessBit(index)) == [index + 1]
  {
    assert SupportOf(offsets, entries, WitnessBit(index)) == [index + 1];
  }

  lemma {:induction false} InlineGood(offsets: seq<nat>, entries: seq<nat>, columns: nat, s: Support)
    requires |s| <= INLINE && Within(s, columns)
    ensures BitGood(offsets, entries, columns, InlineBit(s)) && SupportOf(offsets, entries, InlineBit(s)) == s
  {
    hide Segment;
    FirstEntry(s);
    assert InlineBit(s).support[..|s|] == s;
  }

  lemma {:induction false} ArenaGood(offsets: seq<nat>, entries: seq<nat>, columns: nat, s: Support)
    requires Segmented(offsets, entries) && Within(s, columns)
    ensures var bit := ArenaBit(s, |offsets| - 1);
      && BitGood(offsets + [|entries| + |s|], entries + s, columns, bit)
      && SupportOf(offsets + [|entries| + |s|], entries + s, bit) == s
  {
    hide Segment;
    FirstEntry(s);
    AppendSegment(offsets, entries, s);
    var offsets', entries' := offsets + [|entries| + |s|], entries + s;
    assert Segments(offsets', entries')[|offsets| - 1] == s;
  }

  /** Growing the arena and the columns keeps every bit. */
  lemma {:induction false} BitKept(offsets: seq<nat>, entries: seq<nat>, s: Support, columns: nat, bit: MatrixBit)
    requires Segmented(offsets, entries) && BitGood(offsets, entries, columns, bit)
    ensures var offsets', entries' := offsets + [|entries| + |s|], entries + s;
      BitGood(offsets', entries', columns, bit) && SupportOf(offsets', entries', bit) == SupportOf(offsets, entries, bit)
  {
    hide Segment, Segmented;
    AppendSegment(offsets, entries, s);
    var offsets', entries' := offsets + [|entries| + |s|], entries + s;
    if bit.supportLen == ARENA {
      assert |offsets| > 0 by { NotEmpty(offsets, entries); }
      var k := bit.support[0];
      assert Segments(offsets', entries')[k] == Segments(offsets, entries)[k];
    }
  }

  lemma {:induction false} NotEmpty(offsets: seq<nat>, entries: seq<nat>)
    requires Segmented(offsets, entries)
    ensures |offsets| > 0
  {
  }

  /** The arena after at most one appended segment. */
  ghost predicate Grown(offsets: seq<nat>, entries: seq<nat>, offsets': seq<nat>, entries': seq<nat>) {
    || (offsets' == offsets && entries' == entries)
    || exists s: Support :: offsets' == offsets + [|entries| + |s|] && entries' == entries + s
  }

  lemma {:induction false} GrownBy(offsets: seq<nat>, entries: seq<nat>, s: Support)
    ensures Grown(offsets, entries, offsets, entries)
    ensures Grown(offsets, entries, offsets + [|entries| + |s|], entries + s)
  {
  }

  lemma {:induction false} BitsKept(
    offsets: seq<nat>, entries: seq<nat>, offsets': seq<nat>, entries': seq<nat>, columns: nat, bits: seq<MatrixBit>
  )
    requires Segmented(offsets, entries) && BitsGood(offsets, entries, columns, bits) && Grown(offsets, entries, offsets', entries')
    ensures BitsGood(offsets', entries', columns, bits)
    ensures forall h :: 0 <= h < |bits| ==> SupportOf(offsets', entries', bits[h]) == SupportOf(offsets, entries, bits[h])
  {
    hide Segmented, SupportOf, BitGood;
    if !(offsets' == offsets && entries' == entries) {
      var s: Support :| offsets' == offsets + [|entries| + |s|] && entries' == entries + s;
      forall h | 0 <= h < |bits|
        ensures BitGood(offsets', entries', columns, bits[h])
          && SupportOf(offsets', entries', bits[h]) == SupportOf(offsets, entries, bits[h])
      {
        BitKept(offsets, entries, s, columns, bits[h]);
      }
    }
  }

  lemma {:induction false} MoreColumns(offsets: seq<nat>, entries: seq<nat>, columns: nat, columns': nat, bits: seq<MatrixBit>)
    requires BitsGood(offsets, entries, columns, bits) && columns <= columns'
    ensures BitsGood(offsets, entries, columns', bits)
  {
    hide SupportOf;
  }

  // ---------------------------------------------------------------- what a step does to the supports

  ghost function Supports(offsets: seq<nat>, entries: seq<nat>, bits: seq<MatrixBit>): (s: seq<Support>)
    ensures |s| == |bits| && forall h :: 0 <= h < |bits| ==> s[h] == SupportOf(offsets, entries, bits[h])
  {
    seq(|bits|, h requires 0 <= h < |bits| => SupportOf(offsets, entries, bits[h]))
  }

  ghost function FreshSupports(first: nat, count: nat): (s: seq<Support>)
    ensures |s| == count && forall i :: 0 <= i < count ==> s[i] == [first + i + 1]
  {
    seq(count, i requires 0 <= i < count => [first + i + 1])
  }

  ghost function ChosenSupports(supports: seq<Support>, chosen: seq<nat>): (s: seq<Support>)
    requires forall i :: 0 <= i < |chosen| ==> chosen[i] < |supports|
    ensures |s| == |chosen| && forall i :: 0 <= i < |chosen| ==> s[i] == supports[chosen[i]]
  {
    seq(|chosen|, i requires 0 <= i < |chosen| => supports[chosen[i]])
  }

  /** The handles' supports, the witness count and the rows before and after a step. */
  ghost predicate StepTaken(
    supports: seq<Support>, witnesses: nat, rows: seq<Support>, s: Step, supports': seq<Support>, witnesses': nat, rows': seq<Support>
  )
    requires exists ints :: StepValid(s, |supports|, ints)
  {
    match s
    case Xor(l, r) =>
      && witnesses' == witnesses && rows' == rows
      && |supports'| == |supports| + 1 && supports'[..|supports|] == supports
      && forall c :: c in supports'[|supports|] <==> ((c in supports[l]) != (c in supports[r]))
    case Fixed(bit) => supports' == supports + [if bit then [0] else []] && witnesses' == witnesses && rows' == rows
    case Hint(count) =>
      supports' == supports + FreshSupports(witnesses, count) && witnesses' == witnesses + count && rows' == rows
    case Bitz(source) => supports' == supports && witnesses' == witnesses && rows' == rows + [supports[source]]
    case BitzUnsigned(chosen, _, _) =>
      supports' == supports && witnesses' == witnesses && rows' == rows + ChosenSupports(supports, chosen)
    case Constant(_, _) | Add(_, _, _) | Neg(_, _) | Scale(_, _, _) | AssertR1c(_, _, _) =>
      supports' == supports && witnesses' == witnesses && rows' == rows
  }

  /** Supports and rows say at one column what the program means there. */
  ghost predicate Agrees(supports: seq<Support>, witnesses: nat, rows: seq<Support>, m: BoolMeaning, b: nat) {
    && |supports| == |m.bits| && (forall h :: 0 <= h < |supports| ==> (b in supports[h] <==> m.bits[h]))
    && witnesses == m.witnesses && |rows| == |m.mRows| + 1 && rows[0] == [0]
    && (forall i :: 0 < i < |rows| ==> (b in rows[i] <==> m.mRows[i - 1]))
  }

  lemma {:induction false} StepAgrees(
    supports: seq<Support>, witnesses: nat, rows: seq<Support>, s: Step, supports': seq<Support>, witnesses': nat,
    rows': seq<Support>, ints: nat, m: BoolMeaning, b: nat
  )
    requires StepValid(s, |supports|, ints) && StepTaken(supports, witnesses, rows, s, supports', witnesses', rows')
    requires Agrees(supports, witnesses, rows, m, b)
    ensures Agrees(supports', witnesses', rows', BoolAfter(m, s, b), b)
  {
    match s
    case Xor(l, r) =>
      var n := |supports|;
      assert supports' == supports + [supports'[n]];
      AgreesPush(supports, witnesses, rows, m, b, supports'[n], BitAt(m.bits, l) != BitAt(m.bits, r));
    case Fixed(bit) =>
      AgreesPush(supports, witnesses, rows, m, b, if bit then [0] else [], b == 0 && bit);
    case Hint(count) => HintAgrees(supports, witnesses, rows, count, m, b);
    case Bitz(_) | BitzUnsigned(_, _, _) =>
    case Constant(_, _) | Add(_, _, _) | Neg(_, _) | Scale(_, _, _) | AssertR1c(_, _, _) =>
  }

  lemma {:induction false} AgreesPush(
    supports: seq<Support>, witnesses: nat, rows: seq<Support>, m: BoolMeaning, b: nat, s: Support, bit: bool
  )
    requires Agrees(supports, witnesses, rows, m, b) && (b in s <==> bit)
    ensures Agrees(supports + [s], witnesses, rows, m.(bits := m.bits + [bit]), b)
  {
  }

  lemma {:induction false} HintAgrees(
    supports: seq<Support>, witnesses: nat, rows: seq<Support>, count: nat, m: BoolMeaning, b: nat
  )
    requires Agrees(supports, witnesses, rows, m, b)
    ensures Agrees(supports + FreshSupports(witnesses, count), witnesses + count, rows,
      m.(bits := m.bits + Witnesses(b, m.witnesses, count), witnesses := m.witnesses + count), b)
  {
    var added := FreshSupports(witnesses, count);
    forall i: nat | i < count ensures b in added[i] <==> b == witnesses + i + 1 {
      assert added[i] == [witnesses + i + 1];
    }
  }

  // ---------------------------------------------------------------- values

  /** The sum over two elements of the bits at a row's columns. */
  ghost function RowBit(row: Support, x: seq<bool>): bool {
    if |row| == 0 then false
    else
      var c := row[|row| - 1];
      RowBit(row[..|row| - 1], x) != (c < |x| && x[c])
  }

  /** The same, column by column. */
  ghost function Parity(row: Support, x: seq<bool>, n: nat): bool
    requires n <= |x|
  {
    n > 0 && (Parity(row, x, n - 1) != (n - 1 in row && x[n - 1]))
  }

  lemma {:induction false} RowBitIsParity(row: Support, x: seq<bool>, n: nat)
    requires Within(row, n) && n <= |x|
    ensures RowBit(row, x) == Parity(row, x, n)
    decreases n
  {
    hide Within;
    WithinTop(row, n);
    if n > 0 {
      var c := n - 1;
      if c in row {
        var before := row[..|row| - 1];
        RowBitIsParity(before, x, c);
        ParityBelow(before, row, x, c);
      } else {
        RowBitIsParity(row, x, c);
      }
    }
  }

  /** Within a number of columns, the top column comes last or not at all. */
  lemma {:induction false} WithinTop(row: Support, n: nat)
    requires Within(row, n)
    ensures n == 0 ==> row == []
    ensures n > 0 && n - 1 !in row ==> Within(row, n - 1)
    ensures n > 0 && n - 1 in row ==> |row| > 0 && row == row[..|row| - 1] + [n - 1] && Within(row[..|row| - 1], n - 1)
  {
    if n > 0 && n - 1 in row {
      var k := |row| - 1;
      var i :| 0 <= i < |row| && row[i] == n - 1;
      assert row[i] <= row[k] < n;
      assert row[k] == n - 1;
    } else {
      assert forall i :: 0 <= i < |row| ==> row[i] in row;
      assert |row| > 0 ==> row[0] < n;
    }
  }

  lemma {:induction false} ParityBelow(a: Support, b: Support, x: seq<bool>, n: nat)
    requires n <= |x| && forall c :: 0 <= c < n ==> (c in a <==> c in b)
    ensures Parity(a, x, n) == Parity(b, x, n)
  {
    if n > 0 { ParityBelow(a, b, x, n - 1); }
  }

  lemma {:induction false} ParityXor(a: Support, b: Support, c: Support, x: seq<bool>, n: nat)
    requires n <= |x| && forall k :: k in c <==> ((k in a) != (k in b))
    ensures Parity(c, x, n) == (Parity(a, x, n) != Parity(b, x, n))
  {
    if n > 0 { ParityXor(a, b, c, x, n - 1); }
  }

  lemma {:induction false} RowBitXor(a: Support, b: Support, c: Support, columns: nat, x: seq<bool>)
    requires Within(a, columns) && Within(b, columns) && Within(c, columns) && columns <= |x|
    requires forall k :: k in c <==> ((k in a) != (k in b))
    ensures RowBit(c, x) == (RowBit(a, x) != RowBit(b, x))
  {
    hide RowBit, Parity, Within;
    RowBitIsParity(a, x, columns);
    RowBitIsParity(b, x, columns);
    RowBitIsParity(c, x, columns);
    ParityXor(a, b, c, x, columns);
  }

  lemma {:induction false} SmallRowBits(x: seq<bool>, c: nat)
    ensures RowBit([], x) == false
    ensures c < |x| ==> RowBit([c], x) == x[c]
  {
    assert [c][..0] == [];
  }

  /** Handles and rows, on the constant and a witness, have the values of a run. */
  ghost predicate Computes(supports: seq<Support>, witnesses: nat, rows: seq<Support>, run: BoolRun, f: seq<bool>) {
    var x := [true] + f;
    && witnesses == run.next
    && |supports| == |run.bits| && (forall h :: 0 <= h < |supports| ==> RowBit(supports[h], x) == run.bits[h])
    && |rows| == |run.lifted| + 1 && RowBit(rows[0], x)
    && (forall i :: 0 < i < |rows| ==> RowBit(rows[i], x) == run.lifted[i - 1])
  }

  lemma {:induction false} StepComputes(
    supports: seq<Support>, witnesses: nat, rows: seq<Support>, s: Step, supports': seq<Support>, witnesses': nat,
    rows': seq<Support>, ints: nat, run: BoolRun, f: seq<bool>
  )
    requires StepValid(s, |supports|, ints) && StepTaken(supports, witnesses, rows, s, supports', witnesses', rows')
    requires AllWithin(supports, witnesses + 1) && AllWithin(supports', witnesses' + 1) && witnesses' <= |f|
    requires Computes(supports, witnesses, rows, run, f)
    ensures Computes(supports', witnesses', rows', RunStep(run, s, f), f)
  {
    hide RowBit, Within;
    var x := [true] + f;
    match s
    case Xor(l, r) =>
      var n := |supports|;
      assert forall h :: 0 <= h < n ==> supports'[h] == supports'[..n][h];
      RowBitXor(supports[l], supports[r], supports'[n], witnesses + 1, x);
    case Fixed(bit) => SmallRowBits(x, 0);
    case Hint(count) =>
      forall i: nat | i < count ensures RowBit(FreshSupports(witnesses, count)[i], x) == BitAt(f, witnesses + i) {
        SmallRowBits(x, witnesses + i + 1);
      }
    case Bitz(_) | BitzUnsigned(_, _, _) =>
    case Constant(_, _) | Add(_, _, _) | Neg(_, _) | Scale(_, _, _) | AssertR1c(_, _, _) =>
  }

  // ---------------------------------------------------------------- the recorder

  class Recorder {
    var witnessCount: nat
    var expressionOffsets: seq<nat>
    var expressionEntries: seq<nat>
    var rowOffsets: seq<nat>
    var columnIndices: seq<nat>

    ghost predicate Valid()
      reads this
    {
      && Segmented(expressionOffsets, expressionEntries) && Segmented(rowOffsets, columnIndices)
      && |rowOffsets| > 0 && AllWithin(Segments(rowOffsets, columnIndices), witnessCount + 1)
    }

    /** The rows of M so far. */
    ghost function Rows(): seq<Support>
      requires Valid()
      reads this
    {
      Segments(rowOffsets, columnIndices)
    }

    ghost predicate Has(bit: MatrixBit)
      reads this
    {
      BitGood(expressionOffsets, expressionEntries, witnessCount + 1, bit)
    }

    ghost predicate HasAll(bits: seq<MatrixBit>)
      reads this
    {
      BitsGood(expressionOffsets, expressionEntries, witnessCount + 1, bits)
    }

    ghost function Columns(bit: MatrixBit): Support
      reads this
    {
      SupportOf(expressionOffsets, expressionEntries, bit)
    }

    /** The implicit constant is the first row. */
    constructor (inputs: nat)
      ensures Valid() && witnessCount == inputs && Rows() == [[0]]
    {
      witnessCount := inputs;
      expressionOffsets, expressionEntries := [0], [];
      rowOffsets, columnIndices := [0, 1], [0];
      new;
      assert Segments([0, 1], [0])[0] == [0];
    }

    method AllocateWitness() returns (bit: MatrixBit)
      requires Valid()
      modifies this`witnessCount
      ensures Valid() && witnessCount == old(witnessCount) + 1 && bit == WitnessBit(old(witnessCount))
    {
      hide Segmented;
      bit := WitnessBit(witnessCount);
      witnessCount := witnessCount + 1;
    }

    /** Short supports stay inline, long ones become a new segment. */
    method BitFromSupport(support: Support) returns (bit: MatrixBit)
      requires Valid() && Within(support, witnessCount + 1)
      modifies this`expressionOffsets, this`expressionEntries
      ensures Valid() && Has(bit) && Columns(bit) == support
      ensures Grown(old(expressionOffsets), old(expressionEntries), expressionOffsets, expressionEntries)
    {
      hide Segmented, BitGood, SupportOf, Within, AllWithin, Grown;
      GrownBy(expressionOffsets, expressionEntries, support);
      if |support| <= INLINE {
        InlineGood(expressionOffsets, expressionEntries, witnessCount + 1, support);
        bit := InlineBit(support);
        return;
      }
      AppendSegment(expressionOffsets, expressionEntries, support);
      ArenaGood(expressionOffsets, expressionEntries, witnessCount + 1, support);
      NotEmpty(expressionOffsets, expressionEntries);
      var expression := |expressionOffsets| - 1;
      expressionEntries := expressionEntries + support;
      expressionOffsets := expressionOffsets + [|expressionEntries|];
      bit := ArenaBit(support, expression);
    }

    /** The sum over two elements: a column is in it when it is in exactly one of the operands. */
    method Xor(lhs: MatrixBit, rhs: MatrixBit) returns (bit: MatrixBit)
      requires Valid() && Has(lhs) && Has(rhs)
      modifies this`expressionOffsets, this`expressionEntries
      ensures Valid() && Has(bit)
      ensures forall c :: c in Columns(bit) <==> ((c in old(Columns(lhs))) != (c in old(Columns(rhs))))
      ensures Grown(old(expressionOffsets), old(expressionEntries), expressionOffsets, expressionEntries)
    {
      hide Segmented, BitGood, SupportOf, AllWithin, Grown;
      GrownBy(expressionOffsets, expressionEntries, []);
      if lhs.supportLen == 0 { EmptyBit(expressionOffsets, expressionEntries, lhs); return rhs; }
      if rhs.supportLen == 0 { EmptyBit(expressionOffsets, expressionEntries, rhs); return lhs; }
      GoodWithin(expressionOffsets, expressionEntries, witnessCount + 1, lhs);
      GoodWithin(expressionOffsets, expressionEntries, witnessCount + 1, rhs);
      var left := SupportOf(expressionOffsets, expressionEntries, lhs);
      var right := SupportOf(expressionOffsets, expressionEntries, rhs);
      var merged := SymmetricDifference(left, right);
      DifferenceWithin(left, right, merged, witnessCount + 1);
      bit := BitFromSupport(merged);
    }

    /** Appends the support as the next row. */
    method PushRow(bit: MatrixBit)
      requires Valid() && Has(bit)
      modifies this`rowOffsets, this`columnIndices
      ensures Valid() && Rows() == old(Rows()) + [Columns(bit)]
    {
      hide Segmented, BitGood, SupportOf, Within;
      var support := SupportOf(expressionOffsets, expressionEntries, bit);
      GoodWithin(expressionOffsets, expressionEntries, witnessCount + 1, bit);
      AppendSegment(rowOffsets, columnIndices, support);
      columnIndices := columnIndices + support;
      rowOffsets := rowOffsets + [|columnIndices|];
    }

    ghost function Handles(bits: seq<MatrixBit>): seq<Support>
      reads this
    {
      Supports(expressionOffsets, expressionEntries, bits)
    }

    /** New witnesses, one handle each. */
    method Hint(count: nat, ghost bits: seq<MatrixBit>) returns (added: seq<MatrixBit>)
      requires Valid() && HasAll(bits)
      modifies this`witnessCount
      ensures Valid() && HasAll(bits) && HasAll(added) && witnessCount == old(witnessCount) + count
      ensures Handles(added) == FreshSupports(old(witnessCount), count) && Rows() == old(Rows())
    {
      hide Segmented, BitGood, SupportOf, AllWithin;
      added := [];
      for i := 0 to count
        invariant Valid() && HasAll(bits) && HasAll(added) && witnessCount == old(witnessCount) + i && |added| == i
        invariant Handles(added) == FreshSupports(old(witnessCount), i)
      {
        var bit := AllocateWitness();
        MoreColumns(expressionOffsets, expressionEntries, witnessCount, witnessCount + 1, bits);
        MoreColumns(expressionOffsets, expressionEntries, witnessCount, witnessCount + 1, added);
        WitnessGood(expressionOffsets, expressionEntries, witnessCount + 1, witnessCount - 1);
        added := added + [bit];
      }
    }

    /** One row per bit of a packed lift. */
    method PushRows(bits: seq<MatrixBit>, chosen: seq<nat>)
      requires Valid() && HasAll(bits) && forall i :: 0 <= i < |chosen| ==> chosen[i] < |bits|
      modifies this`rowOffsets, this`columnIndices
      ensures Valid() && Rows() == old(Rows()) + ChosenSupports(Handles(bits), chosen)
    {
      hide Segmented, BitGood, SupportOf, AllWithin;
      for i := 0 to |chosen|
        invariant Valid() && Rows() == old(Rows()) + ChosenSupports(Handles(bits), chosen)[..i]
      {
        PushRow(bits[chosen[i]]);
      }
    }

    /** One step: exclusive or, a constant, fresh witnesses or lifted rows; the integer steps leave M. */
    method Run(bits: seq<MatrixBit>, s: Step, ghost ints: nat) returns (after: seq<MatrixBit>)
      requires Valid() && HasAll(bits) && StepValid(s, |bits|, ints)
      modifies this
      ensures Valid() && HasAll(after)
      ensures StepTaken(old(Handles(bits)), old(witnessCount), old(Rows()), s, Handles(after), witnessCount, Rows())
    {
      hide Segmented, BitGood, SupportOf, AllWithin, Grown;
      after := bits;
      match s
      case Xor(l, r) =>
        var bit := Xor(bits[l], bits[r]);
        BitsKept(old(expressionOffsets), old(expressionEntries), expressionOffsets, expressionEntries, witnessCount + 1, bits);
        after := bits + [bit];
        assert Handles(after)[|bits|] == Columns(bit);
        assert Handles(after)[..|bits|] == old(Handles(bits));
        assert old(Handles(bits))[l] == old(Columns(bits[l])) && old(Handles(bits))[r] == old(Columns(bits[r]));
      case Fixed(value) =>
        ConstantGood(expressionOffsets, expressionEntries, witnessCount + 1, value);
        after := bits + [ConstantBit(value)];
        assert Handles(after) == Handles(bits) + [if value then [0] else []];
      case Hint(count) =>
        var added := Hint(count, bits);
        after := bits + added;
        assert Handles(after) == Handles(bits) + Handles(added);
      case Bitz(source) => PushRow(bits[source]);
      case BitzUnsigned(chosen, _, _) => PushRows(bits, chosen);
      case Constant(_, _) | Add(_, _, _) | Neg(_, _) | Scale(_, _, _) | AssertR1c(_, _, _) =>
    }
  }

  lemma {:induction false} EmptyBit(offsets: seq<nat>, entries: seq<nat>, bit: MatrixBit)
    requires bit.supportLen == 0
    ensures SupportOf(offsets, entries, bit) == []
  {
  }

  lemma {:induction false} GoodWithin(offsets: seq<nat>, entries: seq<nat>, columns: nat, bit: MatrixBit)
    requires BitGood(offsets, entries, columns, bit)
    ensures Within(SupportOf(offsets, entries, bit), columns)
  {
  }

  lemma {:induction false} DifferenceWithin(left: Support, right: Support, merged: Support, columns: nat)
    requires Within(left, columns) && Within(right, columns) && Rising(merged)
    requires forall x :: x in merged <==> ((x in left) != (x in right))
    ensures Within(merged, columns)
  {
    forall i | 0 <= i < |merged| ensures merged[i] < columns {
      assert merged[i] in merged;
    }
  }

  // ---------------------------------------------------------------- whole programs

  /** The recorded rows are M of the program. */
  ghost predicate MatrixOf(rows: seq<Support>, witnesses: nat, steps: seq<Step>, inputs: nat) {
    AllWithin(rows, witnesses + 1) && forall b :: RowsMean(rows, witnesses, BoolMeaningAt(steps, inputs, b), b)
  }

  ghost predicate RowsMean(rows: seq<Support>, witnesses: nat, m: BoolMeaning, b: nat) {
    && witnesses == m.witnesses && |rows| == |m.mRows| + 1 && rows[0] == [0]
    && (forall i :: 0 < i < |rows| ==> (b in rows[i] <==> m.mRows[i - 1]))
  }

  ghost predicate AgreesEverywhere(
    supports: seq<Support>, witnesses: nat, rows: seq<Support>, steps: seq<Step>, inputs: nat
  ) {
    forall b :: Agrees(supports, witnesses, rows, BoolMeaningAt(steps, inputs, b), b)
  }

  lemma {:induction false} AgreesCounts(
    supports: seq<Support>, witnesses: nat, rows: seq<Support>, steps: seq<Step>, inputs: nat
  )
    requires AgreesEverywhere(supports, witnesses, rows, steps, inputs)
    ensures |supports| == Circuits.Handles(steps, inputs).0
  {
    hide BoolMeaningAt, Circuits.Handles;
    assert Agrees(supports, witnesses, rows, BoolMeaningAt(steps, inputs, 0), 0);
    CG.BoolHandles(steps, inputs, 0);
  }

  lemma {:induction false} AgreesNext(
    supports: seq<Support>, witnesses: nat, rows: seq<Support>, steps: seq<Step>, inputs: nat, i: nat, ints: nat,
    supports': seq<Support>, witnesses': nat, rows': seq<Support>
  )
    requires i < |steps| && AgreesEverywhere(supports, witnesses, rows, steps[..i], inputs)
    requires StepValid(steps[i], |supports|, ints)
    requires StepTaken(supports, witnesses, rows, steps[i], supports', witnesses', rows')
    ensures AgreesEverywhere(supports', witnesses', rows', steps[..i + 1], inputs)
  {
    hide Agrees, BoolAfter, StepTaken;
    var now := steps[..i + 1];
    assert now[..i] == steps[..i];
    forall b: nat ensures Agrees(supports', witnesses', rows', BoolMeaningAt(now, inputs, b), b) {
      assert Agrees(supports, witnesses, rows, BoolMeaningAt(steps[..i], inputs, b), b);
      StepAgrees(supports, witnesses, rows, steps[i], supports', witnesses', rows', ints, BoolMeaningAt(steps[..i], inputs, b), b);
    }
  }

  lemma {:induction false} AgreesStart(inputs: nat)
    ensures AgreesEverywhere(FreshSupports(0, inputs), inputs, [[0]], [], inputs)
  {
    forall b: nat ensures Agrees(FreshSupports(0, inputs), inputs, [[0]], BoolMeaningAt([], inputs, b), b) {
    }
  }

  /** On every long enough witness the rows have the values of the program's run. */
  ghost predicate ComputesAlways(
    supports: seq<Support>, witnesses: nat, rows: seq<Support>, steps: seq<Step>, inputs: nat
  ) {
    forall f: seq<bool> :: witnesses <= |f| ==>
      Computes(supports, witnesses, rows, RunBools(steps, inputs, f), f)
  }

  lemma {:induction false} ComputesNext(
    supports: seq<Support>, witnesses: nat, rows: seq<Support>, steps: seq<Step>, inputs: nat, i: nat, ints: nat,
    supports': seq<Support>, witnesses': nat, rows': seq<Support>
  )
    requires i < |steps| && ComputesAlways(supports, witnesses, rows, steps[..i], inputs)
    requires AllWithin(supports, witnesses + 1) && AllWithin(supports', witnesses' + 1)
    requires StepValid(steps[i], |supports|, ints)
    requires StepTaken(supports, witnesses, rows, steps[i], supports', witnesses', rows')
    ensures ComputesAlways(supports', witnesses', rows', steps[..i + 1], inputs)
  {
    MoreWitnesses(supports, witnesses, rows, steps[i], supports', witnesses', rows', ints);
    hide Computes, RunStep, StepTaken, AllWithin;
    var now := steps[..i + 1];
    assert now[..i] == steps[..i];
    forall f: seq<bool> | witnesses' <= |f|
      ensures Computes(supports', witnesses', rows', RunBools(now, inputs, f), f)
    {
      var run := RunBools(steps[..i], inputs, f);
      assert Computes(supports, witnesses, rows, run, f);
      StepComputes(supports, witnesses, rows, steps[i], supports', witnesses', rows', ints, run, f);
    }
  }

  lemma {:induction false} MoreWitnesses(
    supports: seq<Support>, witnesses: nat, rows: seq<Support>, s: Step, supports': seq<Support>, witnesses': nat,
    rows': seq<Support>, ints: nat
  )
    requires StepValid(s, |supports|, ints) && StepTaken(supports, witnesses, rows, s, supports', witnesses', rows')
    ensures witnesses <= witnesses'
  {
  }

  lemma {:induction false} ComputesStart(inputs: nat)
    ensures ComputesAlways(FreshSupports(0, inputs), inputs, [[0]], [], inputs)
  {
    hide RowBit;
    forall f: seq<bool> | inputs <= |f|
      ensures Computes(FreshSupports(0, inputs), inputs, [[0]], RunBools([], inputs, f), f)
    {
      var x := [true] + f;
      SmallRowBits(x, 0);
      forall i: nat | i < inputs ensures RowBit(FreshSupports(0, inputs)[i], x) == f[i] { SmallRowBits(x, i + 1); }
    }
  }

  lemma {:induction false} HandlesWithin(offsets: seq<nat>, entries: seq<nat>, columns: nat, bits: seq<MatrixBit>)
    requires BitsGood(offsets, entries, columns, bits)
    ensures AllWithin(Supports(offsets, entries, bits), columns)
  {
    hide SupportOf;
    forall h | 0 <= h < |bits| ensures Within(SupportOf(offsets, entries, bits[h]), columns) {
      GoodWithin(offsets, entries, columns, bits[h]);
    }
  }

  /** Applied to the constant and a witness, the rows give the constant and the bits the run lifts. */
  ghost predicate Lifts(rows: seq<Support>, witnesses: nat, steps: seq<Step>, inputs: nat) {
    forall f: seq<bool> :: witnesses <= |f| ==> LiftsOn(rows, RunBools(steps, inputs, f).lifted, f)
  }

  ghost predicate LiftsOn(rows: seq<Support>, lifted: seq<bool>, f: seq<bool>) {
    && |rows| == |lifted| + 1
    && forall i :: 0 <= i < |rows| ==> RowBit(rows[i], [true] + f) == ([true] + lifted)[i]
  }

  lemma {:induction false} ComputesLifts(
    supports: seq<Support>, witnesses: nat, rows: seq<Support>, steps: seq<Step>, inputs: nat
  )
    requires ComputesAlways(supports, witnesses, rows, steps, inputs)
    ensures Lifts(rows, witnesses, steps, inputs)
  {
    hide RunBools, RowBit;
    forall f: seq<bool> | witnesses <= |f| ensures LiftsOn(rows, RunBools(steps, inputs, f).lifted, f) {
      assert Computes(supports, witnesses, rows, RunBools(steps, inputs, f), f);
    }
  }

  lemma {:induction false} AgreesMatrix(
    supports: seq<Support>, witnesses: nat, rows: seq<Support>, steps: seq<Step>, inputs: nat
  )
    requires AgreesEverywhere(supports, witnesses, rows, steps, inputs) && AllWithin(rows, witnesses + 1)
    ensures MatrixOf(rows, witnesses, steps, inputs)
  {
    hide BoolMeaningAt;
    forall b: nat ensures RowsMean(rows, witnesses, BoolMeaningAt(steps, inputs, b), b) {
      assert Agrees(supports, witnesses, rows, BoolMeaningAt(steps, inputs, b), b);
    }
  }

  /** Replays a program into a fresh recorder. */
  method Replay(steps: seq<Step>, inputs: nat) returns (recorder: Recorder)
    requires Circuits.Valid(steps, inputs)
    ensures fresh(recorder) && recorder.Valid() && MatrixOf(recorder.Rows(), recorder.witnessCount, steps, inputs)
    ensures Lifts(recorder.Rows(), recorder.witnessCount, steps, inputs)
  {
    hide Lifts, ComputesAlways;
    hide Segmented, BitGood, SupportOf, AllWithin, AgreesEverywhere, StepTaken, MatrixOf, BoolMeaningAt;
    recorder := new Recorder(inputs);
    var bits := seq(inputs, i requires 0 <= i < inputs => WitnessBit(i));
    forall h | 0 <= h < inputs
      ensures BitGood(recorder.expressionOffsets, recorder.expressionEntries, inputs + 1, bits[h]) && recorder.Columns(bits[h]) == [h + 1]
    {
      WitnessGood(recorder.expressionOffsets, recorder.expressionEntries, inputs + 1, h);
    }
    assert recorder.Handles(bits) == FreshSupports(0, inputs);
    AgreesStart(inputs);
    ComputesStart(inputs);
    assert steps[..0] == [];
    for i := 0 to |steps|
      invariant fresh(recorder) && recorder.Valid() && recorder.HasAll(bits)
      invariant AgreesEverywhere(recorder.Handles(bits), recorder.witnessCount, recorder.Rows(), steps[..i], inputs)
      invariant ComputesAlways(recorder.Handles(bits), recorder.witnessCount, recorder.Rows(), steps[..i], inputs)
    {
      HandlesWithin(recorder.expressionOffsets, recorder.expressionEntries, recorder.witnessCount + 1, bits);
      CG.ValidPrefix(steps, inputs, i);
      ghost var supports, witnesses, rows := recorder.Handles(bits), recorder.witnessCount, recorder.Rows();
      AgreesCounts(supports, witnesses, rows, steps[..i], inputs);
      ghost var ints := Circuits.Handles(steps[..i], inputs).1;
      var after := recorder.Run(bits, steps[i], ints);
      AgreesNext(supports, witnesses, rows, steps, inputs, i, ints, recorder.Handles(after), recorder.witnessCount, recorder.Rows());
      HandlesWithin(recorder.expressionOffsets, recorder.expressionEntries, recorder.witnessCount + 1, after);
      ComputesNext(supports, witnesses, rows, steps, inputs, i, ints, recorder.Handles(after), recorder.witnessCount, recorder.Rows());
      bits := after;
    }
    assert steps[..|steps|] == steps;
    AgreesMatrix(recorder.Handles(bits), recorder.witnessCount, recorder.Rows(), steps, inputs);
    ComputesLifts(recorder.Handles(bits), recorder.witnessCount, recorder.Rows(), steps, inputs);
  }

  lemma {:induction false} SomeRows(rows: seq<Support>, witnesses: nat, steps: seq<Step>, inputs: nat)
    requires MatrixOf(rows, witnesses, steps, inputs)
    ensures |rows| > 0
  {
    assert RowsMean(rows, witnesses, BoolMeaningAt(steps, inputs, 0), 0);
  }

  /** Both backends build the same M, row for row. */
  lemma {:induction false} SameMatrix(rows: seq<Support>, witnesses: nat, x: CG.Matrices, steps: seq<Step>, inputs: nat)
    requires MatrixOf(rows, witnesses, steps, inputs) && CG.ForProgram(x, steps, inputs)
    ensures rows == x.m
  {
    hide BoolMeaningAt, MeaningAt, EntryAt, CG.RowMeans;
    assert RowsMean(rows, witnesses, BoolMeaningAt(steps, inputs, 0), 0);
    RowCounts(steps, inputs, 0);
    SameShape(steps, 0, 0);
    forall i | 0 <= i < |rows| ensures rows[i] == x.m[i] {
      forall b: nat ensures b in rows[i] <==> b in x.m[i] {
        assert RowsMean(rows, witnesses, BoolMeaningAt(steps, inputs, b), b);
        if i > 0 { assert CG.BoolRowMeans(x, steps, inputs, i - 1, b); }
      }
      assert Within(rows[i], witnesses + 1);
      RisingEqual(rows[i], x.m[i]);
    }
  }

  /** Sorted supports with the same columns are equal. */
  lemma {:induction false} RisingEqual(a: Support, b: Support)
    requires Rising(a) && Rising(b) && forall c: nat :: c in a <==> c in b
    ensures a == b
    decreases |a|
  {
    FirstIn(a);
    FirstIn(b);
    if |a| > 0 {
      var k, l := |a| - 1, |b| - 1;
      LastIn(a);
      LastIn(b);
      SameLast(a, b);
      forall c: nat ensures c in a[..k] <==> c in b[..l] {
        InFront(a, c);
        InFront(b, c);
      }
      RisingEqual(a[..k], b[..l]);
      assert a == a[..k] + [a[k]] && b == b[..l] + [b[l]];
    }
  }

  lemma {:induction false} FirstIn(s: Support)
    ensures |s| > 0 ==> s[0] in s
  {
  }

  lemma {:induction false} LastIn(s: Support)
    ensures |s| > 0 ==> s[|s| - 1] in s
  {
  }

  lemma {:induction false} SameLast(a: Support, b: Support)
    requires Rising(a) && Rising(b) && |a| > 0 && |b| > 0 && a[|a| - 1] in b && b[|b| - 1] in a
    ensures a[|a| - 1] == b[|b| - 1]
  {
    var i :| 0 <= i < |b| && b[i] == a[|a| - 1];
    var j :| 0 <= j < |a| && a[j] == b[|b| - 1];
    assert b[i] <= b[|b| - 1] && a[j] <= a[|a| - 1];
  }

  lemma {:induction false} InFront(a: Support, c: nat)
    requires Rising(a) && |a| > 0
    ensures c in a[..|a| - 1] <==> c in a && c != a[|a| - 1]
  {
    assert a == a[..|a| - 1] + [a[|a| - 1]];
  }

  /** M has one row per integer witness. */
  lemma {:induction false} RowCounts(steps: seq<Step>, inputs: nat, b: nat)
    ensures |BoolMeaningAt(steps, inputs, b).mRows| + 1 == Columns(steps)
    decreases |steps|
  {
    if |steps| > 0 { RowCounts(steps[..|steps| - 1], inputs, b); }
  }
}
