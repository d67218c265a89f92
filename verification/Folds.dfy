/** The column fold over the integers, its images under a generator, and the gates that make the
    images determine the folds. */
module Folds {
  import M = Montgomery
  import T = NumberTheory
  import opened FiniteField
  import opened Powers
  import opened Numerals
  import opened Transposes
  import opened BitMatrices

  // ---------------------------------------------------------------- the bit table

  const PACK_BITS: nat := 7
  const MIN_LOG_BITS: nat := 20
  const MAX_LOG_BITS: nat := 35

  datatype Shape = Shape(logRows: nat, logColumns: nat) {
    /** The shapes `new` returns. */
    predicate Admissible() {
      PACK_BITS <= logRows <= MAX_LOG_BITS && MIN_LOG_BITS <= logRows + logColumns <= MAX_LOG_BITS
    }

    function Rows(): nat { Pow2(logRows) }

    function Columns(): nat { Pow2(logColumns) }

    function ColumnElements(): nat { Rows() / BITS }

    function LogBits(): nat { logRows + logColumns }
  }

  /** The committed bits, column by column. */
  datatype BitTable = BitTable(shape: Shape, packed: seq<Bits>) {
    ghost predicate Valid() {
      shape.Admissible() && |packed| * BITS == Pow2(shape.LogBits())
    }

    /** The words of a column. */
    function Column(column: nat): (words: seq<Bits>)
      requires Valid() && column < shape.Columns()
    {
      var elements := shape.ColumnElements();
      ColumnInside(this, column, elements);
      packed[column * elements..(column + 1) * elements]
    }

    function AsMatrix(): BitMatrix {
      BitMatrix(packed, shape.logRows)
    }

    ghost function Bit(column: nat, row: nat): bool
      requires Valid() && column < shape.Columns() && row < shape.Rows()
    {
      MatrixOf(this);
      AsMatrix().Bit(column, row)
    }
  }

  lemma {:induction false} MatrixOf(table: BitTable)
    requires table.Valid()
    ensures table.AsMatrix().Valid()
    ensures table.AsMatrix().Dim1() == table.shape.Columns() && table.AsMatrix().Dim2() == table.shape.Rows()
  {
    var m := table.AsMatrix();
    assert m.logDim2 <= table.shape.LogBits();
    Pow2Sum(table.shape.logColumns, table.shape.logRows);
    M.ModUnique(Pow2(table.shape.LogBits()), table.shape.Columns(), 0, table.shape.Rows());
  }

  lemma {:induction false} RowsAreWords(logRows: nat)
    requires logRows >= PACK_BITS
    ensures Pow2(logRows) % BITS == 0 && Pow2(logRows) / BITS == Pow2(logRows - 7)
  {
    Pow2Sum(logRows - 7, 7);
    assert Pow2(3) == 8 && Pow2(7) == 128;
  }

  lemma {:induction false} ColumnInside(table: BitTable, column: nat, elements: nat)
    requires table.Valid() && column < table.shape.Columns() && elements == table.shape.ColumnElements()
    ensures elements * BITS == table.shape.Rows() && |table.packed| == table.shape.Columns() * elements
    ensures 0 <= column * elements <= (column + 1) * elements <= |table.packed|
    ensures column * elements + elements == (column + 1) * elements
  {
    RowsAreWords(table.shape.logRows);
    Pow2Sum(table.shape.logColumns, table.shape.logRows);
    M.Assoc(table.shape.Columns(), elements, BITS);
    M.ProductMonotone(column + 1, table.shape.Columns(), elements);
    M.PlusTimes(column, 1, elements);
    M.ProductMonotone(0, column, elements);
  }

  /** The bits of a column, row by row. */
  ghost function ColumnBits(table: BitTable, column: nat): (bits: seq<bool>)
    requires table.Valid() && column < table.shape.Columns()
    ensures |bits| == table.shape.Rows()
    ensures forall row: nat :: row < |bits| ==> bits[row] == table.Bit(column, row)
  {
    seq(table.shape.Rows(), row requires 0 <= row < table.shape.Rows() => table.Bit(column, row))
  }

  // ---------------------------------------------------------------- words as numbers

  /** The bits of consecutive words. */
  function Flat(words: seq<Bits>): (bits: seq<bool>)
    ensures |bits| == |words| * BITS
  {
    if |words| == 0 then [] else Flat(words[..|words| - 1]) + words[|words| - 1]
  }

  lemma {:induction false} FlatAt(words: seq<Bits>, i: nat)
    requires i < |words| * BITS
    ensures Flat(words)[i] == words[i / BITS][i % BITS]
  {
    var last := |words| - 1;
    if i < last * BITS { FlatAt(words[..last], i); } else { M.ModUnique(i, last, i - last * BITS, BITS); }
  }

  lemma {:induction false} ColumnWords(table: BitTable, column: nat)
    requires table.Valid() && column < table.shape.Columns()
    ensures var words := table.Column(column);
      && |words| * BITS == table.shape.Rows()
      && (forall i: nat :: i < |words| ==> WordOfColumn(table, column, words, i))
  {
    var elements := table.shape.ColumnElements();
    ColumnInside(table, column, elements);
    hide BitTable.Valid;
  }

  ghost predicate WordOfColumn(table: BitTable, column: nat, words: seq<Bits>, i: nat)
    requires i < |words|
  {
    var index := column * |words| + i;
    0 <= index < |table.packed| && words[i] == table.packed[index]
  }

  /** A column's words hold its bits. */
  lemma {:induction false} ColumnIsFlat(table: BitTable, column: nat)
    requires table.Valid() && column < table.shape.Columns()
    ensures |table.Column(column)| * BITS == table.shape.Rows()
    ensures Flat(table.Column(column)) == ColumnBits(table, column)
  {
    hide BitTable.Valid, BitTable.Column, BitMatrix.Bit, BitMatrix.Valid;
    ColumnWords(table, column);
    MatrixOf(table);
    var words := table.Column(column);
    forall row: nat | row < table.shape.Rows() ensures Flat(words)[row] == table.Bit(column, row) {
      FlatAt(words, row);
      WideBit(table.AsMatrix(), |words|, column, row);
      RowBounded(row, |words|, BITS);
      assert WordOfColumn(table, column, words, row / BITS);
    }
  }

  function BitAnd(x: nat, y: nat): nat {
    if x == 0 || y == 0 then 0 else (if x % 2 == 1 && y % 2 == 1 then 1 else 0) + 2 * BitAnd(x / 2, y / 2)
  }

  // ---------------------------------------------------------------- the fold of a column

  /** The sum of the exponents from index `base` on that the bits of `n` select. */
  function Picked(n: nat, exponents: seq<nat>, base: nat): nat
    decreases n
  {
    if n == 0 then 0
    else (if n % 2 == 1 && base < |exponents| then exponents[base] else 0) + Picked(n / 2, exponents, base + 1)
  }

  /** Clearing the lowest set bit takes its exponent out. */
  lemma {:induction false} ClearLowest(n: nat, exponents: seq<nat>, base: nat)
    requires n > 0
    ensures BitAnd(n, n - 1) < n
    ensures var i := base + TrailingZeros(n);
      Picked(n, exponents, base)
        == (if i < |exponents| then exponents[i] else 0) + Picked(BitAnd(n, n - 1), exponents, base)
    decreases n
  {
    if n % 2 == 1 {
      AndSelf(n / 2);
      if n > 1 { assert BitAnd(n, n - 1) == n - 1; }
    } else {
      ClearLowest(n / 2, exponents, base + 1);
      if n > 2 { assert BitAnd(n, n - 1) == 2 * BitAnd(n / 2, n / 2 - 1); }
    }
  }

  lemma {:induction false} AndSelf(n: nat)
    ensures BitAnd(n, n) == n
  {
    if n > 0 { AndSelf(n / 2); }
  }

  /** Below `2^k`, the lowest set bit has index below `k`. */
  lemma {:induction false} LowestInside(n: nat, k: nat)
    requires 0 < n < Pow2(k)
    ensures TrailingZeros(n) < k && BitAnd(n, n - 1) < Pow2(k)
  {
    ClearLowest(n, [], 0);
    if n % 2 == 0 { LowestInside(n / 2, k - 1); }
  }

  /** The sum of the exponents at the set bits. */
  function Selected(bits: seq<bool>, exponents: seq<nat>): nat
    requires |bits| <= |exponents|
  {
    if |bits| == 0 then 0
    else Selected(bits[..|bits| - 1], exponents) + if bits[|bits| - 1] then exponents[|bits| - 1] else 0
  }

  /** A word's bits after the bits before it. */
  lemma {:induction false} SelectedWord(bits: seq<bool>, word: seq<bool>, exponents: seq<nat>)
    requires |bits| + |word| <= |exponents|
    ensures Selected(bits + word, exponents) == Selected(bits, exponents) + Picked(Number(word), exponents, |bits|)
    decreases |word|
  {
    if |word| == 0 {
      assert bits + word == bits;
    } else {
      SelectedWord(bits + word[..1], word[1..], exponents);
      assert bits + word[..1] + word[1..] == bits + word;
      assert (bits + word[..1])[..|bits|] == bits;
      var n := Number(word);
      assert n / 2 == Number(word[1..]) && n % 2 == if word[0] then 1 else 0;
    }
  }

  /** The fold of a column: every set bit of every word adds its exponent. */
  method FoldColumn(table: BitTable, exponents: seq<nat>, column: nat) returns (total: nat)
    requires table.Valid() && column < table.shape.Columns() && |exponents| == table.shape.Rows()
    ensures total == Selected(ColumnBits(table, column), exponents)
  {
    hide Selected, Flat, Picked, Number, BitTable.Valid, BitTable.Column, BitTable.Bit;
    ColumnIsFlat(table, column);
    var words := table.Column(column);
    var base: nat := 0;
    total := 0;
    FoldStart(words, exponents);
    for i := 0 to |words|
      invariant base == i * BITS && total == Selected(Flat(words[..i]), exponents)
    {
      FoldWord(words, i, exponents);
      total := FoldElement(words[i], exponents, base, total);
      base := base + BITS;
    }
    assert words[..|words|] == words;
  }

  /** Adds the exponents of a word's set bits, lowest first. */
  method FoldElement(element: Bits, exponents: seq<nat>, base: nat, start: nat) returns (total: nat)
    requires base + BITS <= |exponents|
    ensures total == start + Picked(Number(element), exponents, base)
  {
    hide Picked, BitAnd, TrailingZeros, Number, Pow2;
    total := start;
    var remaining: nat := Number(element);
    NumberBelow(element);
    while remaining != 0
      invariant remaining < Pow2(BITS)
      invariant total + Picked(remaining, exponents, base) == start + Picked(Number(element), exponents, base)
      decreases remaining
    {
      LowestInside(remaining, BITS);
      ClearLowest(remaining, exponents, base);
      total := total + exponents[base + TrailingZeros(remaining)];
      remaining := BitAnd(remaining, remaining - 1);
    }
    PickedNothing(exponents, base);
  }

  lemma {:induction false} FoldStart(words: seq<Bits>, exponents: seq<nat>)
    ensures Selected(Flat(words[..0]), exponents) == 0
  {
  }

  lemma {:induction false} PickedNothing(exponents: seq<nat>, base: nat)
    ensures Picked(0, exponents, base) == 0
  {
  }

  lemma {:induction false} FoldWord(words: seq<Bits>, i: nat, exponents: seq<nat>)
    requires i < |words| && |words| * BITS <= |exponents|
    ensures Selected(Flat(words[..i + 1]), exponents)
      == Selected(Flat(words[..i]), exponents) + Picked(Number(words[i]), exponents, i * BITS)
  {
    assert words[..i + 1][..i] == words[..i];
    SelectedWord(Flat(words[..i]), words[i], exponents);
  }

  /** A fold over canonical representatives is at most `k1 (q - 1)`. */
  lemma {:induction false} FoldBounded(bits: seq<bool>, exponents: seq<nat>, q: nat)
    requires |bits| <= |exponents| && q > 0 && forall i :: 0 <= i < |exponents| ==> exponents[i] < q
    ensures Selected(bits, exponents) <= |bits| * (q - 1)
  {
    if |bits| > 0 {
      FoldBounded(bits[..|bits| - 1], exponents, q);
      M.PlusTimes(|bits| - 1, 1, q - 1);
    }
  }

  // ---------------------------------------------------------------- images

  ghost function Raise(K: Field, g: Elem, n: nat): Elem {
    if n == 0 then K.one else K.mul(Raise(K, g, n - 1), g)
  }

  lemma {:induction false} RaiseSum(K: Field, g: Elem, a: nat, b: nat)
    requires K.Valid()
    ensures Raise(K, g, a + b) == K.mul(Raise(K, g, a), Raise(K, g, b))
  {
    if b == 0 {
      K.Units(Raise(K, g, a));
    } else {
      RaiseSum(K, g, a, b - 1);
      K.Assoc(Raise(K, g, a), Raise(K, g, b - 1), g);
    }
  }

  /** The product of the images at the set bits. */
  ghost function LeafProduct(K: Field, bits: seq<bool>, images: seq<Elem>): Elem
    requires |bits| <= |images|
  {
    if |bits| == 0 then K.one
    else K.mul(LeafProduct(K, bits[..|bits| - 1], images), if bits[|bits| - 1] then images[|bits| - 1] else K.one)
  }

  ghost predicate Images(K: Field, g: Elem, exponents: seq<nat>, images: seq<Elem>) {
    |images| == |exponents| && forall i :: 0 <= i < |images| ==> images[i] == Raise(K, g, exponents[i])
  }

  /** The image of the fold is the product of the images. */
  lemma {:induction false} FoldImage(K: Field, g: Elem, bits: seq<bool>, exponents: seq<nat>, images: seq<Elem>)
    requires K.Valid() && Images(K, g, exponents, images) && |bits| <= |images|
    ensures Raise(K, g, Selected(bits, exponents)) == LeafProduct(K, bits, images)
  {
    if |bits| > 0 {
      var n := |bits| - 1;
      FoldImage(K, g, bits[..n], exponents, images);
      RaiseSum(K, g, Selected(bits[..n], exponents), if bits[n] then exponents[n] else 0);
    }
  }

  // ---------------------------------------------------------------- the gates

  /** The order of the field's multiplicative group. */
  const MULT_ORDER: nat := 0xFFFF_FFFF_FFFF_FFFF_FFFF_FFFF_FFFF_FFFF

  const MAX_MODULUS_BITS: nat := 126
  const MIN_PRIME_BITS: nat := 100

  ghost predicate FullOrder(K: Field, g: Elem) {
    && Raise(K, g, MULT_ORDER) == K.one
    && forall n: nat :: 0 < n < MULT_ORDER ==> Raise(K, g, n) != K.one
  }

  /** The fold gate. */
  predicate FoldGate(shape: Shape, q: nat) {
    shape.Rows() * q < MULT_ORDER
  }

  function FoldBound(shape: Shape, q: nat): int {
    shape.Rows() * (q - 1)
  }

  /** Under the gate every fold in the accepted range is determined by its image. */
  lemma {:induction false} ImageDeterminesFold(K: Field, g: Elem, shape: Shape, q: nat, a: nat, b: nat)
    requires K.Valid() && FullOrder(K, g) && q > 0 && FoldGate(shape, q)
    requires a <= FoldBound(shape, q) && b <= FoldBound(shape, q)
    ensures Raise(K, g, a) == Raise(K, g, b) <==> a == b
  {
    BoundBelowOrder(shape, q);
    hide FoldGate, FoldBound, Raise, K.Valid;
    if a < b && Raise(K, g, a) == Raise(K, g, b) { RaiseCancels(K, g, a, b - a); }
    if b < a && Raise(K, g, a) == Raise(K, g, b) { RaiseCancels(K, g, b, a - b); }
  }

  lemma {:induction false} BoundBelowOrder(shape: Shape, q: nat)
    requires q > 0 && FoldGate(shape, q)
    ensures FoldBound(shape, q) < MULT_ORDER
  {
    M.ProductMonotone(q - 1, q, shape.Rows());
    var rows := shape.Rows();
    assert rows * (q - 1) == (q - 1) * rows && rows * q == q * rows;
  }

  lemma {:induction false} RaiseCancels(K: Field, g: Elem, a: nat, d: nat)
    requires K.Valid() && FullOrder(K, g) && Raise(K, g, a + d) == Raise(K, g, a)
    ensures Raise(K, g, d) == K.one
  {
    var x, y := Raise(K, g, a), Raise(K, g, d);
    RaiseSum(K, g, a, d);
    RaiseNonzero(K, g, a);
    K.Units(x);
    K.Dist(x, y, K.one);
    K.ZeroSum(K.mul(x, y), K.mul(x, K.one));
    K.NoZeroDivisors(x, K.add(y, K.one));
    K.ZeroSum(y, K.one);
  }

  lemma {:induction false} RaiseNonzero(K: Field, g: Elem, n: nat)
    requires K.Valid() && FullOrder(K, g)
    ensures Raise(K, g, n) != K.zero
  {
    GeneratorNonzero(K, g);
    if n == 0 {
      assert K.one != K.zero;
    } else {
      RaiseNonzero(K, g, n - 1);
      K.NoZeroDivisors(Raise(K, g, n - 1), g);
    }
  }

  lemma {:induction false} GeneratorNonzero(K: Field, g: Elem)
    requires K.Valid() && FullOrder(K, g)
    ensures g != K.zero
  {
    assert K.one != K.zero;
    K.Units(Raise(K, g, MULT_ORDER - 1));
  }

  datatype WidthResult = Width(bits: nat) | PrimeTooNarrow

  /** `n.ilog2()` of a positive number. */
  function Ilog2(n: nat): (k: nat)
    requires n > 0
    ensures Pow2(k) <= n < 2 * Pow2(k)
  {
    if n == 1 then 0 else 1 + Ilog2(n / 2)
  }

  /** The width of the prime drawn for a shape. */
  function PrimeBits(shape: Shape): WidthResult {
    var maxModulus := (MULT_ORDER - 1) / shape.Rows();
    M.NonNegative(MULT_ORDER - 1, shape.Rows());
    var log := Ilog2(maxModulus + 1);
    var bits := if log < MAX_MODULUS_BITS then log else MAX_MODULUS_BITS;
    if bits < MIN_PRIME_BITS then PrimeTooNarrow else Width(bits)
  }

  /** The gate as a bound on the modulus. */
  lemma {:induction false} GateIsBound(shape: Shape, q: nat)
    ensures FoldGate(shape, q) <==> q <= (MULT_ORDER - 1) / shape.Rows()
  {
    var rows := shape.Rows();
    var most := (MULT_ORDER - 1) / rows;
    assert MULT_ORDER - 1 == most * rows + (MULT_ORDER - 1) % rows;
    if q <= most { M.ProductMonotone(q, most, rows); }
    else { M.ProductMonotone(most + 1, q, rows); M.PlusTimes(most, 1, rows); }
  }

  /** The width is the widest at which every modulus passes the gate, unless the field caps it. */
  lemma {:induction false} PrimeBitsWidest(shape: Shape, q: nat)
    requires PrimeBits(shape).Width?
    ensures var bits := PrimeBits(shape).bits;
      && MIN_PRIME_BITS <= bits <= MAX_MODULUS_BITS
      && (q < Pow2(bits) ==> FoldGate(shape, q))
      && (bits < MAX_MODULUS_BITS && q == Pow2(bits + 1) - 1 ==> !FoldGate(shape, q))
  {
    var most := (MULT_ORDER - 1) / shape.Rows();
    M.NonNegative(MULT_ORDER - 1, shape.Rows());
    var bits := PrimeBits(shape).bits;
    GateIsBound(shape, q);
    Pow2Monotone(bits, Ilog2(most + 1));
  }

  /** The logarithm the width is taken from. */
  ghost function GateLog(logRows: nat): nat {
    M.NonNegative(MULT_ORDER - 1, Pow2(logRows));
    Ilog2((MULT_ORDER - 1) / Pow2(logRows) + 1)
  }

  lemma {:induction false} WidthFromLog(shape: Shape)
    ensures var log := GateLog(shape.logRows);
      PrimeBits(shape) == if log < 100 then PrimeTooNarrow else Width(if log < 126 then log else 126)
  {
    hide Ilog2, Pow2;
  }

  lemma {:induction false} GateBetween(shape: Shape, q: nat)
    ensures q < Pow2(GateLog(shape.logRows)) ==> FoldGate(shape, q)
    ensures q >= Pow2(GateLog(shape.logRows) + 1) - 1 ==> !FoldGate(shape, q)
  {
    GateIsBound(shape, q);
    M.NonNegative(MULT_ORDER - 1, shape.Rows());
    var most: nat := (MULT_ORDER - 1) / shape.Rows();
    var log := Ilog2(most + 1);
    assert Pow2(log + 1) == 2 * Pow2(log);
    hide FoldGate, Ilog2;
  }

  /** A shape is refused exactly when the gate refuses some modulus of the least width. */
  lemma {:induction false} TooNarrowIff(shape: Shape)
    ensures PrimeBits(shape).PrimeTooNarrow? <==> exists q: nat :: q < Pow2(MIN_PRIME_BITS) && !FoldGate(shape, q)
  {
    WidthFromLog(shape);
    hide PrimeBits, GateLog, FoldGate, Pow2;
    var log := GateLog(shape.logRows);
    if log < 100 {
      Pow2Monotone(log + 1, MIN_PRIME_BITS);
      var q: nat := Pow2(MIN_PRIME_BITS) - 1;
      GateBetween(shape, q);
      assert q < Pow2(MIN_PRIME_BITS) && !FoldGate(shape, q);
    } else {
      Pow2Monotone(MIN_PRIME_BITS, log);
      forall q: nat | q < Pow2(MIN_PRIME_BITS) ensures FoldGate(shape, q) { GateBetween(shape, q); }
    }
  }

  /** The width by the number of row variables: `128` less them, from at most 126 down to 100. */
  lemma {:induction false} PrimeBitsAre(shape: Shape)
    ensures shape.logRows <= 1 ==> PrimeBits(shape) == Width(126)
    ensures 2 <= shape.logRows <= 28 ==> PrimeBits(shape) == Width(128 - shape.logRows)
    ensures shape.logRows > 28 ==> PrimeBits(shape) == PrimeTooNarrow
  {
    WidthFromLog(shape);
    hide PrimeBits, GateLog;
    LogOfGate(shape.logRows);
  }

  lemma {:induction false} LogOfGate(n: nat)
    ensures GateLog(n) == if n == 0 then 127 else if n <= 128 then 128 - n else 0
  {
    hide Ilog2, Pow2;
    M.NonNegative(MULT_ORDER - 1, Pow2(n));
    var most: nat := (MULT_ORDER - 1) / Pow2(n);
    assert GateLog(n) == Ilog2(most + 1);
    OrderIsPower();
    PowerZero();
    if n == 0 {
      LogIs(MULT_ORDER, 127);
    } else if n <= 128 {
      QuotientIsPower(n);
      LogIs(Pow2(128 - n), 128 - n);
    } else {
      Pow2Monotone(128, n);
      M.ModUnique(MULT_ORDER - 1, 0, MULT_ORDER - 1, Pow2(n));
      LogIs(1, 0);
    }
  }

  lemma {:induction false} QuotientIsPower(n: nat)
    requires 1 <= n <= 128
    ensures (MULT_ORDER - 1) / Pow2(n) + 1 == Pow2(128 - n)
  {
    OrderIsPower();
    PowerZero();
    hide Pow2;
    Pow2Sum(128 - n, n);
    Pow2Monotone(1, n);
    QuotientOfOrder(Pow2(128 - n), Pow2(n));
  }

  lemma {:induction false} PowerZero()
    ensures Pow2(0) == 1 && Pow2(1) == 2
  {
  }

  lemma {:induction false} OrderIsPower()
    ensures MULT_ORDER + 1 == Pow2(128) == 2 * Pow2(127)
  {
    M.RIsPower();
    Pow2Sum(127, 1);
    PowerZero();
  }

  lemma {:induction false} QuotientOfOrder(high: nat, low: nat)
    requires high * low == MULT_ORDER + 1 && low >= 2 && high >= 1
    ensures (MULT_ORDER - 1) / low + 1 == high
  {
    M.SubTimes(high, 1, low);
    M.ModUnique(MULT_ORDER - 1, high - 1, low - 2, low);
  }

  /** The logarithm is the only exponent around its number. */
  lemma {:induction false} LogIs(n: nat, k: nat)
    requires n > 0 && Pow2(k) <= n < 2 * Pow2(k)
    ensures Ilog2(n) == k
  {
    var log := Ilog2(n);
    if log < k { Pow2Monotone(log + 1, k); }
    if log > k { Pow2Monotone(k + 1, log); }
  }

  // ---------------------------------------------------------------- the reconstruction

  /** `sum_j v2[j] folds[j] mod q`, a product and a sum reduced at a time. */
  method Reconstruct(columnWeights: seq<nat>, folds: seq<nat>, q: nat) returns (value: FoldResult)
    requires q > 0
    ensures value.ColumnCountMismatch? <==> |folds| != |columnWeights|
    ensures value.Value? ==> value.residue == WeightedSum(columnWeights, folds) % q
  {
    if |folds| != |columnWeights| {
      return ColumnCountMismatch;
    }
    var sum: nat := 0;
    M.ModUnique(0, 0, 0, q);
    for j := 0 to |folds|
      invariant sum == WeightedSum(columnWeights[..j], folds[..j]) % q
    {
      WeightedStep(columnWeights, folds, j, q);
      sum := (sum + folds[j] % q * columnWeights[j] % q) % q;
    }
    assert columnWeights[..|folds|] == columnWeights && folds[..|folds|] == folds;
    return Value(sum);
  }

  datatype FoldResult = Value(residue: nat) | ColumnCountMismatch

  ghost function WeightedSum(weights: seq<nat>, folds: seq<nat>): int
    requires |weights| == |folds|
  {
    if |folds| == 0 then 0
    else WeightedSum(weights[..|folds| - 1], folds[..|folds| - 1]) + weights[|folds| - 1] * folds[|folds| - 1]
  }

  lemma {:induction false} WeightedStep(weights: seq<nat>, folds: seq<nat>, j: nat, q: nat)
    requires q > 0 && |weights| == |folds| && j < |folds|
    ensures 0 <= folds[j] % q * weights[j]
    ensures (WeightedSum(weights[..j], folds[..j]) % q + folds[j] % q * weights[j] % q) % q
      == WeightedSum(weights[..j + 1], folds[..j + 1]) % q
  {
    WeightedNext(weights, folds, j);
    M.ProductMonotone(0, folds[j] % q, weights[j]);
    T.ReduceFactor(folds[j], weights[j], q);
    SumOfResidues(WeightedSum(weights[..j], folds[..j]), weights[j] * folds[j], q);
  }

  lemma {:induction false} WeightedNext(weights: seq<nat>, folds: seq<nat>, j: nat)
    requires |weights| == |folds| && j < |folds|
    ensures WeightedSum(weights[..j + 1], folds[..j + 1]) == WeightedSum(weights[..j], folds[..j]) + weights[j] * folds[j]
  {
    var next := j + 1;
    assert weights[..next][..j] == weights[..j] && folds[..next][..j] == folds[..j];
  }

  lemma {:induction false} SumOfResidues(a: int, b: int, q: nat)
    requires q > 0
    ensures (a % q + b % q) % q == (a + b) % q
  {
    assert a + b == a % q + b % q + (a / q + b / q) * q by { M.PlusTimes(a / q, b / q, q); }
    T.Shift(a % q + b % q, a / q + b / q, q);
  }

  // ---------------------------------------------------------------- what the folds reconstruct

  /** The bits of row `row` across the columns. */
  ghost function RowBits(columns: seq<seq<bool>>, row: nat): (bits: seq<bool>)
    requires forall j :: 0 <= j < |columns| ==> row < |columns[j]|
    ensures |bits| == |columns| && forall j :: 0 <= j < |bits| ==> bits[j] == columns[j][row]
  {
    seq(|columns|, j requires 0 <= j < |columns| => columns[j][row])
  }

  ghost predicate Rectangular(columns: seq<seq<bool>>, rows: nat) {
    forall j :: 0 <= j < |columns| ==> |columns[j]| >= rows
  }

  /** `sum_i v1[i] sum_j v2[j] f[i][j]`, row by row. */
  ghost function BilinearValue(columns: seq<seq<bool>>, rows: nat, v1: seq<nat>, v2: seq<nat>): int
    requires Rectangular(columns, rows) && rows <= |v1| && |columns| <= |v2|
  {
    if rows == 0 then 0
    else BilinearValue(columns, rows - 1, v1, v2) + v1[rows - 1] * Selected(RowBits(columns, rows - 1), v2)
  }

  ghost function ColumnFolds(columns: seq<seq<bool>>, rows: nat, v1: seq<nat>): (folds: seq<nat>)
    requires Rectangular(columns, rows) && rows <= |v1|
    ensures |folds| == |columns|
    ensures forall j :: 0 <= j < |folds| ==> folds[j] == Selected(columns[j][..rows], v1)
  {
    seq(|columns|, j requires 0 <= j < |columns| => Selected(columns[j][..rows], v1))
  }

  /** Exchanging the sums: the weighted folds give the bilinear value of the table. */
  lemma {:induction false} FoldsReconstruct(columns: seq<seq<bool>>, rows: nat, v1: seq<nat>, v2: seq<nat>)
    requires Rectangular(columns, rows) && rows <= |v1| && |columns| == |v2|
    ensures WeightedSum(v2, ColumnFolds(columns, rows, v1)) == BilinearValue(columns, rows, v1, v2)
    decreases rows
  {
    if rows == 0 {
      ZeroFolds(v2, ColumnFolds(columns, 0, v1));
    } else {
      var row := rows - 1;
      FoldsReconstruct(columns, row, v1, v2);
      OneMoreRow(columns, row, v1, v2, |columns|);
      hide WeightedSum, Selected, Rectangular;
      assert columns[..|columns|] == columns && v2[..|v2|] == v2;
    }
  }

  lemma {:induction false} ZeroFolds(v2: seq<nat>, folds: seq<nat>)
    requires |v2| == |folds| && forall j :: 0 <= j < |folds| ==> folds[j] == 0
    ensures WeightedSum(v2, folds) == 0
  {
    if |folds| > 0 { ZeroFolds(v2[..|v2| - 1], folds[..|folds| - 1]); }
  }

  lemma {:induction false} OneMoreRow(columns: seq<seq<bool>>, row: nat, v1: seq<nat>, v2: seq<nat>, count: nat)
    requires Rectangular(columns, row + 1) && row < |v1| && count <= |columns| <= |v2|
    ensures WeightedSum(v2[..count], ColumnFolds(columns[..count], row + 1, v1))
      == WeightedSum(v2[..count], ColumnFolds(columns[..count], row, v1)) + v1[row] * Selected(RowBits(columns[..count], row), v2)
    decreases count
  {
    if count > 0 {
      var last := count - 1;
      OneMoreRow(columns, row, v1, v2, last);
      var bit := columns[last][row];
      Truncated(columns, row, v1, v2, count);
      Truncated(columns, row + 1, v1, v2, count);
      var next := row + 1;
      LastBit(columns[last], v1, row);
      LastOfRow(columns, row, v2, count);
      hide Selected, WeightedSum, Rectangular;
      SplitRow(v2[last], Selected(columns[last][..row], v1), v1[row], Selected(RowBits(columns[..last], row), v2), bit);
    }
  }

  lemma {:induction false} LastBit(column: seq<bool>, v1: seq<nat>, row: nat)
    requires row < |column| && row < |v1|
    ensures var next := row + 1;
      Selected(column[..next], v1) == Selected(column[..row], v1) + if column[row] then v1[row] else 0
  {
    var next := row + 1;
    assert column[..next][..row] == column[..row];
  }

  lemma {:induction false} LastOfRow(columns: seq<seq<bool>>, row: nat, v2: seq<nat>, count: nat)
    requires Rectangular(columns, row + 1) && 0 < count <= |columns| <= |v2|
    ensures Selected(RowBits(columns[..count], row), v2)
      == Selected(RowBits(columns[..count - 1], row), v2) + if columns[count - 1][row] then v2[count - 1] else 0
  {
    var last := count - 1;
    assert RowBits(columns[..count], row)[..last] == RowBits(columns[..last], row);
  }

  lemma {:induction false} Truncated(columns: seq<seq<bool>>, rows: nat, v1: seq<nat>, v2: seq<nat>, count: nat)
    requires Rectangular(columns, rows) && rows <= |v1| && 0 < count <= |columns| <= |v2|
    ensures WeightedSum(v2[..count], ColumnFolds(columns[..count], rows, v1))
      == WeightedSum(v2[..count - 1], ColumnFolds(columns[..count - 1], rows, v1))
        + v2[count - 1] * Selected(columns[count - 1][..rows], v1)
  {
    var last := count - 1;
    assert v2[..count][..last] == v2[..last] && columns[..count][..last] == columns[..last];
    assert ColumnFolds(columns[..count], rows, v1)[..last] == ColumnFolds(columns[..last], rows, v1);
  }

  lemma {:induction false} SplitRow(w: int, s: int, v: int, rest: int, bit: bool)
    ensures w * (s + if bit then v else 0) == w * s + (if bit then w * v else 0)
    ensures v * (rest + if bit then w else 0) == v * rest + (if bit then w * v else 0)
  {
  }

  /** The table's columns. */
  ghost function Columns(table: BitTable): (columns: seq<seq<bool>>)
    requires table.Valid()
    ensures |columns| == table.shape.Columns()
    ensures forall j :: 0 <= j < |columns| ==> columns[j] == ColumnBits(table, j)
    ensures Rectangular(columns, table.shape.Rows())
  {
    seq(table.shape.Columns(), j requires 0 <= j < table.shape.Columns() => ColumnBits(table, j))
  }

  /** Every column's fold, in column order. */
  method FoldAll(table: BitTable, exponents: seq<nat>) returns (folds: seq<nat>)
    requires table.Valid() && |exponents| == table.shape.Rows()
    ensures folds == ColumnFolds(Columns(table), table.shape.Rows(), exponents)
  {
    hide Selected, BitTable.Valid;
    folds := [];
    for j := 0 to table.shape.Columns()
      invariant |folds| == j
      invariant forall i :: 0 <= i < j ==> folds[i] == Selected(ColumnBits(table, i), exponents)
    {
      var fold := FoldColumn(table, exponents, j);
      folds := folds + [fold];
    }
    ghost var rows, columns := table.shape.Rows(), Columns(table);
    forall j | 0 <= j < |columns| ensures columns[j][..rows] == ColumnBits(table, j) {}
  }
}
