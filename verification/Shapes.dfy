/** Which shapes and parameters a proof is run over, and the gates in front of it. */
module Shapes {
  import opened Powers
  import opened Wrappers
  import opened FiniteField
  import opened Transposes
  import opened Folds

  datatype ShapeError = RowIndexTooNarrow | CommitmentSizeOutOfRange

  datatype ParamsError = ColumnCountTooNarrow | FoldBoundExceeded | GeneratorOrderNotFull

  function NewShape(logRows: nat, logColumns: nat): Result<Shape, ShapeError> {
    if logRows < PACK_BITS then Err(RowIndexTooNarrow)
    else if logRows > MAX_LOG_BITS || logColumns > MAX_LOG_BITS - logRows || logRows + logColumns < MIN_LOG_BITS then
      Err(CommitmentSizeOutOfRange)
    else Ok(Shape(logRows, logColumns))
  }

  /** The split of the benchmarks: three fifths of the variables, rounded up, index rows. */
  function ForLogBits(logBits: nat): Result<Shape, ShapeError> {
    if !(MIN_LOG_BITS <= logBits <= MAX_LOG_BITS) then Err(CommitmentSizeOutOfRange)
    else
      var logRows := (3 * logBits + 4) / 5;
      NewShape(logRows, logBits - logRows)
  }

  /** The gates that need only the parameters; `full` is the test of the generator's order. */
  function NewParams(shape: Shape, q: nat, full: bool): Result<Shape, ParamsError> {
    if shape.Columns() < BITS then Err(ColumnCountTooNarrow)
    else if !FoldGate(shape, q) then Err(FoldBoundExceeded)
    else if !full then Err(GeneratorOrderNotFull)
    else Ok(shape)
  }

  lemma {:induction false} Sizes()
    ensures Pow2(7) == 128 && Pow2(20) == 0x10_0000 && Pow2(35) == 0x8_0000_0000
  {
    assert Pow2(5) == 32;
    assert Pow2(7) == 128;
    hide Pow2;
    Pow2Sum(5, 5);
    Pow2Sum(10, 10);
    Pow2Sum(10, 5);
    Pow2Sum(20, 15);
  }

  lemma {:induction false} PowersOrdered(a: nat, b: nat)
    ensures Pow2(a) < Pow2(b) <==> a < b
  {
    if a < b { Pow2Monotone(a + 1, b); } else { Pow2Monotone(b, a); }
  }

  /** The admitted shapes in numbers of bits: 128 or more a column, from `2^20` to `2^35` in all. */
  lemma {:induction false} NewShapeIs(logRows: nat, logColumns: nat)
    ensures var bits := Pow2(logRows + logColumns);
      NewShape(logRows, logColumns) ==
        if Pow2(logRows) < 128 then Err(RowIndexTooNarrow)
        else if 0x10_0000 <= bits <= 0x8_0000_0000 then Ok(Shape(logRows, logColumns))
        else Err(CommitmentSizeOutOfRange)
    ensures NewShape(logRows, logColumns).Ok? <==> Shape(logRows, logColumns).Admissible()
  {
    Sizes();
    PowersOrdered(logRows, 7);
    PowersOrdered(logRows + logColumns, 20);
    PowersOrdered(35, logRows + logColumns);
    hide Pow2;
  }

  /** Every size in the window has its benchmark shape: rows are three fifths of the variables rounded up, the
      transpose has the columns it needs, and the prime it is proved over has at least 107 bits. */
  lemma {:induction false} BenchmarkShapes(logBits: nat)
    ensures ForLogBits(logBits).Ok? <==> 0x10_0000 <= Pow2(logBits) <= 0x8_0000_0000
    ensures ForLogBits(logBits).Ok? ==>
      var shape := ForLogBits(logBits).value;
      && shape.LogBits() == logBits && 3 * logBits <= 5 * shape.logRows < 3 * logBits + 5
      && shape.Columns() >= BITS && PrimeBits(shape) == Width(128 - shape.logRows) && 128 - shape.logRows >= 107
  {
    Sizes();
    PowersOrdered(logBits, 20);
    PowersOrdered(35, logBits);
    hide Pow2, PrimeBits;
    if 20 <= logBits <= 35 {
      var shape := Shape((3 * logBits + 4) / 5, logBits - (3 * logBits + 4) / 5);
      Pow2Monotone(7, shape.logColumns);
      PrimeBitsAre(shape);
    }
  }

  /** With a full generator, a prime of the shape's own width fails only for too few columns. */
  lemma {:induction false} OwnWidthPasses(shape: Shape, q: nat)
    requires PrimeBits(shape).Width? && q < Pow2(PrimeBits(shape).bits)
    ensures NewParams(shape, q, true) == if shape.Columns() < 128 then Err(ColumnCountTooNarrow) else Ok(shape)
  {
    PrimeBitsWidest(shape, q);
    hide PrimeBits, FoldGate, Pow2;
  }

  /** What the gates are for: under accepted parameters a fold in range is determined by its image. */
  lemma {:induction false} AcceptedParams(K: Field, g: Elem, shape: Shape, q: nat, full: bool, a: nat, b: nat)
    requires K.Valid() && (full ==> FullOrder(K, g)) && q > 0 && NewParams(shape, q, full).Ok?
    requires a <= FoldBound(shape, q) && b <= FoldBound(shape, q)
    ensures shape.Columns() >= 128 && (Raise(K, g, a) == Raise(K, g, b) <==> a == b)
  {
    ImageDeterminesFold(K, g, shape, q, a, b);
  }
}
