/** Tiled bit-matrix transposes, and the packed matrix whose transpose undoes itself. */
module BitMatrices {
  import M = Montgomery
  import opened Powers
  import opened Transposes

  // ---------------------------------------------------------------- the tiling

  /** Bit `(i1, i2)` of `words` read as rows of `width` words. */
  function BitAt(words: seq<Bits>, width: nat, i1: nat, i2: nat): bool
    requires i2 < width * BITS && i1 * width + i2 / BITS < |words|
  {
    words[i1 * width + i2 / BITS][i2 % BITS]
  }

  /** A word index of a matrix is a row and a word of it. */
  lemma {:induction false} RowAndWord(row: nat, g: nat, rows: nat, width: nat)
    requires row < rows && g < width
    ensures row * width + g < rows * width
    ensures (row * width + g) / width == row && (row * width + g) % width == g
  {
    M.ModUnique(row * width + g, row, g, width);
    M.PlusTimes(row, 1, width);
    M.ProductMonotone(row + 1, rows, width);
  }

  lemma {:induction false} RowBounded(index: nat, rows: nat, width: nat)
    requires width > 0 && index < rows * width
    ensures index / width < rows
  {
    var row := index / width;
    assert index == row * width + index % width;
    if row >= rows { M.ProductMonotone(rows, row, width); }
  }

  /** Where bit `a` of output word `index` is read: row `g * 128 + a`, column `index / d1`. */
  function InputWord(index: nat, a: nat, d1: nat, d2: nat): nat
    requires d1 > 0
  {
    (index % d1 * BITS + a) * d2 + index / d1 / BITS
  }

  lemma {:induction false} InputInside(index: nat, a: nat, d1: nat, d2: nat)
    requires d1 > 0 && a < BITS && index < d2 * BITS * d1
    ensures InputWord(index, a, d1, d2) < d1 * BITS * d2
  {
    RowBounded(index, d2 * BITS, d1);
    RowBounded(index / d1, d2, BITS);
    RowAndWord(index % d1, a, d1, BITS);
    RowAndWord(index % d1 * BITS + a, index / d1 / BITS, d1 * BITS, d2);
  }

  ghost predicate WordDone(xs: seq<Bits>, word: Bits, index: nat, d1: nat, d2: nat)
    requires d1 > 0 && |xs| == d1 * BITS * d2 && index < d2 * BITS * d1
  {
    forall a: nat :: a < BITS ==> BitDone(xs, word, index, d1, d2, a)
  }

  ghost predicate BitDone(xs: seq<Bits>, word: Bits, index: nat, d1: nat, d2: nat, a: nat)
    requires d1 > 0 && |xs| == d1 * BITS * d2 && index < d2 * BITS * d1 && a < BITS
  {
    InputInside(index, a, d1, d2);
    word[a] == xs[InputWord(index, a, d1, d2)][index / d1 % BITS]
  }

  /** The words written before block `(g2, g1)`, and the first `o` words of that block. */
  predicate Written(index: nat, d1: nat, g2: nat, g1: nat, o: nat)
    requires d1 > 0
  {
    var row, g := index / d1, index % d1;
    row / BITS < g2 || (row / BITS == g2 && (g < g1 || (g == g1 && row % BITS < o)))
  }

  ghost predicate Tiled(xs: seq<Bits>, out: seq<Bits>, d1: nat, d2: nat, g2: nat, g1: nat, o: nat)
    requires d1 > 0 && |xs| == d1 * BITS * d2 && |out| == d2 * BITS * d1
  {
    forall index: nat :: index < |out| && Written(index, d1, g2, g1, o) ==> WordDone(xs, out[index], index, d1, d2)
  }

  /** `out` read as `[dim2][dim1]` is `xs` read as `[dim1][dim2]`, axes swapped. */
  ghost predicate Swapped(xs: seq<Bits>, out: seq<Bits>, d1: nat, d2: nat)
  {
    && |xs| == d1 * BITS * d2 && |out| == d2 * BITS * d1
    && forall i1: nat, i2: nat :: i1 < d1 * BITS && i2 < d2 * BITS ==> SwappedBit(xs, out, d1, d2, i1, i2)
  }

  ghost predicate SwappedBit(xs: seq<Bits>, out: seq<Bits>, d1: nat, d2: nat, i1: nat, i2: nat)
    requires |xs| == d1 * BITS * d2 && |out| == d2 * BITS * d1 && i1 < d1 * BITS && i2 < d2 * BITS
  {
    Inside(i1, i2, d1, d2);
    Inside(i2, i1, d2, d1);
    BitAt(out, d1, i2, i1) == BitAt(xs, d2, i1, i2)
  }

  lemma {:induction false} Inside(i1: nat, i2: nat, d1: nat, d2: nat)
    requires i1 < d1 * BITS && i2 < d2 * BITS
    ensures i1 * d2 + i2 / BITS < d1 * BITS * d2
  {
    RowBounded(i2, d2, BITS);
    RowAndWord(i1, i2 / BITS, d1 * BITS, d2);
  }

  /** Transposes `dim1 x dim2` bits one block at a time; both axes are given in words. */
  method BitTranspose(xs: seq<Bits>, d1: nat, d2: nat) returns (out: array<Bits>)
    requires |xs| == d1 * BITS * d2
    ensures fresh(out) && Swapped(xs, out[..], d1, d2)
  {
    hide Tiled, Swapped, WordTurned, IsGathered;
    assert d1 * BITS * d2 == d2 * BITS * d1;
    var zero: Bits := seq(BITS, _ => false);
    out := new Bits[|xs|](_ => zero);
    var block := new Bits[BITS](_ => zero);
    var g2: nat := 0;
    if d1 > 0 { NothingTiled(xs, out[..], d1, d2); }
    while g2 < d2
      invariant g2 <= d2
      invariant d1 > 0 ==> Tiled(xs, out[..], d1, d2, g2, 0, 0)
      invariant fresh(out) && fresh(block) && out != block && block.Length == BITS && out.Length == |xs|
    {
      var g1: nat := 0;
      while g1 < d1
        invariant g1 <= d1
        invariant d1 > 0 ==> Tiled(xs, out[..], d1, d2, g2, g1, 0)
        invariant fresh(out) && fresh(block) && out != block && block.Length == BITS && out.Length == |xs|
      {
        Gather(xs, d1, d2, g2, g1, block);
        ghost var gathered: seq<Bits> := block[..];
        TransposeBitBlock(block);
        Turned(xs, d1, d2, g2, g1, gathered, block[..]);
        Scatter(xs, d1, d2, g2, g1, block, out);
        NextBlock(xs, out[..], d1, d2, g2, g1);
        g1 := g1 + 1;
      }
      if d1 > 0 { NextSweep(xs, out[..], d1, d2, g2); }
      g2 := g2 + 1;
    }
    AllTiled(xs, out[..], d1, d2);
  }

  lemma {:induction false} NothingTiled(xs: seq<Bits>, out: seq<Bits>, d1: nat, d2: nat)
    requires d1 > 0 && |xs| == d1 * BITS * d2 && |out| == d2 * BITS * d1
    ensures Tiled(xs, out, d1, d2, 0, 0, 0)
  {
  }

  lemma {:induction false} NextBlock(xs: seq<Bits>, out: seq<Bits>, d1: nat, d2: nat, g2: nat, g1: nat)
    requires d1 > 0 && |xs| == d1 * BITS * d2 && |out| == d2 * BITS * d1 && Tiled(xs, out, d1, d2, g2, g1, BITS)
    ensures Tiled(xs, out, d1, d2, g2, g1 + 1, 0)
  {
    hide WordDone;
    forall index: nat | index < |out| && Written(index, d1, g2, g1 + 1, 0)
      ensures WordDone(xs, out[index], index, d1, d2)
    {
      assert Written(index, d1, g2, g1, BITS);
    }
  }

  lemma {:induction false} NextSweep(xs: seq<Bits>, out: seq<Bits>, d1: nat, d2: nat, g2: nat)
    requires d1 > 0 && |xs| == d1 * BITS * d2 && |out| == d2 * BITS * d1 && Tiled(xs, out, d1, d2, g2, d1, 0)
    ensures Tiled(xs, out, d1, d2, g2 + 1, 0, 0)
  {
    hide WordDone;
    forall index: nat | index < |out| && Written(index, d1, g2 + 1, 0, 0)
      ensures WordDone(xs, out[index], index, d1, d2)
    {
      assert Written(index, d1, g2, d1, 0);
    }
  }

  /** Reads block `(g1, g2)`: word `a` is word `g2` of row `g1 * 128 + a`. */
  method Gather(xs: seq<Bits>, d1: nat, d2: nat, g2: nat, g1: nat, block: array<Bits>)
    requires block.Length == BITS && g1 < d1 && g2 < d2 && |xs| == d1 * BITS * d2
    modifies block
    ensures forall a: nat :: a < BITS ==> IsGathered(xs, d1, d2, g2, g1, a, block[a])
  {
    var a: nat := 0;
    while a < BITS
      invariant a <= BITS && forall b: nat :: b < a ==> IsGathered(xs, d1, d2, g2, g1, b, block[b])
    {
      BlockInside(g1, g2, a, d1, d2);
      block[a] := xs[(g1 * BITS + a) * d2 + g2];
      a := a + 1;
    }
  }

  ghost predicate IsGathered(xs: seq<Bits>, d1: nat, d2: nat, g2: nat, g1: nat, a: nat, word: Bits)
    requires a < BITS && g1 < d1 && g2 < d2 && |xs| == d1 * BITS * d2
  {
    BlockInside(g1, g2, a, d1, d2);
    word == xs[(g1 * BITS + a) * d2 + g2]
  }

  lemma {:induction false} BlockInside(g1: nat, g2: nat, a: nat, d1: nat, d2: nat)
    requires g1 < d1 && g2 < d2 && a < BITS
    ensures (g1 * BITS + a) * d2 + g2 < d1 * BITS * d2
    ensures var index := (g1 * BITS + a) * d2 + g2; index / d2 == g1 * BITS + a && index % d2 == g2
    ensures (g1 * BITS + a) / BITS == g1 && (g1 * BITS + a) % BITS == a
  {
    RowAndWord(g1, a, d1, BITS);
    RowAndWord(g1 * BITS + a, g2, d1 * BITS, d2);
  }

  /** Writes the transposed block: word `o` becomes word `g1` of output row `g2 * 128 + o`. */
  method Scatter(xs: seq<Bits>, d1: nat, d2: nat, g2: nat, g1: nat, block: array<Bits>, out: array<Bits>)
    requires block.Length == BITS && g1 < d1 && g2 < d2 && out != block
    requires |xs| == d1 * BITS * d2 && out.Length == d2 * BITS * d1
    requires forall o: nat :: o < BITS ==> WordTurned(xs, d1, d2, g2, g1, o, block[o])
    requires Tiled(xs, out[..], d1, d2, g2, g1, 0)
    modifies out
    ensures Tiled(xs, out[..], d1, d2, g2, g1, BITS)
  {
    hide Tiled, WordTurned;
    var o: nat := 0;
    while o < BITS
      invariant o <= BITS && Tiled(xs, out[..], d1, d2, g2, g1, o)
    {
      BlockInside(g2, g1, o, d2, d1);
      var index := (g2 * BITS + o) * d1 + g1;
      ghost var now: seq<Bits> := out[..];
      WriteWord(xs, now, d1, d2, g2, g1, o, block[o]);
      out[index] := block[o];
      assert out[..] == now[index := block[o]];
      o := o + 1;
    }
  }

  ghost predicate IsTurned(xs: seq<Bits>, d1: nat, d2: nat, g2: nat, g1: nat, o: nat, a: nat, bit: bool)
    requires o < BITS && a < BITS && g1 < d1 && g2 < d2 && |xs| == d1 * BITS * d2
  {
    BlockInside(g1, g2, a, d1, d2);
    bit == xs[(g1 * BITS + a) * d2 + g2][o]
  }

  /** Word `o` of the transposed block: its bit `a` is bit `o` of the word gathered as `a`. */
  ghost predicate WordTurned(xs: seq<Bits>, d1: nat, d2: nat, g2: nat, g1: nat, o: nat, word: Bits)
    requires o < BITS && g1 < d1 && g2 < d2 && |xs| == d1 * BITS * d2
  {
    forall a: nat :: a < BITS ==> IsTurned(xs, d1, d2, g2, g1, o, a, word[a])
  }

  lemma {:induction false} Turned(
    xs: seq<Bits>, d1: nat, d2: nat, g2: nat, g1: nat, gathered: seq<Bits>, block: seq<Bits>
  )
    requires g1 < d1 && g2 < d2 && |xs| == d1 * BITS * d2 && |gathered| == |block| == BITS
    requires forall a: nat :: a < BITS ==> IsGathered(xs, d1, d2, g2, g1, a, gathered[a])
    requires forall i: nat, c: nat :: i < BITS && c < BITS ==> block[i][c] == gathered[c][i]
    ensures forall o: nat :: o < BITS ==> WordTurned(xs, d1, d2, g2, g1, o, block[o])
  {
    forall o: nat, a: nat | o < BITS && a < BITS ensures IsTurned(xs, d1, d2, g2, g1, o, a, block[o][a]) {
      assert IsGathered(xs, d1, d2, g2, g1, a, gathered[a]);
      assert block[o][a] == gathered[a][o];
    }
  }

  lemma {:induction false} WriteWord(
    xs: seq<Bits>, now: seq<Bits>, d1: nat, d2: nat, g2: nat, g1: nat, o: nat, word: Bits
  )
    requires g1 < d1 && g2 < d2 && o < BITS && |xs| == d1 * BITS * d2 && |now| == d2 * BITS * d1
    requires WordTurned(xs, d1, d2, g2, g1, o, word)
    requires Tiled(xs, now, d1, d2, g2, g1, o)
    ensures (g2 * BITS + o) * d1 + g1 < |now|
    ensures Tiled(xs, now[(g2 * BITS + o) * d1 + g1 := word], d1, d2, g2, g1, o + 1)
  {
    hide WordDone, WordTurned;
    BlockInside(g2, g1, o, d2, d1);
    var at := (g2 * BITS + o) * d1 + g1;
    TurnedWord(xs, d1, d2, g2, g1, o, word);
    var next := o + 1;
    forall index: nat | index < |now| && Written(index, d1, g2, g1, next)
      ensures WordDone(xs, now[at := word][index], index, d1, d2)
    {
      WrittenStep(index, at, d1, g2, g1, o);
    }
  }

  /** Writing one more word of the block writes exactly the word `at`. */
  lemma {:induction false} WrittenStep(index: nat, at: nat, d1: nat, g2: nat, g1: nat, o: nat)
    requires g1 < d1 && o < BITS && at / d1 == g2 * BITS + o && at % d1 == g1
    ensures Written(index, d1, g2, g1, o + 1) ==> Written(index, d1, g2, g1, o) || index == at
  {
    SameRow(index / d1, g2, o);
    if index / d1 == at / d1 && index % d1 == at % d1 { SameIndex(index, at, d1); }
  }

  lemma {:induction false} TurnedWord(xs: seq<Bits>, d1: nat, d2: nat, g2: nat, g1: nat, o: nat, word: Bits)
    requires g1 < d1 && g2 < d2 && o < BITS && |xs| == d1 * BITS * d2
    requires WordTurned(xs, d1, d2, g2, g1, o, word)
    ensures (g2 * BITS + o) * d1 + g1 < d2 * BITS * d1
    ensures WordDone(xs, word, (g2 * BITS + o) * d1 + g1, d1, d2)
  {
    BlockInside(g2, g1, o, d2, d1);
    var at := (g2 * BITS + o) * d1 + g1;
    forall a: nat | a < BITS ensures BitDone(xs, word, at, d1, d2, a) {
      assert IsTurned(xs, d1, d2, g2, g1, o, a, word[a]);
      BlockInside(g1, g2, a, d1, d2);
    }
  }

  lemma {:induction false} SameIndex(index: nat, at: nat, d1: nat)
    requires d1 > 0 && index / d1 == at / d1 && index % d1 == at % d1
    ensures index == at
  {
    assert index == index / d1 * d1 + index % d1;
    assert at == at / d1 * d1 + at % d1;
  }

  lemma {:induction false} SameRow(row: nat, g2: nat, o: nat)
    requires o < BITS
    ensures row == g2 * BITS + o <==> row / BITS == g2 && row % BITS == o
  {
  }

  lemma {:induction false} AllTiled(xs: seq<Bits>, out: seq<Bits>, d1: nat, d2: nat)
    requires |xs| == d1 * BITS * d2 && |out| == d2 * BITS * d1
    requires d1 > 0 ==> Tiled(xs, out, d1, d2, d2, 0, 0)
    ensures Swapped(xs, out, d1, d2)
  {
    forall i1: nat, i2: nat | i1 < d1 * BITS && i2 < d2 * BITS ensures SwappedBit(xs, out, d1, d2, i1, i2) {
      Inside(i2, i1, d2, d1);
      Inside(i1, i2, d1, d2);
      RowBounded(i1, d1, BITS);
      RowBounded(i2, d2, BITS);
      var index := i2 * d1 + i1 / BITS;
      RowAndWord(i2, i1 / BITS, d2 * BITS, d1);
      assert Written(index, d1, d2, 0, 0);
      assert BitDone(xs, out[index], index, d1, d2, i1 % BITS);
    }
  }

  lemma {:induction false} SwappedSizes(xs: seq<Bits>, out: seq<Bits>, d1: nat, d2: nat)
    requires Swapped(xs, out, d1, d2)
    ensures |xs| == d1 * BITS * d2 && |out| == d2 * BITS * d1 && |xs| == |out|
  {
    assert d1 * BITS * d2 == d2 * BITS * d1;
  }

  lemma {:induction false} SwappedAt(xs: seq<Bits>, out: seq<Bits>, d1: nat, d2: nat, i1: nat, i2: nat)
    requires Swapped(xs, out, d1, d2) && i1 < d1 * BITS && i2 < d2 * BITS
    ensures i1 * d2 + i2 / BITS < |xs| && i2 * d1 + i1 / BITS < |out|
    ensures BitAt(out, d1, i2, i1) == BitAt(xs, d2, i1, i2)
  {
    Inside(i1, i2, d1, d2);
    Inside(i2, i1, d2, d1);
    SwappedSizes(xs, out, d1, d2);
    assert SwappedBit(xs, out, d1, d2, i1, i2);
    hide Swapped;
  }

  /** Transposing back gives the original words. */
  lemma {:induction false} SwappedTwice(xs: seq<Bits>, out: seq<Bits>, back: seq<Bits>, d1: nat, d2: nat)
    requires Swapped(xs, out, d1, d2) && Swapped(out, back, d2, d1)
    ensures back == xs
  {
    forall index: nat | index < |xs| ensures back[index] == xs[index] {
      forall c: nat | c < BITS ensures back[index][c] == xs[index][c] { SwappedTwiceAt(xs, out, back, d1, d2, index, c); }
    }
  }

  lemma {:induction false} SwappedTwiceAt(
    xs: seq<Bits>, out: seq<Bits>, back: seq<Bits>, d1: nat, d2: nat, index: nat, c: nat
  )
    requires Swapped(xs, out, d1, d2) && Swapped(out, back, d2, d1) && index < |xs| && c < BITS
    ensures back[index][c] == xs[index][c]
  {
    hide Swapped;
    SwappedSizes(xs, out, d1, d2);
    WidthPositive(d1 * BITS, d2, index);
    RowBounded(index, d1 * BITS, d2);
    RowAndWord(index % d2, c, d2, BITS);
    SwappedAt(xs, out, d1, d2, index / d2, index % d2 * BITS + c);
    SwappedAt(out, back, d2, d1, index % d2 * BITS + c, index / d2);
    SameIndex(index, index / d2 * d2 + index % d2, d2) by { RowAndWord(index / d2, index % d2, d1 * BITS, d2); }
  }

  lemma {:induction false} WidthPositive(rows: nat, width: nat, index: nat)
    requires index < rows * width
    ensures width > 0
  {
  }

  // ---------------------------------------------------------------- bit matrices

  /** Packed bits read as `xs[dim1][dim2]`; only the log of `dim2` is stored. */
  datatype BitMatrix = BitMatrix(packed: seq<Bits>, logDim2: nat) {
    ghost predicate Valid() {
      exists bits: nat :: |packed| * BITS == Pow2(bits) && logDim2 <= bits
    }

    function Dim2(): nat {
      Pow2(logDim2)
    }

    function Dim1(): nat {
      M.NonNegative(|packed| * BITS, Pow2(logDim2));
      |packed| * BITS / Pow2(logDim2)
    }

    /** The matrices `Transpose` accepts: both axes are whole words. */
    ghost predicate Wide() {
      Valid() && Dim1() % BITS == 0 && Dim2() % BITS == 0
    }

    /** Bit `(i1, i2)` is bit `i1 * dim2 + i2` of the words. */
    ghost function Bit(i1: nat, i2: nat): bool
      requires Valid() && i1 < Dim1() && i2 < Dim2()
    {
      BitInside(this, i1, i2);
      packed[(i1 * Dim2() + i2) / BITS][(i1 * Dim2() + i2) % BITS]
    }

    method Transpose() returns (r: BitMatrix)
      requires Wide()
      ensures r.Wide() && Transposed(this, r)
    {
      ghost var log1 := Axes(this);
      var dim1, dim2 := Dim1(), Dim2();
      var d1, d2 := dim1 / BITS, dim2 / BITS;
      assert |packed| == d1 * BITS * d2 by { WholeWords(|packed|, dim1, dim2, d1, d2); }
      var out := BitTranspose(packed, d1, d2);
      var logDim1 := TrailingZeros(dim1);
      r := BitMatrix(out[..], logDim1);
      TransposedWords(this, r, d1, d2);
    }
  }

  ghost predicate Transposed(m: BitMatrix, r: BitMatrix)
    requires m.Valid() && r.Valid()
  {
    && r.Dim1() == m.Dim2() && r.Dim2() == m.Dim1()
    && forall i1: nat, i2: nat :: i1 < m.Dim1() && i2 < m.Dim2() ==> r.Bit(i2, i1) == m.Bit(i1, i2)
  }

  lemma {:induction false} Axes(m: BitMatrix) returns (log1: nat)
    requires m.Valid()
    ensures m.Dim1() == Pow2(log1) && |m.packed| * BITS == m.Dim1() * m.Dim2() == Pow2(log1 + m.logDim2)
    ensures TrailingZeros(m.Dim1()) == log1
  {
    var bits: nat :| |m.packed| * BITS == Pow2(bits) && m.logDim2 <= bits;
    log1 := bits - m.logDim2;
    Pow2Sum(log1, m.logDim2);
    M.ModUnique(Pow2(bits), Pow2(log1), 0, Pow2(m.logDim2));
    TrailingZerosOfPower(log1);
  }

  lemma {:induction false} BitInside(m: BitMatrix, i1: nat, i2: nat)
    requires m.Valid() && i1 < m.Dim1() && i2 < m.Dim2()
    ensures (i1 * m.Dim2() + i2) / BITS < |m.packed|
  {
    var log1 := Axes(m);
    RowAndWord(i1, i2, m.Dim1(), m.Dim2());
    RowBounded(i1 * m.Dim2() + i2, |m.packed|, BITS);
  }

  lemma {:induction false} WholeWords(words: nat, dim1: nat, dim2: nat, d1: nat, d2: nat)
    requires words * BITS == dim1 * dim2 && dim1 == d1 * BITS && dim2 == d2 * BITS
    ensures words == d1 * BITS * d2
  {
    assert dim1 * dim2 == d1 * BITS * d2 * BITS by { M.Assoc(dim1, d2, BITS); }
  }

  /** A bit of a matrix whose rows are whole words. */
  lemma {:induction false} WideBit(m: BitMatrix, width: nat, i1: nat, i2: nat)
    requires m.Valid() && m.Dim2() == width * BITS && i1 < m.Dim1() && i2 < m.Dim2()
    ensures i1 * width + i2 / BITS < |m.packed| && m.Bit(i1, i2) == BitAt(m.packed, width, i1, i2)
  {
    BitInside(m, i1, i2);
    M.Assoc(i1, width, BITS);
    M.PlusTimes(i1 * width, i2 / BITS, BITS);
    M.ModUnique(i1 * m.Dim2() + i2, i1 * width + i2 / BITS, i2 % BITS, BITS);
  }

  /** As many words, with the axes exchanged. */
  lemma {:induction false} ExchangedAxes(m: BitMatrix, r: BitMatrix)
    requires m.Valid() && |r.packed| == |m.packed| && r.logDim2 == TrailingZeros(m.Dim1())
    ensures r.Valid() && r.Dim2() == m.Dim1() && r.Dim1() == m.Dim2()
  {
    var log1 := Axes(m);
    assert |r.packed| * BITS == Pow2(log1 + m.logDim2);
    M.ModUnique(|r.packed| * BITS, m.Dim2(), 0, Pow2(log1));
  }

  lemma {:induction false} TransposedWords(m: BitMatrix, r: BitMatrix, d1: nat, d2: nat)
    requires m.Wide() && m.Dim1() == d1 * BITS && m.Dim2() == d2 * BITS && r.logDim2 == TrailingZeros(m.Dim1())
    requires Swapped(m.packed, r.packed, d1, d2)
    ensures r.Wide() && Transposed(m, r)
  {
    hide Swapped, BitMatrix.Dim1, BitMatrix.Dim2, BitMatrix.Valid, BitMatrix.Bit;
    SwappedSizes(m.packed, r.packed, d1, d2);
    ExchangedAxes(m, r);
    forall i1: nat, i2: nat | i1 < m.Dim1() && i2 < m.Dim2() ensures r.Bit(i2, i1) == m.Bit(i1, i2) {
      WideBit(m, d2, i1, i2);
      WideBit(r, d1, i2, i1);
      SwappedAt(m.packed, r.packed, d1, d2, i1, i2);
    }
  }

  lemma {:induction false} BitOfWord(m: BitMatrix, n: BitMatrix, index: nat, c: nat)
    requires m.Wide() && n.Valid() && m.Dim1() == n.Dim1() && m.Dim2() == n.Dim2()
    requires |m.packed| == |n.packed| && index < |m.packed| && c < BITS
    requires forall i1: nat, i2: nat :: i1 < m.Dim1() && i2 < m.Dim2() ==> n.Bit(i1, i2) == m.Bit(i1, i2)
    ensures n.packed[index][c] == m.packed[index][c]
  {
    hide BitMatrix.Dim1, BitMatrix.Dim2, BitMatrix.Valid, BitMatrix.Bit;
    var log1 := Axes(m);
    var rows, columns := m.Dim1(), m.Dim2();
    var width := columns / BITS;
    WholeWords(|m.packed|, rows, columns, rows / BITS, width);
    WidthPositive(rows, width, index);
    RowBounded(index, rows, width);
    RowAndWord(index % width, c, width, BITS);
    WideBit(m, width, index / width, index % width * BITS + c);
    WideBit(n, width, index / width, index % width * BITS + c);
    SameIndex(index, index / width * width + index % width, width)
    by { RowAndWord(index / width, index % width, rows, width); }
  }

  lemma {:induction false} EqualAxes(m: BitMatrix, n: BitMatrix)
    requires m.Valid() && n.Valid() && m.Dim1() == n.Dim1() && m.Dim2() == n.Dim2()
    ensures m.logDim2 == n.logDim2 && |m.packed| == |n.packed|
  {
    TrailingZerosOfPower(m.logDim2);
    TrailingZerosOfPower(n.logDim2);
    hide BitMatrix.Dim1, BitMatrix.Valid;
    var log1 := Axes(m);
    var log1' := Axes(n);
  }

  /** A matrix is determined by its axes and bits. */
  lemma {:induction false} BitsDetermine(m: BitMatrix, n: BitMatrix)
    requires m.Wide() && n.Wide() && m.Dim1() == n.Dim1() && m.Dim2() == n.Dim2()
    requires forall i1: nat, i2: nat :: i1 < m.Dim1() && i2 < m.Dim2() ==> n.Bit(i1, i2) == m.Bit(i1, i2)
    ensures m == n
  {
    EqualAxes(m, n);
    hide BitMatrix.Dim1, BitMatrix.Dim2, BitMatrix.Valid, BitMatrix.Bit;
    forall index: nat, c: nat | index < |m.packed| && c < BITS ensures n.packed[index][c] == m.packed[index][c] {
      BitOfWord(m, n, index, c);
    }
    forall index: nat | index < |m.packed| ensures n.packed[index] == m.packed[index] {
      assert forall c: nat :: c < BITS ==> n.packed[index][c] == m.packed[index][c];
    }
    assert m.packed == n.packed;
  }

  /** Transposition is an involution. */
  lemma {:induction false} TransposedTwice(m: BitMatrix, r: BitMatrix, b: BitMatrix)
    requires m.Wide() && r.Wide() && b.Wide() && Transposed(m, r) && Transposed(r, b)
    ensures b == m
  {
    forall i1: nat, i2: nat | i1 < m.Dim1() && i2 < m.Dim2() ensures b.Bit(i1, i2) == m.Bit(i1, i2) {
      assert r.Bit(i2, i1) == m.Bit(i1, i2) && b.Bit(i1, i2) == r.Bit(i2, i1);
    }
    BitsDetermine(m, b);
  }
}
