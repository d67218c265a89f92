/** The ring-switch transpose: 128 rows held as two half words, exchanged stage by stage. */
module TensorTranspose {
  import M = Montgomery
  import opened Transposes

  const HALF: nat := 64

  type Half = s: seq<bool> | |s| == 64 witness seq(64, _ => false)

  datatype Row = Row(lo: Half, hi: Half)

  /** The row as one word, low half first. */
  function Joined(row: Row): (w: Bits)
    ensures forall c: nat :: c < BITS ==> w[c] == if c < HALF then row.lo[c] else row.hi[c - HALF]
  {
    row.lo + row.hi
  }

  function Words(rows: seq<Row>): (words: seq<Bits>)
    ensures |words| == |rows| && forall i: nat :: i < |rows| ==> words[i] == Joined(rows[i])
  {
    seq(|rows|, i requires 0 <= i < |rows| => Joined(rows[i]))
  }

  // ---------------------------------------------------------------- the first stage

  /** Whole half words change places across the quadrants. */
  method SwapQuadrants(a: array<Row>)
    requires a.Length == BITS
    modifies a
    ensures forall i: nat :: i < BITS ==> IsExchanged(Words(old(a[..])), HALF, i, Joined(a[i]))
  {
    hide IsExchanged, QuadrantSwapped;
    ghost var before: seq<Row> := a[..];
    var i: nat := 0;
    while i < HALF
      invariant i <= HALF
      invariant forall k: nat :: k < i ==> QuadrantSwapped(before, a[..], k)
      invariant forall k: nat :: i <= k < HALF ==> a[k] == before[k]
      invariant forall k: nat :: i + HALF <= k < BITS ==> a[k] == before[k]
    {
      ghost var now: seq<Row> := a[..];
      var top, bottom := a[i], a[i + HALF];
      a[i], a[i + HALF] := Row(top.lo, bottom.lo), Row(top.hi, bottom.hi);
      QuadrantStep(before, now, a[..], i);
      i := i + 1;
    }
    AllQuadrants(before, a[..]);
  }

  ghost predicate QuadrantSwapped(before: seq<Row>, now: seq<Row>, k: nat)
    requires |before| == |now| == BITS && k < HALF
  {
    && now[k] == Row(before[k].lo, before[k + 64].lo)
    && now[k + 64] == Row(before[k].hi, before[k + 64].hi)
  }

  lemma {:induction false} QuadrantStep(before: seq<Row>, now: seq<Row>, after: seq<Row>, i: nat)
    requires |before| == |now| == |after| == BITS && i < HALF
    requires now[i] == before[i] && now[i + 64] == before[i + 64]
    requires forall k: nat :: k < i ==> QuadrantSwapped(before, now, k)
    requires after == now[i := Row(now[i].lo, now[i + 64].lo)][i + 64 := Row(now[i].hi, now[i + 64].hi)]
    ensures forall k: nat :: k <= i ==> QuadrantSwapped(before, after, k)
  {
    forall k: nat | k <= i ensures QuadrantSwapped(before, after, k) {
      assert k < i ==> QuadrantSwapped(before, now, k);
    }
  }

  lemma {:induction false} AllQuadrants(before: seq<Row>, now: seq<Row>)
    requires |before| == |now| == BITS && forall k: nat :: k < HALF ==> QuadrantSwapped(before, now, k)
    ensures forall i: nat :: i < BITS ==> IsExchanged(Words(before), HALF, i, Joined(now[i]))
  {
    hide IsExchanged;
    forall i: nat | i < BITS ensures IsExchanged(Words(before), HALF, i, Joined(now[i])) {
      var k := if i < HALF then i else i - 64;
      assert QuadrantSwapped(before, now, k);
      Quadrants(before, k, now[k], now[k + 64]);
    }
  }

  lemma {:induction false} Quadrants(before: seq<Row>, k: nat, top: Row, bottom: Row)
    requires |before| == BITS && k < HALF
    requires top == Row(before[k].lo, before[k + 64].lo) && bottom == Row(before[k].hi, before[k + 64].hi)
    ensures IsExchanged(Words(before), HALF, k, Joined(top))
    ensures IsExchanged(Words(before), HALF, k + 64, Joined(bottom))
  {
    var words := Words(before);
    forall c: nat | c < BITS
      ensures Joined(top)[c] == ExchangedBit(words, HALF, k, c)
      ensures Joined(bottom)[c] == ExchangedBit(words, HALF, k + 64, c)
    {
    }
  }

  // ---------------------------------------------------------------- the later stages

  /** One pair of rows: the blocks of both half words change places. */
  method ExchangeRows(top: Row, bottom: Row, j: nat, mask: Half) returns (top': Row, bottom': Row)
    requires j > 0 && HALF % (2 * j) == 0 && IsMask(mask, j)
    ensures PairExchanged(Joined(top), Joined(bottom), j, Joined(top'), Joined(bottom'))
  {
    hide IsMask, PairExchanged;
    var topLo, bottomLo := ExchangePair(top.lo, bottom.lo, j, mask);
    var topHi, bottomHi := ExchangePair(top.hi, bottom.hi, j, mask);
    ExchangedSizes(top.lo, bottom.lo, j, topLo, bottomLo);
    ExchangedSizes(top.hi, bottom.hi, j, topHi, bottomHi);
    top', bottom' := Row(topLo, topHi), Row(bottomLo, bottomHi);
    HalvesJoin(top, bottom, j, top', bottom');
  }

  lemma {:induction false} HalvesJoin(top: Row, bottom: Row, j: nat, top': Row, bottom': Row)
    requires j > 0 && HALF % (2 * j) == 0
    requires PairExchanged(top.lo, bottom.lo, j, top'.lo, bottom'.lo)
    requires PairExchanged(top.hi, bottom.hi, j, top'.hi, bottom'.hi)
    ensures PairExchanged(Joined(top), Joined(bottom), j, Joined(top'), Joined(bottom'))
  {
    hide Has;
    forall c: nat | c < BITS ensures PairBit(Joined(top), Joined(bottom), j, Joined(top'), Joined(bottom'), c) {
      if c < HALF {
        assert PairBit(top.lo, bottom.lo, j, top'.lo, bottom'.lo, c);
      } else {
        HighHalf(c - HALF, j);
        assert PairBit(top.hi, bottom.hi, j, top'.hi, bottom'.hi, c - HALF);
      }
    }
  }

  /** Sixty-four columns on, the index bit is the same. */
  lemma {:induction false} HighHalf(c: nat, j: nat)
    requires j > 0 && HALF % (2 * j) == 0
    ensures Has(c + 64, j) == Has(c, j)
  {
    var high, bit, low := Parts(c, j);
    var blocks := HALF / (2 * j);
    assert 64 == blocks * (2 * j);
    M.PlusTimes(high, blocks, 2 * j);
    FromParts(high + blocks, bit, low, j);
  }

  /** Rows `b .. b + 2 j` in pairs, block after block. */
  method SwapBlocks(a: array<Row>, j: nat, mask: Half)
    requires a.Length == BITS && j > 0 && HALF % (2 * j) == 0 && BITS % (2 * j) == 0 && IsMask(mask, j)
    modifies a
    ensures forall i: nat :: i < BITS ==> IsExchanged(Words(old(a[..])), j, i, Joined(a[i]))
  {
    hide Has, IsExchanged, IsMask, Walked, PairExchanged, NextRow;
    ghost var before: seq<Row> := a[..];
    var b: nat, chunk: nat := 0, 0;
    WalkStart(Words(before), j);
    while b < BITS
      invariant b == chunk * (2 * j) && b <= BITS && Walked(Words(before), Words(a[..]), j, b)
      decreases BITS - b
    {
      BlockFits(chunk, 0, j, BITS);
      var t: nat := 0;
      while t < j
        invariant t <= j && b == chunk * (2 * j) && b + 2 * j <= BITS
        invariant Walked(Words(before), Words(a[..]), j, if t < j then b + t else b + 2 * j)
      {
        NextInBlock(chunk, t, j);
        var k := b + t;
        var top, bottom := ExchangeRows(a[k], a[k + j], j, mask);
        ghost var now: seq<Row> := a[..];
        WalkPair(Words(before), Words(now), j, k, Joined(top), Joined(bottom));
        a[k] := top;
        a[k + j] := bottom;
        assert Words(a[..]) == Words(now)[k := Joined(top)][k + j := Joined(bottom)];
        t := t + 1;
      }
      b := b + 2 * j;
      chunk := chunk + 1;
    }
    WalkEnd(Words(before), Words(a[..]), j, b);
  }

  /** Inside a block the walk goes to the next row, and from its last pair to the next block. */
  lemma {:induction false} NextInBlock(chunk: nat, t: nat, j: nat)
    requires j > 0 && t < j
    ensures var k := chunk * (2 * j) + t;
      !Has(k, j) && NextRow(k, j) == if t + 1 < j then k + 1 else chunk * (2 * j) + 2 * j
  {
    hide Has;
    var k := chunk * (2 * j) + t;
    assert k == chunk * (2 * j) + 0 * j + t;
    FromParts(chunk, 0, t, j);
    if t + 1 < j {
      FromParts(chunk, 1, t + 1, j);
      assert k + j + 1 == chunk * (2 * j) + 1 * j + (t + 1);
    } else {
      M.PlusTimes(chunk, 1, 2 * j);
      FromParts(chunk + 1, 0, 0, j);
      assert k + j + 1 == (chunk + 1) * (2 * j) + 0 * j + 0;
    }
  }

  // ---------------------------------------------------------------- the masks

  type Digit = s: seq<bool> | |s| == 4 witness [false, false, false, false]

  const D0: Digit := [false, false, false, false]
  const D3: Digit := [true, true, false, false]
  const D5: Digit := [true, false, true, false]
  const DF: Digit := [true, true, true, true]

  /** A 64-bit constant from its sixteen hexadecimal digits, least significant first. */
  function Hex(digits: seq<Digit>): (mask: Half)
    requires |digits| == 16
    ensures forall c: nat :: c < HALF ==> mask[c] == digits[c / 4][c % 4]
  {
    seq(HALF, c requires 0 <= c < HALF => digits[c / 4][c % 4])
  }

  const DIGITS_32: seq<Digit> := [DF, DF, DF, DF, DF, DF, DF, DF, D0, D0, D0, D0, D0, D0, D0, D0]
  const DIGITS_16: seq<Digit> := [DF, DF, DF, DF, D0, D0, D0, D0, DF, DF, DF, DF, D0, D0, D0, D0]
  const DIGITS_8: seq<Digit> := [DF, DF, D0, D0, DF, DF, D0, D0, DF, DF, D0, D0, DF, DF, D0, D0]
  const DIGITS_4: seq<Digit> := [DF, D0, DF, D0, DF, D0, DF, D0, DF, D0, DF, D0, DF, D0, DF, D0]
  const DIGITS_2: seq<Digit> := [D3, D3, D3, D3, D3, D3, D3, D3, D3, D3, D3, D3, D3, D3, D3, D3]
  const DIGITS_1: seq<Digit> := [D5, D5, D5, D5, D5, D5, D5, D5, D5, D5, D5, D5, D5, D5, D5, D5]

  lemma {:induction false} DigitsAlternate(n: nat)
    requires n < 16
    ensures DIGITS_32[n] == if n / 8 % 2 == 0 then DF else D0
    ensures DIGITS_16[n] == if n / 4 % 2 == 0 then DF else D0
  {
  }

  lemma {:induction false} DigitsAlternateFast(n: nat)
    requires n < 16
    ensures DIGITS_8[n] == if n / 2 % 2 == 0 then DF else D0
    ensures DIGITS_4[n] == if n % 2 == 0 then DF else D0
  {
  }

  lemma {:induction false} DigitsRepeat(n: nat)
    requires n < 16
    ensures DIGITS_2[n] == D3 && DIGITS_1[n] == D5
  {
  }

  /** Digits that alternate every `q` give the mask of weight `4 q`. */
  lemma {:induction false} WideMask(digits: seq<Digit>, q: nat)
    requires |digits| == 16 && q in {1, 2, 4, 8}
    requires forall n: nat :: n < 16 ==> digits[n] == if n / q % 2 == 0 then DF else D0
    ensures IsMask(Hex(digits), 4 * q)
  {
    forall c: nat | c < HALF ensures Hex(digits)[c] == !Has(c, 4 * q) {
      var n, b := c / 4, c % 4;
      assert Hex(digits)[c] == digits[n][b] && (DF[b] && !D0[b]);
      assert c / (4 * q) == n / q;
    }
  }

  lemma {:induction false} MasksAreMasks()
    ensures IsMask(Hex(DIGITS_32), 32) && IsMask(Hex(DIGITS_16), 16) && IsMask(Hex(DIGITS_8), 8)
    ensures IsMask(Hex(DIGITS_4), 4) && IsMask(Hex(DIGITS_2), 2) && IsMask(Hex(DIGITS_1), 1)
  {
    forall n: nat | n < 16
      ensures DIGITS_32[n] == if n / 8 % 2 == 0 then DF else D0
      ensures DIGITS_16[n] == if n / 4 % 2 == 0 then DF else D0
      ensures DIGITS_8[n] == if n / 2 % 2 == 0 then DF else D0
      ensures DIGITS_4[n] == if n / 1 % 2 == 0 then DF else D0
      ensures DIGITS_2[n] == D3 && DIGITS_1[n] == D5
    {
      DigitsAlternate(n);
      DigitsAlternateFast(n);
      DigitsRepeat(n);
    }
    WideMask(DIGITS_32, 8);
    WideMask(DIGITS_16, 4);
    WideMask(DIGITS_8, 2);
    WideMask(DIGITS_4, 1);
    NarrowMasks(DIGITS_2, DIGITS_1);
  }

  lemma {:induction false} NarrowMasks(pairs: seq<Digit>, singles: seq<Digit>)
    requires |pairs| == |singles| == 16 && forall n: nat :: n < 16 ==> pairs[n] == D3 && singles[n] == D5
    ensures IsMask(Hex(pairs), 2) && IsMask(Hex(singles), 1)
  {
    forall c: nat | c < HALF ensures Hex(pairs)[c] == !Has(c, 2) && Hex(singles)[c] == !Has(c, 1) {
      var n, b := c / 4, c % 4;
      assert Hex(pairs)[c] == D3[b] && Hex(singles)[c] == D5[b];
      assert b == 0 || b == 1 || b == 2 || b == 3;
    }
  }

  // ---------------------------------------------------------------- the whole transpose

  /** Bit `row` of output row `column` is bit `column` of input row `row`. */
  method TensorAlgebraTranspose(input: seq<Row>) returns (output: array<Row>)
    requires |input| == BITS
    ensures fresh(output) && output.Length == BITS
    ensures forall column: nat, row: nat :: column < BITS && row < BITS ==>
      Joined(output[column])[row] == Joined(input[row])[column]
  {
    hide IsExchanged, FromSource, IsMask;
    output := new Row[BITS](i requires 0 <= i < BITS => input[i]);
    assert output[..] == input;
    ghost var before := Words(input);
    FirstStage(before);
    SwapQuadrants(output);
    StageSource(before, before, Words(output[..]), 64);
    MasksAreMasks();
    NextStage(output, 32, Hex(DIGITS_32), before);
    NextStage(output, 16, Hex(DIGITS_16), before);
    NextStage(output, 8, Hex(DIGITS_8), before);
    NextStage(output, 4, Hex(DIGITS_4), before);
    NextStage(output, 2, Hex(DIGITS_2), before);
    NextStage(output, 1, Hex(DIGITS_1), before);
    LastStage(before, Words(output[..]));
  }

  /** One later stage exchanges one more index bit. */
  method NextStage(a: array<Row>, j: nat, mask: Half, ghost before: seq<Bits>)
    requires a.Length == BITS && j > 0 && HALF % (2 * j) == 0 && BITS % (2 * j) == 0 && BITS % j == 0
    requires IsMask(mask, j) && FromSource(before, Words(a[..]), 2 * j)
    modifies a
    ensures FromSource(before, Words(a[..]), j)
  {
    hide IsExchanged, FromSource, IsMask;
    ghost var middle := Words(a[..]);
    SwapBlocks(a, j, mask);
    StageSource(before, middle, Words(a[..]), j);
  }

  /** Transposing twice returns the input. */
  lemma {:induction false} TransposedBack(input: seq<Row>, middle: seq<Row>, output: seq<Row>)
    requires |input| == |middle| == |output| == BITS
    requires forall column: nat, row: nat :: column < BITS && row < BITS ==>
      Joined(middle[column])[row] == Joined(input[row])[column]
    requires forall column: nat, row: nat :: column < BITS && row < BITS ==>
      Joined(output[column])[row] == Joined(middle[row])[column]
    ensures output == input
  {
    forall i: nat | i < BITS ensures output[i] == input[i] {
      forall c: nat | c < BITS ensures Joined(output[i])[c] == Joined(input[i])[c] {
        assert Joined(output[i])[c] == Joined(middle[c])[i];
      }
      assert Joined(output[i]) == Joined(input[i]);
      JoinedOnce(output[i], input[i]);
    }
  }

  lemma {:induction false} JoinedOnce(a: Row, b: Row)
    requires Joined(a) == Joined(b)
    ensures a == b
  {
    assert a.lo == Joined(a)[..64] == b.lo;
    assert a.hi == Joined(a)[64..] == b.hi;
  }
}
