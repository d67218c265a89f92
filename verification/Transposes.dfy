/** Recursive-doubling bit transposes: blocks in place, tiled matrices, and the split-word form. */
module Transposes {
  import M = Montgomery

  const BITS: nat := 128

  /** A word, least significant bit first. */
  type Bits = s: seq<bool> | |s| == 128 witness seq(128, _ => false)

  // ---------------------------------------------------------------- word operations

  function ShiftRight(w: seq<bool>, j: nat): (r: seq<bool>)
    ensures |r| == |w| && forall c: nat :: c < |w| ==> r[c] == (c + j < |w| && w[c + j])
  {
    seq(|w|, c requires 0 <= c < |w| => c + j < |w| && w[c + j])
  }

  function ShiftLeft(w: seq<bool>, j: nat): (r: seq<bool>)
    ensures |r| == |w| && forall c: nat :: c < |w| ==> r[c] == (c >= j && w[c - j])
  {
    seq(|w|, c requires 0 <= c < |w| => c >= j && w[c - j])
  }

  function Xor(v: seq<bool>, w: seq<bool>): (r: seq<bool>)
    requires |v| == |w|
    ensures |r| == |v| && forall c: nat :: c < |v| ==> r[c] == (v[c] != w[c])
  {
    seq(|v|, c requires 0 <= c < |v| => v[c] != w[c])
  }

  function And(v: seq<bool>, w: seq<bool>): (r: seq<bool>)
    requires |v| == |w|
    ensures |r| == |v| && forall c: nat :: c < |v| ==> r[c] == (v[c] && w[c])
  {
    seq(|v|, c requires 0 <= c < |v| => v[c] && w[c])
  }

  // ---------------------------------------------------------------- one index bit

  /** Whether the index bit of weight `j` is set, for a power of two `j`. */
  predicate Has(i: nat, j: nat)
    requires j > 0
  {
    i / j % 2 == 1
  }

  /** `i | j` and `i & !j`, for a power of two `j`. */
  function With(i: nat, j: nat): nat
    requires j > 0
  {
    if Has(i, j) then i else i + j
  }

  function Without(i: nat, j: nat): (r: nat)
    requires j > 0
  {
    if Has(i, j) && i >= j then i - j else i
  }

  function Flip(i: nat, j: nat): nat
    requires j > 0
  {
    if Has(i, j) then Without(i, j) else With(i, j)
  }

  /** An index as its high part, its bit and its low part. */
  lemma {:induction false} Parts(i: nat, j: nat) returns (high: nat, bit: nat, low: nat)
    requires j > 0
    ensures i == high * (2 * j) + bit * j + low && bit < 2 && low < j
    ensures Has(i, j) == (bit == 1) && i / j == 2 * high + bit && i % j == low
    ensures i / (2 * j) == high && i % (2 * j) == bit * j + low
  {
    var q := i / j;
    low, high, bit := i % j, q / 2, q % 2;
    assert i == q * j + low;
    Compose(high, bit, low, j);
    M.ModUnique(i, high, bit * j + low, 2 * j) by { BitBound(bit, j, low); }
  }

  lemma {:induction false} Compose(high: nat, bit: nat, low: nat, j: nat)
    ensures (2 * high + bit) * j + low == high * (2 * j) + bit * j + low
  {
  }

  lemma {:induction false} BitBound(bit: nat, j: nat, low: nat)
    requires bit < 2 && low < j
    ensures bit * j + low < 2 * j
  {
  }

  /** The index with the given parts. */
  lemma {:induction false} FromParts(high: nat, bit: nat, low: nat, j: nat)
    requires j > 0 && bit < 2 && low < j
    ensures var i := high * (2 * j) + bit * j + low;
      && Has(i, j) == (bit == 1) && i / j == 2 * high + bit && i % j == low
      && i / (2 * j) == high && i % (2 * j) == bit * j + low
  {
    var i := high * (2 * j) + bit * j + low;
    Compose(high, bit, low, j);
    M.ModUnique(i, 2 * high + bit, low, j);
    BitBound(bit, j, low);
    M.ModUnique(i, high, bit * j + low, 2 * j);
  }

  // ---------------------------------------------------------------- one stage

  lemma {:induction false} FlipParts(i: nat, j: nat) returns (high: nat, bit: nat, low: nat)
    requires j > 0
    ensures i == high * (2 * j) + bit * j + low && bit < 2 && low < j && Has(i, j) == (bit == 1)
    ensures Flip(i, j) == high * (2 * j) + (1 - bit) * j + low && Has(Flip(i, j), j) == (bit == 0)
  {
    high, bit, low := Parts(i, j);
    FromParts(high, 1 - bit, low, j);
    if bit == 1 { AtLeast(high, j, low); }
  }

  lemma {:induction false} AtLeast(high: nat, j: nat, low: nat)
    ensures high * (2 * j) + 1 * j + low >= j
  {
    M.ProductMonotone(0, high, 2 * j);
  }

  /** Blocks of `2 j` tile the index range. */
  lemma {:induction false} BlockFits(high: nat, rest: nat, j: nat, n: nat)
    requires j > 0 && n % (2 * j) == 0 && high * (2 * j) + rest < n
    ensures (high + 1) * (2 * j) <= n && (high + 1) * (2 * j) == high * (2 * j) + 2 * j
  {
    var blocks := n / (2 * j);
    assert n == blocks * (2 * j);
    M.PlusTimes(high, 1, 2 * j);
    if high >= blocks { M.ProductMonotone(blocks, high, 2 * j); }
    M.ProductMonotone(high + 1, blocks, 2 * j);
  }

  lemma {:induction false} FlipStays(i: nat, j: nat, n: nat)
    requires j > 0 && n % (2 * j) == 0 && i < n
    ensures Flip(i, j) < n && Has(Flip(i, j), j) == !Has(i, j)
    ensures Has(i, j) ==> Flip(i, j) == i - j && i >= j
    ensures !Has(i, j) ==> Flip(i, j) == i + j
  {
    hide Has;
    var high, bit, low := FlipParts(i, j);
    assert bit * j == if bit == 1 then j else 0;
    assert (1 - bit) * j == if bit == 1 then 0 else j;
    BlockFits(high, bit * j + low, j, n);
    M.ProductMonotone(0, high, 2 * j);
  }

  /** Rows and columns that differ in one index bit, exchanged in it. */
  predicate Moves(i: nat, c: nat, j: nat)
    requires j > 0
  {
    Has(i, j) != Has(c, j)
  }

  ghost predicate IsExchanged(rows: seq<Bits>, j: nat, i: nat, row: Bits)
    requires |rows| == BITS && j > 0 && BITS % (2 * j) == 0 && i < BITS
  {
    forall c: nat :: c < BITS ==> row[c] == ExchangedBit(rows, j, i, c)
  }

  ghost function ExchangedBit(rows: seq<Bits>, j: nat, i: nat, c: nat): bool
    requires |rows| == BITS && j > 0 && BITS % (2 * j) == 0 && i < BITS && c < BITS
  {
    FlipStays(i, j, BITS);
    FlipStays(c, j, BITS);
    if Moves(i, c, j) then rows[Flip(i, j)][Flip(c, j)] else rows[i][c]
  }

  /** The mask of a stage: the columns whose index bit is clear. */
  ghost predicate IsMask(mask: seq<bool>, j: nat)
    requires j > 0
  {
    forall c: nat :: c < |mask| ==> mask[c] == !Has(c, j)
  }

  lemma {:induction false} BelowHas(c: nat, j: nat)
    requires j > 0 && !Has(c, j) && c >= j
    ensures Has(c - j, j)
  {
    var high, bit, low := Parts(c, j);
    HighPositive(high, j, low);
    Borrow(high, j, low);
    FromParts(high - 1, 1, low, j);
  }

  lemma {:induction false} HighPositive(high: nat, j: nat, low: nat)
    requires low < j && high * (2 * j) + 0 * j + low >= j
    ensures high > 0
  {
  }

  lemma {:induction false} Borrow(high: nat, j: nat, low: nat)
    requires high > 0
    ensures high * (2 * j) + 0 * j + low - j == (high - 1) * (2 * j) + 1 * j + low
  {
    M.PlusTimes(high - 1, 1, 2 * j);
  }

  /** One pair of words of `n` bits: the off-diagonal halves change places. */
  method ExchangePair(top: seq<bool>, bottom: seq<bool>, j: nat, mask: seq<bool>)
    returns (top': seq<bool>, bottom': seq<bool>)
    requires j > 0 && |top| == |bottom| == |mask| && |top| % (2 * j) == 0 && IsMask(mask, j)
    ensures PairExchanged(top, bottom, j, top', bottom')
  {
    hide Has, ShiftRight, ShiftLeft, Xor, And;
    var t := And(Xor(ShiftRight(top, j), bottom), mask);
    bottom' := Xor(bottom, t);
    top' := Xor(top, ShiftLeft(t, j));
    forall c: nat | c < |top| ensures PairBit(top, bottom, j, top', bottom', c) {
      InPair(c, j, |top|);
    }
  }

  lemma {:induction false} InPair(c: nat, j: nat, n: nat)
    requires j > 0 && n % (2 * j) == 0 && c < n
    ensures Has(c, j) ==> c >= j && !Has(c - j, j)
    ensures !Has(c, j) ==> c + j < n && (c >= j ==> Has(c - j, j))
  {
    FlipStays(c, j, n);
    if !Has(c, j) && c >= j { BelowHas(c, j); }
  }

  ghost predicate PairExchanged(top: seq<bool>, bottom: seq<bool>, j: nat, top': seq<bool>, bottom': seq<bool>)
    requires j > 0
  {
    && |top| == |bottom| == |top'| == |bottom'|
    && forall c: nat :: c < |top| ==> PairBit(top, bottom, j, top', bottom', c)
  }

  ghost predicate PairBit(
    top: seq<bool>, bottom: seq<bool>, j: nat, top': seq<bool>, bottom': seq<bool>, c: nat
  )
    requires j > 0 && |top| == |bottom| == |top'| == |bottom'| && c < |top|
  {
    if Has(c, j) then c >= j && top'[c] == bottom[c - j] && bottom'[c] == bottom[c]
    else c + j < |top| && top'[c] == top[c] && bottom'[c] == top[c + j]
  }

  lemma {:induction false} ExchangedSizes(top: seq<bool>, bottom: seq<bool>, j: nat, top': seq<bool>, bottom': seq<bool>)
    requires j > 0 && PairExchanged(top, bottom, j, top', bottom')
    ensures |top| == |bottom| == |top'| == |bottom'|
  {
  }

  /** The next row index with the bit clear. */
  function NextRow(k: nat, j: nat): nat
    requires j > 0
  {
    Without(With(k, j) + 1, j)
  }

  /** The walk visits every row whose bit is clear, in order, and ends exactly past the last row. */
  lemma {:induction false} WalkStep(k: nat, j: nat, n: nat)
    requires j > 0 && n % (2 * j) == 0 && k < n && !Has(k, j)
    ensures k < NextRow(k, j) <= n && !Has(NextRow(k, j), j) && With(k, j) == k + j && k + j < n
    ensures forall i: nat :: !Has(i, j) && k < i ==> NextRow(k, j) <= i
  {
    hide Has;
    var high, bit, low := Parts(k, j);
    BlockFits(high, low, j, n);
    if low + 1 < j {
      FromParts(high, 0, low + 1, j);
      FromParts(high, 1, low + 1, j);
      assert k + j + 1 == high * (2 * j) + 1 * j + (low + 1);
    } else {
      FromParts(high + 1, 0, 0, j);
      assert k + j + 1 == (high + 1) * (2 * j) + 0 * j + 0;
      forall i: nat | !Has(i, j) && k < i ensures k + j + 1 <= i {
        if i < k + j + 1 { FromParts(high, 1, i - high * (2 * j) - j, j); }
      }
    }
  }

  /** The rows whose pair the walk has passed are exchanged, the others untouched. */
  ghost predicate Walked(before: seq<Bits>, now: seq<Bits>, j: nat, k: nat)
    requires j > 0 && BITS % (2 * j) == 0
  {
    && |before| == |now| == BITS
    && (forall i: nat :: i < BITS ==>
          if Without(i, j) < k then IsExchanged(before, j, i, now[i]) else now[i] == before[i])
  }

  lemma {:induction false} WalkPair(before: seq<Bits>, now: seq<Bits>, j: nat, k: nat, top: Bits, bottom: Bits)
    requires j > 0 && BITS % (2 * j) == 0 && Walked(before, now, j, k) && k < BITS && !Has(k, j) && k + j < BITS
    requires PairExchanged(now[k], now[k + j], j, top, bottom)
    ensures Walked(before, now[k := top][k + j := bottom], j, NextRow(k, j))
  {
    hide Has;
    FlipStays(k, j, BITS);
    FlipStays(k + j, j, BITS);
    WalkStep(k, j, BITS);
    assert Without(k, j) == k && Without(k + j, j) == k;
    forall c: nat | c < BITS
      ensures top[c] == ExchangedBit(before, j, k, c) && bottom[c] == ExchangedBit(before, j, k + j, c)
    {
      assert PairBit(now[k], now[k + j], j, top, bottom, c);
      FlipStays(c, j, BITS);
    }
    var after := now[k := top][k + j := bottom];
    forall i: nat | i < BITS
      ensures if Without(i, j) < NextRow(k, j) then IsExchanged(before, j, i, after[i]) else after[i] == before[i]
    {
      FlipStays(i, j, BITS);
      BaseOf(i, j);
      if Without(i, j) == k { assert i == k || i == k + j; }
    }
  }

  lemma {:induction false} BaseOf(i: nat, j: nat)
    requires j > 0
    ensures !Has(Without(i, j), j) && (i == Without(i, j) || i == Without(i, j) + j)
  {
    var high, bit, low := FlipParts(i, j);
  }

  /** One stage over the block in place. */
  method Stage(a: array<Bits>, j: nat, mask: Bits)
    requires a.Length == BITS && j > 0 && BITS % (2 * j) == 0 && IsMask(mask, j)
    modifies a
    ensures forall i: nat :: i < BITS ==> IsExchanged(old(a[..]), j, i, a[i])
  {
    hide Has, IsExchanged, Without, With, NextRow, Walked, PairExchanged;
    ghost var before: seq<Bits> := a[..];
    var k := 0;
    WalkStart(before, j);
    while k < BITS
      invariant 0 <= k <= BITS && !Has(k, j) && Walked(before, a[..], j, k)
      decreases BITS - k
    {
      WalkStep(k, j, BITS);
      var top, bottom := ExchangePair(a[k], a[k + j], j, mask);
      ghost var now: seq<Bits> := a[..];
      ExchangedSizes(now[k], now[k + j], j, top, bottom);
      WalkPair(before, now, j, k, top, bottom);
      a[k + j] := bottom;
      a[k] := top;
      assert a[..] == now[k := top][k + j := bottom];
      k := NextRow(k, j);
    }
    WalkEnd(before, a[..], j, k);
  }

  lemma {:induction false} WalkStart(before: seq<Bits>, j: nat)
    requires j > 0 && BITS % (2 * j) == 0 && |before| == BITS
    ensures !Has(0, j) && Walked(before, before, j, 0)
  {
    FromParts(0, 0, 0, j);
  }

  lemma {:induction false} WalkEnd(before: seq<Bits>, now: seq<Bits>, j: nat, k: nat)
    requires j > 0 && BITS % (2 * j) == 0 && k >= BITS && Walked(before, now, j, k)
    ensures forall i: nat :: i < BITS ==> IsExchanged(before, j, i, now[i])
  {
    hide Has, IsExchanged;
    forall i: nat | i < BITS ensures IsExchanged(before, j, i, now[i]) { BaseOf(i, j); }
  }

  // ---------------------------------------------------------------- the whole block

  /** Where the bit at `(i, c)` comes from once all index bits of weight at least `j` are exchanged. */
  function Source(i: nat, c: nat, j: nat): (nat, nat)
    requires j > 0
  {
    (c / j * j + i % j, i / j * j + c % j)
  }

  /** Exchanging one more index bit moves the source by that bit. */
  lemma {:induction false} SourceStep(i: nat, c: nat, j: nat)
    requires j > 0
    ensures Source(i, c, j) ==
      if Moves(i, c, j) then Source(Flip(i, j), Flip(c, j), 2 * j) else Source(i, c, 2 * j)
  {
    hide Has;
    var highI, bitI, lowI := Parts(i, j);
    var highC, bitC, lowC := Parts(c, j);
    var hI, bI, lI := FlipParts(i, j);
    var hC, bC, lC := FlipParts(c, j);
    SameParts(i, highI, bitI, lowI, hI, bI, lI, j);
    SameParts(c, highC, bitC, lowC, hC, bC, lC, j);
    FromParts(highI, 1 - bitI, lowI, j);
    FromParts(highC, 1 - bitC, lowC, j);
    Unfold(highI, bitI, j);
    Unfold(highC, bitC, j);
  }

  lemma {:induction false} SameParts(i: nat, high: nat, bit: nat, low: nat, high': nat, bit': nat, low': nat, j: nat)
    requires j > 0 && i == high * (2 * j) + bit * j + low && i == high' * (2 * j) + bit' * j + low'
    requires bit < 2 && low < j && bit' < 2 && low' < j
    ensures high == high' && bit == bit' && low == low'
  {
    FromParts(high, bit, low, j);
    FromParts(high', bit', low', j);
  }

  lemma {:induction false} Unfold(high: nat, bit: nat, j: nat)
    ensures (2 * high + bit) * j == high * (2 * j) + bit * j
  {
  }

  lemma {:induction false} SourceInside(i: nat, c: nat, j: nat, n: nat)
    requires j > 0 && n % j == 0 && i < n && c < n
    ensures Source(i, c, j).0 < n && Source(i, c, j).1 < n
  {
    PartInside(c / j, i % j, j, n, c);
    PartInside(i / j, c % j, j, n, i);
  }

  lemma {:induction false} PartInside(q: nat, low: nat, j: nat, n: nat, i: nat)
    requires j > 0 && n % j == 0 && i < n && q == i / j && low < j
    ensures q * j + low < n
  {
    var blocks := n / j;
    assert n == blocks * j && i == q * j + i % j;
    if q >= blocks { M.ProductMonotone(blocks, q, j); }
    M.ProductMonotone(q + 1, blocks, j);
    M.PlusTimes(q, 1, j);
  }

  /** Every bit of the block comes from its source. */
  ghost predicate FromSource(before: seq<Bits>, now: seq<Bits>, j: nat)
    requires j > 0 && BITS % j == 0
  {
    |before| == |now| == BITS && forall i: nat, c: nat :: i < BITS && c < BITS ==> BitFrom(before, now, j, i, c)
  }

  ghost predicate BitFrom(before: seq<Bits>, now: seq<Bits>, j: nat, i: nat, c: nat)
    requires j > 0 && BITS % j == 0 && |before| == |now| == BITS && i < BITS && c < BITS
  {
    SourceInside(i, c, j, BITS);
    now[i][c] == before[Source(i, c, j).0][Source(i, c, j).1]
  }

  lemma {:induction false} StageSource(before: seq<Bits>, middle: seq<Bits>, now: seq<Bits>, j: nat)
    requires j > 0 && BITS % (2 * j) == 0 && BITS % j == 0 && |now| == BITS && FromSource(before, middle, 2 * j)
    requires forall i: nat :: i < BITS ==> IsExchanged(middle, j, i, now[i])
    ensures FromSource(before, now, j)
  {
    hide Has, Source;
    forall i: nat, c: nat | i < BITS && c < BITS ensures BitFrom(before, now, j, i, c) {
      assert IsExchanged(middle, j, i, now[i]) && now[i][c] == ExchangedBit(middle, j, i, c);
      FlipStays(i, j, BITS);
      FlipStays(c, j, BITS);
      SourceStep(i, c, j);
      if Moves(i, c, j) { assert BitFrom(before, middle, 2 * j, Flip(i, j), Flip(c, j)); }
      else { assert BitFrom(before, middle, 2 * j, i, c); }
    }
  }

  /** The mask of the next stage, from this one shifted by half its width. */
  lemma {:induction false} NextMask(mask: Bits, j: nat)
    requires j > 0 && BITS % (4 * j) == 0 && IsMask(mask, 2 * j)
    ensures IsMask(Xor(mask, ShiftLeft(mask, j)), j)
  {
    hide Has;
    forall c: nat | c < BITS ensures Xor(mask, ShiftLeft(mask, j))[c] == !Has(c, j) { MaskBit(c, j); }
  }

  lemma {:induction false} MaskBit(c: nat, j: nat)
    requires j > 0
    ensures !Has(c, j) == (!Has(c, 2 * j) != (c >= j && !Has(c - j, 2 * j)))
  {
    var q := c / j;
    var low := c % j;
    assert c == q * j + low;
    HasOf(q, low, j);
    if c >= j {
      QuotientPositive(q, low, j);
      M.PlusTimes(q - 1, 1, j);
      assert c - j == (q - 1) * j + low;
      HasOf(q - 1, low, j);
    } else {
      M.ModUnique(c, 0, c, j);
    }
    hide Has;
    Quarters(q);
  }

  lemma {:induction false} QuotientPositive(q: nat, low: nat, j: nat)
    requires low < j && q * j + low >= j
    ensures q > 0
  {
  }

  lemma {:induction false} Quarters(q: nat)
    ensures (q % 2 == 0) == ((q / 2 % 2 == 0) != (q > 0 && (q - 1) / 2 % 2 == 0))
  {
  }

  lemma {:induction false} HasOf(q: nat, low: nat, j: nat)
    requires j > 0 && low < j
    ensures Has(q * j + low, j) == (q % 2 == 1) && Has(q * j + low, 2 * j) == (q / 2 % 2 == 1)
  {
    HalfOf(q, low, j);
  }

  lemma {:induction false} HalfOf(q: nat, low: nat, j: nat)
    requires j > 0 && low < j
    ensures (q * j + low) / j == q && (q * j + low) / (2 * j) == q / 2
  {
    M.ModUnique(q * j + low, q, low, j);
    var h, b := q / 2, q % 2;
    Compose(h, b, low, j);
    BitBound(b, j, low);
    M.ModUnique(q * j + low, h, b * j + low, 2 * j);
  }

  /** The weights a transpose goes through divide the word. */
  lemma {:induction false} Halved(j: nat)
    requires j > 1 && BITS % (2 * j) == 0
    ensures j % 2 == 0 && BITS % j == 0 && BITS % (2 * (j / 2)) == 0
  {
    WeightOf(j);
  }

  lemma {:induction false} WeightOf(j: nat)
    requires j > 0 && BITS % (2 * j) == 0
    ensures j == 1 || j == 2 || j == 4 || j == 8 || j == 16 || j == 32 || j == 64
  {
    var k := BITS / (2 * j);
    assert 64 == k * j by { assert BITS == k * (2 * j); M.Assoc(k, 2, j); }
    FactorsPositive(k, j);
    M.ProductMonotone(1, k, j);
    Factor64(j, k);
  }

  lemma {:induction false} FactorsPositive(k: nat, j: nat)
    requires k * j == 64
    ensures k >= 1
  {
  }

  lemma {:induction false} Factor64(j: nat, k: nat)
    requires j <= 64 && 64 == k * j
    ensures j == 1 || j == 2 || j == 4 || j == 8 || j == 16 || j == 32 || j == 64
  {
  }

  /** The first mask: the low half of the word. */
  function LowHalf(): (mask: Bits)
    ensures forall c: nat :: c < BITS ==> mask[c] == (c < 64)
  {
    seq(BITS, c requires 0 <= c < BITS => c < 64)
  }

  /** Transposes the block in place: bit `c` of word `i` becomes bit `i` of word `c`. */
  method TransposeBitBlock(a: array<Bits>)
    requires a.Length == BITS
    modifies a
    ensures forall i: nat, c: nat :: i < BITS && c < BITS ==> a[i][c] == old(a[c][i])
  {
    hide Has, IsExchanged, FromSource;
    ghost var before: seq<Bits> := a[..];
    var j: nat, mask: seq<bool> := 64, LowHalf();
    FirstStage(before);
    while j > 0
      invariant j <= 64 && |mask| == a.Length == BITS
      invariant j > 0 ==> BITS % (2 * j) == 0 && IsMask(mask, j) && FromSource(before, a[..], 2 * j)
      invariant j == 0 ==> FromSource(before, a[..], 1)
    {
      ghost var middle: seq<Bits> := a[..];
      Stage(a, j, mask);
      if j > 1 { Halved(j); }
      StageSource(before, middle, a[..], j);
      if j > 1 { NextMask(mask, j / 2) by { WeightOf(j); } }
      j := j / 2;
      mask := Xor(mask, ShiftLeft(mask, j));
    }
    LastStage(before, a[..]);
  }

  lemma {:induction false} FirstStage(before: seq<Bits>)
    requires |before| == BITS
    ensures FromSource(before, before, 128) && IsMask(LowHalf(), 64)
  {
    forall i: nat, c: nat | i < BITS && c < BITS ensures BitFrom(before, before, 128, i, c) {}
    forall c: nat | c < BITS ensures LowHalf()[c] == !Has(c, 64) {}
  }

  lemma {:induction false} LastStage(before: seq<Bits>, now: seq<Bits>)
    requires FromSource(before, now, 1)
    ensures forall i: nat, c: nat :: i < BITS && c < BITS ==> now[i][c] == before[c][i]
  {
    forall i: nat, c: nat | i < BITS && c < BITS ensures now[i][c] == before[c][i] {
      assert BitFrom(before, now, 1, i, c);
    }
  }
}
