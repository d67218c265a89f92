/** The first round of the closing sumcheck taken off the packed bits: a bit is zero or one, so its
    sums need no multiplication, and the weights are never written out. */
module BitWeights {
  import M = Montgomery
  import opened FiniteField
  import opened Multilinear
  import opened Powers
  import opened Numerals
  import opened Transposes
  import opened BitMatrices
  import opened LinearCombinations
  import opened MTranspose
  import opened TransposedMatrix
  import opened Cubes
  import opened SumcheckProtocol
  import F = Folds
  import R = Reduction
  import V = VirtualMap

  /** Bits as field elements. */
  ghost function Elems(K: Field, bits: seq<bool>): (v: seq<Elem>)
    ensures |v| == |bits| && forall i :: 0 <= i < |bits| ==> v[i] == if bits[i] then K.one else K.zero
  {
    seq(|bits|, i requires 0 <= i < |bits| => if bits[i] then K.one else K.zero)
  }

  /** Weights against bits written out are the weights at the set bits. */
  lemma {:induction false} DotBits(K: Field, w: seq<Elem>, bits: seq<bool>)
    requires K.Valid() && |w| == |bits|
    ensures Dot(K, w, Elems(K, bits)) == R.BitSum(K, bits, w)
  {
    if |w| > 0 {
      var n := |w| - 1;
      DotBits(K, w[..n], bits[..n]);
      assert Elems(K, bits)[..n] == Elems(K, bits[..n]);
      K.Units(w[n]);
    }
  }

  // ---------------------------------------------------------------- the set bits of a word

  /** The lowest set bit of a nonzero word. */
  ghost function Lowest(word: seq<bool>): (i: nat)
    requires Number(word) > 0
    ensures i < |word| && word[i] && forall k :: 0 <= k < i ==> !word[k]
  {
    if word[0] then 0 else 1 + Lowest(word[1..])
  }

  /** `x & (x - 1)` clears it. */
  lemma {:induction false} ClearLowest(word: seq<bool>)
    requires Number(word) > 0
    ensures TrailingZeros(Number(word)) == Lowest(word)
    ensures F.BitAnd(Number(word), Number(word) - 1) == Number(word[Lowest(word) := false]) < Number(word)
  {
    var n, rest := Number(word), word[1..];
    assert n / 2 == Number(rest);
    if word[0] {
      F.AndSelf(n / 2);
      assert word[0 := false][1..] == rest;
    } else {
      ClearLowest(rest);
      assert word[Lowest(word) := false][1..] == rest[Lowest(rest) := false];
    }
  }

  lemma {:induction false} ZeroWord(word: seq<bool>)
    requires Number(word) == 0
    ensures forall i :: 0 <= i < |word| ==> !word[i]
  {
    if |word| > 0 {
      ZeroWord(word[1..]);
      assert forall i :: 0 < i < |word| ==> word[i] == word[1..][i - 1];
    }
  }

  /** Some positions listed in order, the others still in the remaining word, all above. */
  ghost predicate Listing(word: seq<bool>, positions: seq<nat>, left: seq<bool>) {
    && |left| == |word| && Rising(positions)
    && (forall i: nat :: i < |word| ==> (word[i] <==> left[i] || i in positions) && !(left[i] && i in positions))
    && (forall k, i :: 0 <= k < |positions| && 0 <= i < |word| && left[i] ==> positions[k] < i)
    && (forall k :: 0 <= k < |positions| ==> positions[k] < |word|)
  }

  lemma {:induction false} ListOne(word: seq<bool>, positions: seq<nat>, left: seq<bool>)
    requires Listing(word, positions, left) && Number(left) > 0
    ensures Listing(word, positions + [Lowest(left)], left[Lowest(left) := false])
  {
  }

  /** The positions of the set bits, ascending. */
  ghost predicate Positions(word: seq<bool>, positions: seq<nat>) {
    Within(positions, |word|) && forall i: nat :: i < |word| ==> (word[i] <==> i in positions)
  }

  method IterOverSetBits(word: Bits) returns (positions: seq<nat>)
    ensures Positions(word, positions)
  {
    hide Number, F.BitAnd, TrailingZeros, Listing;
    var remaining: nat := Number(word);
    ghost var left: seq<bool> := word;
    positions := [];
    ListNone(word);
    while remaining != 0
      invariant remaining == Number(left) && Listing(word, positions, left)
      decreases remaining
    {
      ListOne(word, positions, left);
      ClearLowest(left);
      var position := TrailingZeros(remaining);
      remaining := F.BitAnd(remaining, remaining - 1);
      left := left[Lowest(left) := false];
      positions := positions + [position];
    }
    ListAll(word, positions, left);
  }

  lemma {:induction false} ListNone(word: seq<bool>)
    ensures Listing(word, [], word)
  {
  }

  lemma {:induction false} ListAll(word: seq<bool>, positions: seq<nat>, left: seq<bool>)
    requires Listing(word, positions, left) && Number(left) == 0
    ensures Positions(word, positions)
  {
    ZeroWord(left);
  }

  /** Values gathered at the set positions below `n` are the sum over those bits. */
  lemma {:induction false} GatheredBits(K: Field, word: seq<bool>, values: seq<Elem>, positions: seq<nat>, n: nat)
    requires K.Valid() && n <= |word| == |values| && Within(positions, n)
    requires forall i: nat :: i < n ==> (word[i] <==> i in positions)
    ensures Gathered(K, values, positions) == R.BitSum(K, word[..n], values[..n])
  {
    hide Within;
    WithinTop(positions, n);
    if n > 0 {
      var m := n - 1;
      assert word[..n][..m] == word[..m] && values[..n][..m] == values[..m];
      if word[m] {
        var before := positions[..|positions| - 1];
        assert forall i: nat :: i in positions <==> i in before || i == m;
        assert m !in before by { NotBelow(before, m); }
        GatheredBits(K, word, values, before, m);
      } else {
        GatheredBits(K, word, values, positions, m);
        assert K.AddCancels(Gathered(K, values, positions));
      }
    }
  }

  lemma {:induction false} NotBelow(s: Support, n: nat)
    requires Within(s, n)
    ensures n !in s
  {
  }

  /** The values at some positions, added up. */
  method SumAt(K: Field, word: Bits, values: seq<Elem>) returns (sum: Elem)
    requires K.Valid() && |values| == BITS
    ensures sum == R.BitSum(K, word, values)
  {
    hide R.BitSum;
    var positions := IterOverSetBits(word);
    sum := K.zero;
    for k := 0 to |positions|
      invariant sum == Gathered(K, values, positions[..k])
    {
      assert positions[..k + 1][..k] == positions[..k];
      sum := K.add(sum, values[positions[k]]);
    }
    assert positions[..|positions|] == positions && word[..BITS] == word && values[..BITS] == values;
    GatheredBits(K, word, values, positions, BITS);
  }

  // ---------------------------------------------------------------- one word of the first round

  /** The even bit positions. */
  function Even(): (mask: Bits)
    ensures forall i: nat :: i < BITS ==> mask[i] == (i % 2 == 0)
  {
    seq(128, i => i % 2 == 0)
  }

  function EvenBits(word: Bits): Bits {
    And(word, Even())
  }

  /** The even positions whose bit differs from the next. */
  function UnlikePairs(word: Bits): Bits {
    And(Xor(word, ShiftRight(word, 1)), Even())
  }

  function PairSums(K: Field, w: seq<Elem>): (s: seq<Elem>)
    ensures |s| == |w| && forall i {:trigger s[i]} :: 0 <= i < |w| - 1 ==> s[i] == K.add(w[i], w[i + 1])
  {
    seq(|w|, i requires 0 <= i < |w| => if i + 1 < |w| then K.add(w[i], w[i + 1]) else w[i])
  }

  lemma {:induction false} TwoMore(K: Field, bits: seq<bool>, w: seq<Elem>, n: nat)
    requires K.Valid() && |bits| == |w| && 2 * n + 2 <= |w| && !bits[2 * n + 1]
    ensures R.BitSum(K, bits[..2 * n + 2], w[..2 * n + 2])
      == K.add(R.BitSum(K, bits[..2 * n], w[..2 * n]), if bits[2 * n] then w[2 * n] else K.zero)
  {
    var m := 2 * n;
    assert bits[..m + 2][..m + 1] == bits[..m + 1] && w[..m + 2][..m + 1] == w[..m + 1];
    assert bits[..m + 1][..m] == bits[..m] && w[..m + 1][..m] == w[..m];
    assert K.AddCancels(R.BitSum(K, bits[..m + 1], w[..m + 1]));
  }

  lemma {:induction false} NextSums(K: Field, w: seq<Elem>, v: seq<Elem>, m: nat)
    requires 2 * m + 2 <= |w| && 2 * m + 2 <= |v|
    ensures ConstantSum(K, w, v, m + 1) == K.add(ConstantSum(K, w, v, m), K.mul(w[2 * m], v[2 * m]))
    ensures LeadingSum(K, w, v, m + 1)
      == K.add(LeadingSum(K, w, v, m), K.mul(K.add(w[2 * m], w[2 * m + 1]), K.add(v[2 * m], v[2 * m + 1])))
  {
  }

  /** Both coefficients over the first pairs of a word are sums of weights at set bits. */
  lemma {:induction false} WordCoefficients(K: Field, w: seq<Elem>, word: Bits, n: nat)
    requires K.Valid() && |w| == BITS && n <= 64
    ensures ConstantSum(K, w, Elems(K, word), n) == R.BitSum(K, EvenBits(word)[..2 * n], w[..2 * n])
    ensures LeadingSum(K, w, Elems(K, word), n) == R.BitSum(K, UnlikePairs(word)[..2 * n], PairSums(K, w)[..2 * n])
  {
    hide R.BitSum, ConstantSum, LeadingSum, EvenBits, UnlikePairs;
    if n == 0 {
      NoCoefficients(K, w, Elems(K, word));
      assert EvenBits(word)[..0] == [] && UnlikePairs(word)[..0] == [] && w[..0] == [] && PairSums(K, w)[..0] == [];
    } else {
      var m := n - 1;
      WordCoefficients(K, w, word, m);
      NextSums(K, w, Elems(K, word), m);
      EvenOdd(m);
      MaskedAt(word, 2 * m);
      MaskedAt(word, 2 * m + 1);
      TwoMore(K, EvenBits(word), w, m);
      TwoMore(K, UnlikePairs(word), PairSums(K, w), m);
      PairTerms(K, word[2 * m], word[2 * m + 1], w[2 * m], w[2 * m + 1]);
    }
  }

  lemma {:induction false} EvenOdd(m: nat)
    ensures 2 * m % 2 == 0 && (2 * m + 1) % 2 == 1
  {
  }

  lemma {:induction false} NoCoefficients(K: Field, w: seq<Elem>, v: seq<Elem>)
    ensures ConstantSum(K, w, v, 0) == LeadingSum(K, w, v, 0) == R.BitSum(K, [], []) == K.zero
  {
  }

  lemma {:induction false} MaskedAt(word: Bits, c: nat)
    requires c < BITS
    ensures EvenBits(word)[c] == (word[c] && c % 2 == 0)
    ensures UnlikePairs(word)[c] == (word[c] != (c + 1 < BITS && word[c + 1]) && c % 2 == 0)
  {
    assert EvenBits(word)[c] == (word[c] && Even()[c]);
    var shifted := ShiftRight(word, 1);
    assert shifted[c] == (c + 1 < BITS && word[c + 1]);
    var unlike := Xor(word, shifted);
    assert unlike[c] == (word[c] != shifted[c]);
    assert UnlikePairs(word)[c] == (unlike[c] && Even()[c]);
  }

  lemma {:induction false} PairTerms(K: Field, b0: bool, b1: bool, w0: Elem, w1: Elem)
    requires K.Valid()
    ensures K.mul(w0, if b0 then K.one else K.zero) == if b0 then w0 else K.zero
    ensures K.mul(K.add(w0, w1), K.add(if b0 then K.one else K.zero, if b1 then K.one else K.zero))
      == if b0 != b1 then K.add(w0, w1) else K.zero
  {
    K.Units(w0);
    UnlikeSum(K, b0, b1, K.add(w0, w1));
  }

  lemma {:induction false} UnlikeSum(K: Field, b0: bool, b1: bool, sum: Elem)
    requires K.Valid()
    ensures K.mul(sum, K.add(if b0 then K.one else K.zero, if b1 then K.one else K.zero)) == if b0 != b1 then sum else K.zero
  {
    K.Additive();
    K.Units(sum);
  }

  lemma {:induction false} ScaledCoefficients(K: Field, c: Elem, w: seq<Elem>, v: seq<Elem>, n: nat)
    requires K.Valid() && |w| == |v| && 2 * n <= |w|
    ensures ConstantSum(K, Scale(K, c, w), v, n) == K.mul(c, ConstantSum(K, w, v, n))
    ensures LeadingSum(K, Scale(K, c, w), v, n) == K.mul(c, LeadingSum(K, w, v, n))
  {
    if n == 0 {
      K.Units(c);
    } else {
      hide ConstantSum, LeadingSum;
      var m := n - 1;
      ScaledCoefficients(K, c, w, v, m);
      NextSums(K, w, v, m);
      NextSums(K, Scale(K, c, w), v, m);
      ScaledTerm(K, c, ConstantSum(K, w, v, m), w[2 * m], v[2 * m]);
      K.Dist(c, w[2 * m], w[2 * m + 1]);
      ScaledTerm(K, c, LeadingSum(K, w, v, m), K.add(w[2 * m], w[2 * m + 1]), K.add(v[2 * m], v[2 * m + 1]));
    }
  }

  lemma {:induction false} ScaledTerm(K: Field, c: Elem, sum: Elem, w: Elem, v: Elem)
    requires K.Valid()
    ensures K.add(K.mul(c, sum), K.mul(K.mul(c, w), v)) == K.mul(c, K.add(sum, K.mul(w, v)))
  {
    K.Dist(c, sum, K.mul(w, v));
    K.Assoc(c, w, v);
  }

  /** A word's coefficients times its column's weight. */
  lemma {:induction false} ElementCoefficients(K: Field, c: Elem, w: seq<Elem>, word: Bits)
    requires K.Valid() && |w| == BITS
    ensures ConstantSum(K, Scale(K, c, w), Elems(K, word), 64) == K.mul(c, R.BitSum(K, EvenBits(word), w))
    ensures LeadingSum(K, Scale(K, c, w), Elems(K, word), 64) == K.mul(c, R.BitSum(K, UnlikePairs(word), PairSums(K, w)))
  {
    hide R.BitSum, ConstantSum, LeadingSum;
    WordCoefficients(K, w, word, 64);
    ScaledCoefficients(K, c, w, Elems(K, word), 64);
    assert EvenBits(word)[..BITS] == EvenBits(word) && UnlikePairs(word)[..BITS] == UnlikePairs(word);
    assert w[..BITS] == w && PairSums(K, w)[..BITS] == PairSums(K, w);
  }

  // ---------------------------------------------------------------- the factors

  /** The weights over the bits, as a row factor and a column factor. */
  datatype Factors = Factors(rows: seq<Elem>, columns: seq<Elem>) {
    ghost predicate Valid() {
      exists t: nat :: t >= 7 && |rows| == Pow2(t)
    }

    function PerColumn(): nat { |rows| / BITS }

    function PackedLen(): nat { PerColumn() * |columns| }

    /** The weights written out. */
    function Weights(K: Field): seq<Elem> { Tensor(K, rows, columns) }

    /** The row weights an element covers, and its column's weight. */
    function Element(index: nat): (e: (seq<Elem>, Elem))
      requires Valid() && index < PackedLen()
      ensures |e.0| == BITS
    {
      RowsInWords(rows);
      ElementInside(PerColumn(), |columns|, index);
      (rows[index % PerColumn() * BITS..index % PerColumn() * BITS + BITS], columns[index / PerColumn()])
    }
  }

  lemma {:induction false} RowsInWords(rows: seq<Elem>)
    requires exists t: nat :: t >= 7 && |rows| == Pow2(t)
    ensures |rows| / BITS > 0 && |rows| / BITS * BITS == |rows|
  {
    var t: nat :| t >= 7 && |rows| == Pow2(t);
    F.RowsAreWords(t);
  }

  lemma {:induction false} ElementInside(per: nat, columns: nat, index: nat)
    requires per > 0 && index < per * columns
    ensures 0 <= index / per < columns && 0 <= index % per < per
    ensures 0 <= index % per * BITS && index % per * BITS + BITS <= per * BITS
    ensures index * BITS == index / per * (per * BITS) + index % per * BITS
  {
    var q, r := index / per, index % per;
    if q >= columns { M.ProductMonotone(columns, q, per); }
    M.PlusTimes(q * per, r, BITS);
    M.Assoc(q, per, BITS);
    assert index == q * per + r;
  }

  lemma {:induction false} TensorAt(K: Field, rows: seq<Elem>, columns: seq<Elem>, c: nat, r: nat)
    requires c < |columns| && r < |rows|
    ensures |Tensor(K, rows, columns)| == |rows| * |columns| && 0 <= c * |rows| + r < |rows| * |columns|
    ensures Tensor(K, rows, columns)[c * |rows| + r] == K.mul(columns[c], rows[r])
    decreases |columns|
  {
    hide Tensor, Scale;
    var n := |columns| - 1;
    TensorLength(K, rows, columns);
    TensorLength(K, rows, columns[..n]);
    V.InGrid(|rows|, |columns|, r, c);
    TensorTop(K, rows, columns);
    if c < n {
      TensorAt(K, rows, columns[..n], c, r);
    } else {
      M.PlusTimes(n, 1, |rows|);
    }
  }

  lemma {:induction false} TensorTop(K: Field, rows: seq<Elem>, columns: seq<Elem>)
    requires |columns| > 0
    ensures Tensor(K, rows, columns) == Tensor(K, rows, columns[..|columns| - 1]) + Scale(K, columns[|columns| - 1], rows)
  {
  }

  lemma {:induction false} TensorLength(K: Field, rows: seq<Elem>, columns: seq<Elem>)
    ensures |Tensor(K, rows, columns)| == |rows| * |columns|
  {
    if |columns| > 0 {
      TensorLength(K, rows, columns[..|columns| - 1]);
      M.PlusTimes(|columns| - 1, 1, |rows|);
    }
  }

  /** An element's stretch of the weights. */
  lemma {:induction false} Stretch(K: Field, factors: Factors, index: nat)
    requires factors.Valid() && index < factors.PackedLen()
    ensures |factors.Weights(K)| == factors.PackedLen() * BITS && 0 <= index * BITS && (index + 1) * BITS <= |factors.Weights(K)|
    ensures var (rows, column) := factors.Element(index);
      factors.Weights(K)[index * BITS..(index + 1) * BITS] == Scale(K, column, rows)
  {
    hide Tensor, Scale;
    var per, w := factors.PerColumn(), factors.Weights(K);
    RowsInWords(factors.rows);
    ElementInside(per, |factors.columns|, index);
    TensorLength(K, factors.rows, factors.columns);
    assert |w| == factors.PackedLen() * BITS by { Reordered(per, |factors.columns|); }
    var (rows, column) := factors.Element(index);
    var q, start := index / per, index % per * BITS;
    assert |Scale(K, column, rows)| == BITS;
    forall v: nat | v < BITS ensures w[index * BITS + v] == Scale(K, column, rows)[v] {
      TensorAt(K, factors.rows, factors.columns, q, start + v);
    }
    StretchEqual(w, Scale(K, column, rows), index * BITS);
  }

  lemma {:induction false} Reordered(per: nat, columns: nat)
    ensures per * BITS * columns == per * columns * BITS
  {
  }

  lemma {:induction false} StretchEqual(w: seq<Elem>, s: seq<Elem>, from: nat)
    requires from + |s| <= |w| && forall v: nat :: v < |s| ==> w[from + v] == s[v]
    ensures w[from..from + |s|] == s
  {
  }

  /** One more element's stretch of the weights and of the bits. */
  lemma {:induction false} NextStretch(K: Field, factors: Factors, packed: seq<Bits>, e: nat)
    requires factors.Valid() && |packed| == factors.PackedLen() && e < |packed|
    ensures |factors.Weights(K)| == |packed| * BITS && 0 <= e * BITS <= (e + 1) * BITS <= |packed| * BITS
    ensures var (rows, column) := factors.Element(e);
      factors.Weights(K)[..(e + 1) * BITS] == factors.Weights(K)[..e * BITS] + Scale(K, column, rows)
    ensures F.Flat(packed[..e + 1]) == F.Flat(packed[..e]) + packed[e]
  {
    hide Factors.Weights, Factors.Element;
    Stretch(K, factors, e);
    assert packed[..e + 1][..e] == packed[..e];
    var w := factors.Weights(K);
    assert w[..(e + 1) * BITS] == w[..e * BITS] + w[e * BITS..(e + 1) * BITS];
  }

  lemma {:induction false} NoStretch(K: Field, packed: seq<Bits>)
    ensures packed[..0] == [] && F.Flat(packed[..0]) == []
  {
  }

  /** The weights at the set bits, one product per element. */
  method WeightedSum(K: Field, factors: Factors, packed: seq<Bits>) returns (sum: Elem)
    requires K.Valid() && factors.Valid() && |packed| == factors.PackedLen()
    ensures |factors.Weights(K)| == |F.Flat(packed)| && sum == R.BitSum(K, F.Flat(packed), factors.Weights(K))
  {
    hide R.BitSum, F.Flat, Factors.Valid, Factors.Weights, Factors.Element, Factors.PackedLen, Scale;
    ghost var w := factors.Weights(K);
    WeightsLength(K, factors);
    sum := K.zero;
    NoStretch(K, packed);
    V.NoSum(K);
    for e: nat := 0 to |packed|
      invariant e * BITS <= |w| && sum == R.BitSum(K, F.Flat(packed[..e]), w[..e * BITS])
    {
      NextStretch(K, factors, packed, e);
      var (rows, column) := factors.Element(e);
      var element := SumAt(K, packed[e], rows);
      V.BitSumConcat(K, F.Flat(packed[..e]), packed[e], w[..e * BITS], Scale(K, column, rows));
      V.BitSumScale(K, packed[e], column, rows);
      sum := K.add(sum, K.mul(column, element));
    }
    assert packed[..|packed|] == packed && w[..|w|] == w;
  }

  lemma {:induction false} WeightsLength(K: Field, factors: Factors)
    requires factors.Valid()
    ensures |factors.Weights(K)| == factors.PackedLen() * BITS
  {
    RowsInWords(factors.rows);
    TensorLength(K, factors.rows, factors.columns);
    Reordered(factors.PerColumn(), |factors.columns|);
  }

  /** The first message off the bits: the coefficients of the tables written out. */
  method FirstMessage(K: Field, factors: Factors, packed: seq<Bits>) returns (a0: Elem, a2: Elem)
    requires K.Valid() && factors.Valid() && |packed| == factors.PackedLen()
    ensures |factors.Weights(K)| == |F.Flat(packed)| == 2 * (|packed| * 64)
    ensures a0 == ConstantSum(K, factors.Weights(K), Elems(K, F.Flat(packed)), |packed| * 64)
    ensures a2 == LeadingSum(K, factors.Weights(K), Elems(K, F.Flat(packed)), |packed| * 64)
  {
    hide R.BitSum, F.Flat, Factors.Valid, Factors.Weights, Factors.Element, Factors.PackedLen, Scale, ConstantSum, LeadingSum,
      EvenBits, UnlikePairs;
    ghost var w := factors.Weights(K);
    WeightsLength(K, factors);
    a0, a2 := K.zero, K.zero;
    NoStretch(K, packed);
    NoCoefficients(K, [], []);
    assert w[..0] == [] && Elems(K, []) == [];
    for e: nat := 0 to |packed|
      invariant e * BITS <= |w| && a0 == ConstantSum(K, w[..e * BITS], Elems(K, F.Flat(packed[..e])), e * 64)
      invariant a2 == LeadingSum(K, w[..e * BITS], Elems(K, F.Flat(packed[..e])), e * 64)
    {
      NextStretch(K, factors, packed, e);
      var (rows, column) := factors.Element(e);
      var even := SumAt(K, EvenBits(packed[e]), rows);
      var unlike := SumAt(K, UnlikePairs(packed[e]), PairSums(K, rows));
      ghost var bits, word := F.Flat(packed[..e]), packed[e];
      SumsConcat(K, w[..e * BITS], Elems(K, bits), Scale(K, column, rows), Elems(K, word), e * 64, 64);
      assert Elems(K, bits + word) == Elems(K, bits) + Elems(K, word);
      ElementCoefficients(K, column, rows, word);
      a0, a2 := K.add(a0, K.mul(column, even)), K.add(a2, K.mul(column, unlike));
    }
    assert packed[..|packed|] == packed && w[..|w|] == w;
  }

  // ---------------------------------------------------------------- the first variable bound

  /** A pair of bits bound at a challenge is one of four values. */
  lemma {:induction false} BoundPair(K: Field, b0: bool, b1: bool, c: Elem)
    requires K.Valid()
    ensures Lerp(K, if b0 then K.one else K.zero, if b1 then K.one else K.zero, c)
      == [K.zero, K.add(c, K.one), c, K.one][(if b0 then 1 else 0) + 2 * (if b1 then 1 else 0)]
  {
    K.Additive();
    K.Units(c);
  }

  /** A word's half-size slot of the bound table. */
  method BindWord(K: Field, table: array<Elem>, start: nat, word: Bits, challenge: Elem)
    requires K.Valid() && start + 64 <= table.Length
    modifies table
    ensures table[..start + 64] == old(table[..start]) + Folded(K, Elems(K, word), challenge)
  {
    hide Folded, Elems, Lerp;
    ghost var folded := Folded(K, Elems(K, word), challenge);
    var values := [K.zero, K.add(challenge, K.one), challenge, K.one];
    for pair := 0 to 64
      invariant forall k :: 0 <= k < start ==> table[k] == old(table[k])
      invariant forall k :: 0 <= k < pair ==> table[start + k] == folded[k]
    {
      var b0, b1 := word[2 * pair], word[2 * pair + 1];
      BoundWordPair(K, word, pair, challenge);
      table[start + pair] := values[(if b0 then 1 else 0) + 2 * (if b1 then 1 else 0)];
    }
    StretchEqual(table[..], folded, start);
    assert table[..start + 64] == table[..start] + table[..][start..start + 64];
  }

  lemma {:induction false} BoundWordPair(K: Field, word: Bits, pair: nat, c: Elem)
    requires K.Valid() && pair < 64
    ensures Folded(K, Elems(K, word), c)[pair]
      == [K.zero, K.add(c, K.one), c, K.one][(if word[2 * pair] then 1 else 0) + 2 * (if word[2 * pair + 1] then 1 else 0)]
  {
    hide Lerp;
    BoundPair(K, word[2 * pair], word[2 * pair + 1], c);
  }

  /** The bits with their first variable bound, written straight off the words. */
  method BindFirst(K: Field, packed: seq<Bits>, challenge: Elem) returns (table: array<Elem>)
    requires K.Valid()
    ensures fresh(table) && table[..] == Folded(K, Elems(K, F.Flat(packed)), challenge)
  {
    hide F.Flat, Folded;
    table := new Elem[|packed| * 64](_ => K.zero);
    NoStretch(K, packed);
    assert table[..0] == Folded(K, Elems(K, []), challenge);
    for e: nat := 0 to |packed|
      invariant table[..e * 64] == Folded(K, Elems(K, F.Flat(packed[..e])), challenge)
    {
      NextWord(packed, e);
      ghost var bits := F.Flat(packed[..e]);
      assert Elems(K, bits + packed[e]) == Elems(K, bits) + Elems(K, packed[e]);
      FoldedConcat(K, Elems(K, bits), Elems(K, packed[e]), challenge);
      BindWord(K, table, e * 64, packed[e], challenge);
    }
    assert packed[..|packed|] == packed && table[..table.Length] == table[..];
  }

  lemma {:induction false} NextWord(packed: seq<Bits>, e: nat)
    requires e < |packed|
    ensures F.Flat(packed[..e + 1]) == F.Flat(packed[..e]) + packed[e]
  {
    assert packed[..e + 1][..e] == packed[..e];
  }

  lemma {:induction false} FoldedScale(K: Field, r: Elem, w: seq<Elem>, c: Elem)
    requires K.Valid()
    ensures Folded(K, Scale(K, r, w), c) == Scale(K, r, Folded(K, w, c))
  {
    forall i | 0 <= i < |w| / 2 ensures Folded(K, Scale(K, r, w), c)[i] == K.mul(r, Folded(K, w, c)[i]) {
      ScaledLerp(K, r, w[2 * i], w[2 * i + 1], c);
    }
  }

  lemma {:induction false} ScaledLerp(K: Field, r: Elem, lo: Elem, hi: Elem, c: Elem)
    requires K.Valid()
    ensures Lerp(K, K.mul(r, lo), K.mul(r, hi), c) == K.mul(r, Lerp(K, lo, hi, c))
  {
    var d := K.add(hi, lo);
    K.Dist(r, hi, lo);
    K.Swap(r, c, d);
    K.Dist(r, lo, K.mul(c, d));
  }

  /** Folding the weights folds the row factor. */
  lemma {:induction false} FoldedTensor(K: Field, rows: seq<Elem>, columns: seq<Elem>, c: Elem)
    requires K.Valid() && |rows| % 2 == 0
    ensures |Tensor(K, rows, columns)| % 2 == 0
    ensures Folded(K, Tensor(K, rows, columns), c) == Tensor(K, Folded(K, rows, c), columns)
    decreases |columns|
  {
    if |columns| > 0 {
      hide Tensor, Folded, Scale;
      var n := |columns| - 1;
      TensorTop(K, rows, columns);
      TensorTop(K, Folded(K, rows, c), columns);
      FoldedTensor(K, rows, columns[..n], c);
      FoldedScale(K, columns[n], rows, c);
      FoldedConcat(K, Tensor(K, rows, columns[..n]), Scale(K, columns[n], rows), c);
    }
  }

  /** The weights with their first variable bound, one entry per two bits. */
  method FoldFactors(K: Field, factors: Factors, challenge: Elem) returns (table: seq<Elem>)
    requires K.Valid() && factors.Valid()
    ensures table == Folded(K, factors.Weights(K), challenge)
  {
    hide Tensor, Folded;
    RowsInWords(factors.rows);
    FoldedTensor(K, factors.rows, factors.columns, challenge);
    var rows := FoldTable(K, factors.rows, challenge);
    table := [];
    V.NoTensor(K, rows);
    assert factors.columns[..0] == [];
    for c := 0 to |factors.columns|
      invariant table == Tensor(K, rows, factors.columns[..c])
    {
      V.NextTensor(K, rows, factors.columns, c);
      table := table + Scale(K, factors.columns[c], rows);
    }
    assert factors.columns[..|factors.columns|] == factors.columns;
  }
}
