/** Two-limb Montgomery arithmetic modulo an odd number below 2^128, at the level of 64-bit limbs and
    128-bit intermediates. */
module Montgomery {
  import opened Powers

  const B: nat := 0x1_0000_0000_0000_0000

  const R: nat := 0x1_0000_0000_0000_0000_0000_0000_0000_0000

  type Word = x: nat | x < 0x1_0000_0000_0000_0000

  /** Two little-endian limbs. */
  datatype Pair = Pair(lo: Word, hi: Word)
  {
    function Value(): (v: nat)
      ensures v < R
    {
      lo + B * hi
    }
  }

  function Split(v: nat): (p: Pair)
    requires v < R
    ensures p.Value() == v
  {
    Pair(v % B, v / B)
  }

  lemma {:induction false} ValueInjective(p: Pair, q: Pair)
    requires p.Value() == q.Value()
    ensures p == q
  {
  }

  lemma {:induction false} ProductBound(a: Word, b: Word)
    ensures 0 <= a * b <= (B - 1) * (B - 1)
  {
    ProductMonotone(0, a, b);
    ProductMonotone(a, B - 1, b);
    ProductMonotone(b, B - 1, B - 1);
  }

  lemma {:induction false} ProductMonotone(a: nat, c: nat, b: nat)
    requires a <= c
    ensures a * b <= c * b
  {
  }

  // ---------------------------------------------------------------- multiples

  lemma {:induction false} MultipleMod(k: int, m: nat)
    requires m > 0
    ensures (k * m) % m == 0
  {
    ModUnique(k * m, k, 0, m);
  }

  lemma {:induction false} ModUnique(a: int, q: int, r: nat, m: nat)
    requires m > 0 && a == q * m + r && r < m
    ensures a % m == r && a / m == q
  {
    var q', r' := a / m, a % m;
    assert a == q' * m + r';
    var d := q - q';
    assert d * m == r' - r by { SubTimes(q, q', m); }
    if d >= 1 { ProductMonotone(1, d, m); } else if d <= -1 { ProductMonotone(1, -d, m); NegTimes(d, m); }
  }

  lemma {:induction false} NonNegative(a: nat, m: nat)
    requires m > 0
    ensures a / m >= 0
  {
  }

  lemma {:induction false} SubTimes(a: int, b: int, m: int)
    ensures (a - b) * m == a * m - b * m
  {
  }

  lemma {:induction false} NegTimes(d: int, m: int)
    ensures (-d) * m == -(d * m)
  {
  }

  lemma {:induction false} PlusTimes(a: int, b: int, m: int)
    ensures (a + b) * m == a * m + b * m
  {
  }

  // ---------------------------------------------------------------- one column of the product

  /** The multiplier that clears the low limb, and the carry out of it. */
  method LowHalf(limb: Word, right: Pair, modulus: Pair, inverse: Word, output: Pair) returns (multiplier: Word, carry: nat)
    requires (modulus.lo * inverse + 1) % B == 0
    ensures carry * B == limb * right.lo + multiplier * modulus.lo + output.lo && carry <= 2 * B - 3
  {
    hide WrappingMul, KeptCarry;
    ProductBound(limb, right.lo);
    var lowProduct := limb * right.lo + output.lo;
    assert lowProduct < R;
    multiplier := WrappingMul(lowProduct % B, inverse);
    ProductBound(multiplier, modulus.lo);
    LowCancels(lowProduct, inverse, modulus.lo);
    carry := KeptCarry(multiplier * modulus.lo + lowProduct);
  }

  /** The upper limb, where only the last sum can carry. */
  method HighHalf(limb: Word, right: Pair, modulus: Pair, multiplier: Word, output: Pair, carry: nat, meta: nat)
      returns (next: Pair, nextMeta: nat)
    requires carry <= 2 * B - 3 && meta <= 1
    ensures next.Value() + R * nextMeta == limb * right.hi + multiplier * modulus.hi + output.hi + carry + B * meta
  {
    hide Carried;
    ProductBound(limb, right.hi);
    ProductBound(multiplier, modulus.hi);
    var highProduct := limb * right.hi + output.hi;
    var modulusProduct := multiplier * modulus.hi + carry;
    assert highProduct < R && modulusProduct < R;
    var high := highProduct + modulusProduct;
    CarriedValue(high, meta);
    next, nextMeta := Carried(high, meta).0, Carried(high, meta).1;
  }

  /** The low limb of a sum, and its carry joined with the one from the column before. */
  function Carried(high: nat, meta: nat): (Pair, nat)
    requires high < 2 * R
  {
    var sum := KeptCarry(high) + meta;
    (Pair(high % R % B, sum % B), sum / B)
  }

  lemma {:induction false} CarriedValue(high: nat, meta: nat)
    requires high < 2 * R
    ensures Carried(high, meta).0.Value() + R * Carried(high, meta).1 == high + B * meta
  {
    assert high % R % B == high % B;
  }

  /** One outer step: `T' B = T + limb * right + multiplier * modulus`. */
  method Column(limb: Word, right: Pair, modulus: Pair, inverse: Word, output: Pair, meta: nat)
      returns (next: Pair, nextMeta: nat, ghost multiplier: Word)
    requires (modulus.lo * inverse + 1) % B == 0 && meta <= 1
    requires output.Value() + R * meta < right.Value() + modulus.Value()
    ensures (next.Value() + R * nextMeta) * B
      == output.Value() + R * meta + limb * right.Value() + multiplier * modulus.Value()
    ensures next.Value() + R * nextMeta < right.Value() + modulus.Value() && nextMeta <= 1
  {
    var carry, factor;
    factor, carry := LowHalf(limb, right, modulus, inverse, output);
    next, nextMeta := HighHalf(limb, right, modulus, factor, output, carry, meta);
    multiplier := factor;
    ColumnTotal(limb, right, modulus, factor);
    ColumnBound(next.Value() + R * nextMeta, output.Value() + R * meta, limb, right.Value(), factor, modulus.Value());
  }

  function WrappingMul(a: nat, b: nat): Word {
    (a * b) % B
  }

  /** The upper limbs of a 128-bit sum with its overflow bit put back. */
  function KeptCarry(sum: nat): (c: nat)
    requires sum < 2 * R
    ensures c == sum / B
  {
    (sum / R) * B + (sum % R) / B
  }

  lemma {:induction false} LowCancels(product: nat, inverse: nat, lo: nat)
    requires (lo * inverse + 1) % B == 0
    ensures (WrappingMul(product % B, inverse) * lo + product) % B == 0
  {
    var x := product % B;
    var q, p := (x * inverse) / B, product / B;
    var k := (lo * inverse + 1) / B;
    var m := WrappingMul(x, inverse);
    assert m == x * inverse - B * q && product == x + B * p && lo * inverse + 1 == B * k;
    assert m * lo == x * inverse * lo - B * q * lo by { SubTimes(x * inverse, B * q, lo); }
    assert x * inverse * lo == x * (lo * inverse) by { Reorder(x, inverse, lo); }
    assert x * (lo * inverse) == x * (B * k - 1);
    assert x * (B * k - 1) == B * (x * k) - x by { Spread(x, B, k); }
    var t := x * k - q * lo + p;
    assert B * q * lo == B * (q * lo) by { Assoc(B, q, lo); }
    assert m * lo + product == B * t;
    MultipleMod(t, B);
  }

  lemma {:induction false} Reorder(x: int, y: int, z: int)
    ensures x * y * z == x * (z * y)
  {
  }

  lemma {:induction false} Assoc(x: int, y: int, z: int)
    ensures x * y * z == x * (y * z)
  {
  }

  lemma {:induction false} Spread(x: int, b: int, k: int)
    ensures x * (b * k - 1) == b * (x * k) - x
  {
  }

  lemma {:induction false} ColumnTotal(limb: Word, right: Pair, modulus: Pair, multiplier: Word)
    ensures limb * right.Value() == limb * right.lo + B * (limb * right.hi)
    ensures multiplier * modulus.Value() == multiplier * modulus.lo + B * (multiplier * modulus.hi)
  {
    SplitTimes(limb, right.lo, right.hi);
    SplitTimes(multiplier, modulus.lo, modulus.hi);
  }

  lemma {:induction false} SplitTimes(a: int, lo: int, hi: int)
    ensures a * (lo + B * hi) == a * lo + B * (a * hi)
  {
  }

  lemma {:induction false} ColumnBound(t': nat, t: nat, limb: Word, right: nat, multiplier: Word, m: nat)
    requires t' * B == t + limb * right + multiplier * m && t < right + m && right < R && m < R
    ensures t' < right + m && t' < 2 * R
  {
    ProductMonotone(limb, B - 1, right);
    ProductMonotone(multiplier, B - 1, m);
    assert t' * B < B * (right + m);
  }

  // ---------------------------------------------------------------- the whole product

  function OverflowingSub(a: Word, b: Word): (Word, bool) {
    ((a - b) % B, a < b)
  }

  /** Limb-wise subtraction with its final borrow. */
  function SubtractPair(a: Pair, b: Pair): (Pair, bool) {
    var (low, lowBorrow) := OverflowingSub(a.lo, b.lo);
    var (high, first) := OverflowingSub(a.hi, b.hi);
    var (top, second) := OverflowingSub(high, if lowBorrow then 1 else 0);
    (Pair(low, top), first || second)
  }

  lemma {:induction false} SubtractValue(a: Pair, b: Pair)
    ensures var (d, borrow) := SubtractPair(a, b);
      && borrow == (a.Value() < b.Value())
      && d.Value() == a.Value() - b.Value() + (if borrow then R else 0)
  {
  }

  ghost predicate Congruent(a: int, b: int, m: nat)
    requires m > 0
  {
    (a - b) % m == 0
  }

  lemma {:induction false} CongruentBy(a: int, b: int, k: int, m: nat)
    requires m > 0 && a == b + k * m
    ensures Congruent(a, b, m)
  {
    MultipleMod(k, m);
  }

  /** The product of two residues over 2^128: below the modulus, and exact. */
  method MontgomeryMul(left: Pair, right: Pair, modulus: Pair, inverse: Word) returns (r: Pair)
    requires (modulus.lo * inverse + 1) % B == 0
    requires right.Value() < modulus.Value()
    ensures r.Value() < modulus.Value()
    ensures Congruent(r.Value() * R, left.Value() * right.Value(), modulus.Value())
  {
    hide SubtractPair;
    ghost var q0, q1;
    var output, meta := Pair(0, 0), 0;
    output, meta, q0 := Column(left.lo, right, modulus, inverse, output, meta);
    ghost var t1 := output.Value() + R * meta;
    output, meta, q1 := Column(left.hi, right, modulus, inverse, output, meta);
    ghost var t2 := output.Value() + R * meta;
    TwoColumns(left, right.Value(), modulus.Value(), q0, q1, t1, t2);
    SubtractValue(output, modulus);
    var (difference, borrow) := SubtractPair(output, modulus);
    r := if meta == 0 && borrow then output else difference;
    FinalSubtraction(r.Value(), t2, left.Value() * right.Value(), q0 + B * q1, modulus.Value());
  }

  lemma {:induction false} TwoColumns(left: Pair, right: nat, m: nat, q0: Word, q1: Word, t1: nat, t2: nat)
    requires t1 * B == left.lo * right + q0 * m
    requires t2 * B == t1 + left.hi * right + q1 * m
    ensures t2 * R == left.Value() * right + (q0 + B * q1) * m
  {
    PlusTimes(left.lo, B * left.hi, right);
    Assoc(B, left.hi, right);
    PlusTimes(q0, B * q1, m);
    Assoc(B, q1, m);
  }

  lemma {:induction false} FinalSubtraction(r: nat, t: nat, product: int, q: int, m: nat)
    requires m > 0 && t * R == product + q * m && (r == t || r == t - m)
    ensures Congruent(r * R, product, m)
  {
    if r == t {
      CongruentBy(r * R, product, q, m);
    } else {
      SubTimes(t, m, R);
      SubTimes(q, R, m);
      CongruentBy(r * R, product, q - R, m);
    }
  }

  /** One limb of the retrieval: `T' B = T + input + multiplier * modulus`. */
  method RetrieveLimb(input: Word, modulus: Pair, inverse: Word, output: Pair) returns (next: Pair, ghost multiplier: Word)
    requires (modulus.lo * inverse + 1) % B == 0
    ensures next.Value() * B == output.Value() + input + multiplier * modulus.Value()
  {
    hide WrappingMul;
    var factor := WrappingMul((output.lo + input) % B, inverse);
    ProductBound(factor, modulus.lo);
    ProductBound(factor, modulus.hi);
    LowCancels(output.lo + input, inverse, modulus.lo);
    var carry := (factor * modulus.lo + input + output.lo) / B;
    var high := factor * modulus.hi + output.hi + carry;
    next := Split(high);
    multiplier := factor;
    ColumnTotal(0, Pair(0, 0), modulus, factor);
  }

  /** Out of Montgomery form, with no final subtraction. */
  method MontgomeryRetrieve(value: Pair, modulus: Pair, inverse: Word) returns (r: Pair)
    requires (modulus.lo * inverse + 1) % B == 0 && value.Value() < modulus.Value()
    ensures r.Value() < modulus.Value()
    ensures Congruent(r.Value() * R, value.Value(), modulus.Value())
  {
    ghost var q0, q1;
    var output := Pair(0, 0);
    output, q0 := RetrieveLimb(value.lo, modulus, inverse, output);
    ghost var t1 := output.Value();
    output, q1 := RetrieveLimb(value.hi, modulus, inverse, output);
    r := output;
    ghost var q, m := q0 + B * q1, modulus.Value();
    PlusTimes(q0, B * q1, m);
    Assoc(B, q1, m);
    assert r.Value() * R == value.Value() + q * m;
    CongruentBy(r.Value() * R, value.Value(), q, m);
    RetrievedBound(r.Value(), value.Value(), q, m);
  }

  lemma {:induction false} RetrievedBound(r: nat, v: nat, q: nat, m: nat)
    requires r * R == v + q * m && v < m && q <= R - 1
    ensures r < m
  {
    ProductMonotone(q, R - 1, m);
  }

  // ---------------------------------------------------------------- sums

  /** The 128-bit sum with its overflow, reduced once. */
  method AddMod(left: Pair, right: Pair, modulus: Pair) returns (r: Pair)
    requires left.Value() < modulus.Value() && right.Value() < modulus.Value()
    ensures r.Value() == (left.Value() + right.Value()) % modulus.Value()
  {
    hide ReducedOnce;
    var total, m := left.Value() + right.Value(), modulus.Value();
    ReducedOnceIs(total, m);
    r := Split(ReducedOnce(total, m));
    if total >= m { ModUnique(total, 1, total - m, m); } else { ModUnique(total, 0, total, m); }
  }

  /** The wrapped 128-bit sum less the modulus when it overflowed or is not below it. */
  function ReducedOnce(total: nat, m: nat): int {
    var sum, overflow := total % R, total >= R;
    if overflow then (sum - m) % R else if sum >= m then sum - m else sum
  }

  lemma {:induction false} ReducedOnceIs(total: nat, m: nat)
    requires m < R && total < 2 * m
    ensures ReducedOnce(total, m) == if total >= m then total - m else total
  {
  }

  method NegMod(value: Pair, modulus: Pair) returns (r: Pair)
    requires value.Value() < modulus.Value()
    ensures r.Value() == (0 - value.Value()) % modulus.Value()
  {
    var m := modulus.Value();
    if value == Pair(0, 0) {
      ModUnique(0, 0, 0, m);
      return value;
    }
    var (low, borrow) := OverflowingSub(modulus.lo, value.lo);
    var high := (modulus.hi - value.hi - (if borrow then 1 else 0)) % B;
    r := Pair(low, high);
    NegationValue(value, modulus);
    ModUnique(0 - value.Value(), -1, m - value.Value(), m);
  }

  lemma {:induction false} NegationValue(value: Pair, modulus: Pair)
    requires value.Value() < modulus.Value()
    ensures var (low, borrow) := OverflowingSub(modulus.lo, value.lo);
      Pair(low, (modulus.hi - value.hi - (if borrow then 1 else 0)) % B).Value() == modulus.Value() - value.Value()
  {
  }

  // ---------------------------------------------------------------- Montgomery form

  /** The Montgomery form of an integer. */
  function Encode(m: nat, e: int): (p: Pair)
    requires 0 < m <= R
    ensures p.Value() < m
  {
    Split((e * R) % m)
  }

  lemma {:induction false} EncodeUnique(m: nat, v: Pair, e: int)
    requires 0 < m <= R && v.Value() < m && Congruent(v.Value(), e * R, m)
    ensures v == Encode(m, e)
  {
    var k := (v.Value() - e * R) / m;
    assert v.Value() - e * R == k * m;
    NegTimes(k, m);
    ModUnique(e * R, -k, v.Value(), m);
    ValueInjective(v, Encode(m, e));
  }

  /** The quotient behind an encoding. */
  lemma {:induction false} EncodeQuotient(m: nat, e: int) returns (k: int)
    requires 0 < m <= R
    ensures Encode(m, e).Value() == e * R - k * m
  {
    k := (e * R) / m;
  }

  lemma {:induction false} CancelTwo(a: int, m: nat)
    requires m % 2 == 1 && (2 * a) % m == 0
    ensures a % m == 0
  {
    var k := (2 * a) / m;
    assert 2 * a == k * m;
    var j := k / 2;
    if k % 2 == 1 {
      OddProduct(k, m);
    } else {
      Assoc(2, j, m);
      assert a == j * m;
      MultipleMod(j, m);
    }
  }

  lemma {:induction false} OddProduct(k: int, m: int)
    requires k % 2 == 1 && m % 2 == 1
    ensures (k * m) % 2 == 1
  {
    var i, j := k / 2, m / 2;
    assert k == 2 * i + 1 && m == 2 * j + 1;
    PlusTimes(2 * i, 1, m);
    Assoc(2, i, m);
    assert k * m == 2 * (i * m + j) + 1;
  }

  lemma {:induction false} CancelPower(a: int, e: nat, m: nat)
    requires m % 2 == 1 && (a * Pow2(e)) % m == 0
    ensures a % m == 0
  {
    if e > 0 {
      Reorder(a, 2, Pow2(e - 1));
      assert a * Pow2(e) == 2 * (a * Pow2(e - 1));
      CancelTwo(a * Pow2(e - 1), m);
      CancelPower(a, e - 1, m);
    }
  }

  lemma {:induction false} Squared(n: nat, v: nat)
    requires Pow2(n) == v
    ensures Pow2(2 * n) == v * v
  {
    Pow2Sum(n, n);
  }

  lemma {:induction false} RIsPower()
    ensures Pow2(128) == R
  {
    hide Pow2;
    PowerOne();
    Squared(1, 2);
    Squared(2, 4);
    Squared(4, 16);
    Squared(8, 0x100);
    Squared(16, 0x1_0000);
    Squared(32, 0x1_0000_0000);
    Squared(64, B);
  }

  lemma {:induction false} PowerOne()
    ensures Pow2(1) == 2
  {
  }

  lemma {:induction false} Quotient(a: int, b: int, m: nat) returns (k: int)
    requires m > 0 && Congruent(a, b, m)
    ensures a == b + k * m
  {
    k := (a - b) / m;
  }

  /** Equality of residues over 2^128 is equality of the encoded values. */
  lemma {:induction false} EncodedProduct(m: nat, r: Pair, x: int, y: int)
    requires 0 < m <= R && m % 2 == 1 && r.Value() < m
    requires Congruent(r.Value() * R, Encode(m, x).Value() * Encode(m, y).Value(), m)
    ensures r == Encode(m, x * y)
  {
    hide Encode, Pow2;
    var a := EncodeQuotient(m, x);
    var b := EncodeQuotient(m, y);
    var k := Quotient(r.Value() * R, Encode(m, x).Value() * Encode(m, y).Value(), m);
    ProductResidue(m, r.Value(), Encode(m, x).Value(), Encode(m, y).Value(), x, y, a, b, k);
    EncodeUnique(m, r, x * y);
  }

  lemma {:induction false} ProductResidue(m: nat, r: int, e: int, f: int, x: int, y: int, a: int, b: int, k: int)
    requires 0 < m && m % 2 == 1
    requires e == x * R - a * m && f == y * R - b * m && r * R == e * f + k * m
    ensures Congruent(r, x * y * R, m)
  {
    hide Pow2;
    var q := ProductQuotient(r, e, f, x, y, a, b, k, m);
    MultipleMod(q, m);
    RIsPower();
    CancelPower(r - x * y * R, 128, m);
  }

  lemma {:induction false} ProductQuotient(r: int, e: int, f: int, x: int, y: int, a: int, b: int, k: int, m: nat) returns (q: int)
    requires e == x * R - a * m && f == y * R - b * m && r * R == e * f + k * m
    ensures (r - x * y * R) * R == q * m
  {
    var X, Y := x * R, y * R;
    var p := a * Y + b * X - a * b * m;
    q := k - p;
    Expand(X, Y, a, b, m);
    assert e * f == X * Y - p * m;
    Rearrange(x, y);
    SubTimes(r, x * y * R, R);
    SubTimes(k, p, m);
  }

  lemma {:induction false} Rearrange(x: int, y: int)
    ensures (x * R) * (y * R) == x * y * R * R
  {
  }

  lemma {:induction false} Expand(X: int, Y: int, a: int, b: int, m: int)
    ensures (X - a * m) * (Y - b * m) == X * Y - (a * Y + b * X - a * b * m) * m
  {
  }

  lemma {:induction false} EncodedSum(m: nat, r: Pair, x: int, y: int)
    requires 0 < m <= R && r.Value() == (Encode(m, x).Value() + Encode(m, y).Value()) % m
    ensures r == Encode(m, x + y)
  {
    hide Encode;
    var a := EncodeQuotient(m, x);
    var b := EncodeQuotient(m, y);
    var total := Encode(m, x).Value() + Encode(m, y).Value();
    SumResidue(m, r.Value(), total, total / m, x, y, a, b);
    EncodeUnique(m, r, x + y);
  }

  lemma {:induction false} SumResidue(m: nat, r: int, total: int, k: int, x: int, y: int, a: int, b: int)
    requires 0 < m && total == x * R - a * m + (y * R - b * m) && total == k * m + r
    ensures Congruent(r, (x + y) * R, m)
  {
    PlusTimes(x, y, R);
    PlusTimes(a, b, m);
    PlusTimes(a + b, k, m);
    NegTimes(a + b + k, m);
    CongruentBy(r, (x + y) * R, -(a + b + k), m);
  }

  lemma {:induction false} EncodedNegation(m: nat, r: Pair, x: int)
    requires 0 < m <= R && r.Value() == (0 - Encode(m, x).Value()) % m
    ensures r == Encode(m, -x)
  {
    hide Encode;
    var a := EncodeQuotient(m, x);
    var k := (0 - Encode(m, x).Value()) / m;
    NegTimes(x, R);
    SubTimes(a, k, m);
    CongruentBy(r.Value(), (-x) * R, a - k, m);
    EncodeUnique(m, r, -x);
  }

  /** Retrieval inverts the encoding. */
  lemma {:induction false} Decoded(m: nat, r: Pair, x: int)
    requires 0 < m <= R && m % 2 == 1 && r.Value() < m
    requires Congruent(r.Value() * R, Encode(m, x).Value(), m)
    ensures r.Value() == x % m
  {
    hide Encode, Pow2;
    var a := EncodeQuotient(m, x);
    var k := Quotient(r.Value() * R, Encode(m, x).Value(), m);
    DecodedResidue(m, r.Value(), x, a, k);
    var q := Quotient(r.Value(), x, m);
    NegTimes(q, m);
    ModUnique(x, -q, r.Value(), m);
  }

  lemma {:induction false} DecodedResidue(m: nat, r: int, x: int, a: int, k: int)
    requires 0 < m && m % 2 == 1 && r * R == x * R - a * m + k * m
    ensures Congruent(r, x, m)
  {
    hide Pow2;
    SubTimes(r, x, R);
    SubTimes(k, a, m);
    MultipleMod(k - a, m);
    RIsPower();
    CancelPower(r - x, 128, m);
  }

  lemma {:induction false} EncodeZero(m: nat)
    requires 0 < m <= R
    ensures Encode(m, 0) == Pair(0, 0)
  {
    ModUnique(0, 0, 0, m);
  }

  /** A multiple of something that encodes to zero encodes to zero. */
  lemma {:induction false} EncodeZeroTimes(m: nat, k: int, e: int)
    requires 0 < m <= R && Encode(m, e) == Pair(0, 0)
    ensures Encode(m, k * e) == Pair(0, 0)
  {
    var q := EncodeQuotient(m, e);
    assert e * R == q * m;
    Assoc(k, e, R);
    Assoc(k, q, m);
    assert k * e * R == k * q * m;
    CongruentBy(0, k * e * R, -(k * q), m) by { NegTimes(k * q, m); }
    EncodeUnique(m, Pair(0, 0), k * e);
  }
}
