/** The lazy field gadgets of the P-256 circuit, run under an arbitrary assignment. Each says what a
    satisfied run means modulo `p`, and that the honest hints fit their widths and satisfy it. */
module P256Field {
  import M = Montgomery
  import opened Powers
  import opened Numerals
  import opened Assignments
  import opened NumberTheory
  import opened Residue

  const BASE_MODULUS: nat := 0xffffffff_00000001_00000000_00000000_00000000_ffffffff_ffffffff_ffffffff
  const SCALAR_MODULUS: nat := 0xffffffff_00000000_ffffffff_ffffffff_bce6faad_a7179e84_f3b9cac2_fc632551

  /** A modulus of 256 bits, close enough to `2^256` that 66 of them cover 262 bits. */
  ghost predicate IsModulus(p: nat) {
    32 * Pow2(256) <= 33 * p && p < Pow2(256)
  }

  lemma {:induction false} BothAreModuli()
    ensures IsModulus(BASE_MODULUS) && IsModulus(SCALAR_MODULUS)
  {
    M.RIsPower();
    Pow2Sum(128, 128);
    hide Pow2;
  }

  // ---------------------------------------------------------------- lazy representatives

  /** An integer standing for its residue, with a bound on its size in multiples of the modulus. */
  datatype Rep = Rep(value: int, bound: nat) {
    ghost predicate Fits(p: nat) {
      0 <= value < bound * p
    }
  }

  function RepAdd(x: Rep, y: Rep): Rep {
    Rep(x.value + y.value, x.bound + y.bound)
  }

  function RepSub(p: nat, x: Rep, y: Rep): Rep {
    Rep(x.value + y.bound * p - y.value, x.bound + y.bound)
  }

  function RepScale(k: nat, x: Rep): Rep {
    Rep(x.value * k, k * x.bound)
  }

  /** Sums, differences and multiples keep `0 <= value < bound p` and mean what they say. */
  lemma {:induction false} RepKeeps(p: nat, x: Rep, y: Rep, k: nat)
    requires p > 0
    ensures x.Fits(p) && y.Fits(p) ==> RepAdd(x, y).Fits(p) && RepSub(p, x, y).Fits(p)
    ensures x.Fits(p) && k > 0 ==> RepScale(k, x).Fits(p)
    ensures Eq(RepSub(p, x, y).value, x.value - y.value, p)
  {
    M.PlusTimes(x.bound, y.bound, p);
    EqBy(RepSub(p, x, y).value, x.value - y.value, y.bound, p);
    if x.Fits(p) && k > 0 { ScaledBound(x.value, x.bound, k, p); }
  }

  lemma {:induction false} ScaledBound(v: nat, bound: nat, k: nat, p: nat)
    requires v < bound * p && k > 0
    ensures 0 <= v * k < k * bound * p
  {
    M.ProductMonotone(0, v, k);
    M.ProductMonotone(v + 1, bound * p, k);
    M.PlusTimes(v, 1, k);
    M.Assoc(k, bound, p);
  }

  // ---------------------------------------------------------------- hinted words

  /** The number in a slice of hinted bits. */
  function Slice(bits: seq<bool>, from: nat, width: nat): (n: nat)
    requires from + width <= |bits|
    ensures n < Pow2(width)
  {
    NumberBelow(bits[from..from + width]);
    Number(bits[from..from + width])
  }

  /** What a division hint returns: the remainder in 256 bits, then the quotient; an error unless the
      operands are usable and the dividend is not negative. */
  ghost function RemainderQuotient(usable: bool, dividend: int, p: nat, quotientBits: nat): Hinted
    requires p > 0
  {
    if !usable || dividend < 0 then Fails
    else
      M.NonNegative(dividend, p);
      Gives(Bits(256, dividend % p) + Bits(quotientBits, dividend / p))
  }

  /** Hints a division by `p` and splits the bits. */
  method HintDivision(c: Circuit, p: nat, quotientBits: nat, ghost usable: bool, ghost dividend: int)
      returns (r: nat, q: nat)
    requires p > 0
    modifies c
    ensures Emits(c, 256 + quotientBits, 0)
    ensures c.satisfied == old(c.satisfied) && (c.honest ==> old(c.honest))
    ensures c.failed == (old(c.failed) || !usable || dividend < 0)
    ensures r < Pow2(256) && q < Pow2(quotientBits)
    ensures c.honest && usable && IsModulus(p) && 0 <= dividend && 0 <= dividend / p < Pow2(quotientBits) ==>
      r == dividend % p && q == dividend / p
  {
    hide Bits, Pow2;
    var bits := c.Hint(256 + quotientBits, RemainderQuotient(usable, dividend, p, quotientBits));
    r, q := Slice(bits, 0, 256), Slice(bits, 256, quotientBits);
    if c.honest && usable && IsModulus(p) && 0 <= dividend && 0 <= dividend / p < Pow2(quotientBits) {
      HintedSplit(bits, dividend % p, dividend / p, quotientBits);
    }
  }

  lemma {:induction false} HintedSplit(bits: seq<bool>, r: nat, q: nat, quotientBits: nat)
    requires r < Pow2(256) && q < Pow2(quotientBits) && bits == Bits(256, r) + Bits(quotientBits, q)
    ensures Slice(bits, 0, 256) == r && Slice(bits, 256, quotientBits) == q
  {
    hide Bits, Number, Pow2;
    Exact(256, r);
    Exact(quotientBits, q);
    assert bits[0..256] == Bits(256, r);
    assert bits[256..256 + quotientBits] == Bits(quotientBits, q);
  }

  lemma {:induction false} QuotientFits(dividend: nat, p: nat, most: nat)
    requires p > 0 && dividend < most * p
    ensures 0 <= dividend / p < most
    ensures dividend == dividend % p + dividend / p * p
  {
    M.NonNegative(dividend, p);
    var q := dividend / p;
    assert dividend == q * p + dividend % p;
    if q >= most { M.ProductMonotone(most, q, p); }
  }

  /** `2^265` is 512 moduli and more. */
  lemma {:induction false} Wide265(p: nat)
    requires IsModulus(p)
    ensures Pow2(265) == 512 * Pow2(256) > 512 * p && Pow2(9) == 512
  {
    Pow2Sum(9, 256);
    assert Pow2(9) == 512;
  }

  /** The product of two representatives, and the number of moduli it may hold. */
  lemma {:induction false} ProductFits(x: Rep, y: Rep, p: nat)
    requires IsModulus(p) && x.Fits(p) && y.Fits(p) && 0 < x.bound && 0 < y.bound && x.bound * y.bound <= 500
    ensures 0 <= x.value * y.value < 500 * p * p
  {
    M.ProductMonotone(0, x.value, y.value);
    M.ProductMonotone(x.value, x.bound * p, y.value);
    M.ProductMonotone(y.value + 1, y.bound * p, x.bound * p);
    M.PlusTimes(y.value, 1, x.bound * p);
    assert y.bound * p * (x.bound * p) == x.bound * y.bound * p * p by { Regroup(x.bound, y.bound, p); }
    M.ProductMonotone(x.bound * y.bound, 500, p);
    M.ProductMonotone(x.bound * y.bound * p, 500 * p, p);
    BoundPositive(x.bound, p);
  }

  lemma {:induction false} BoundPositive(k: nat, p: nat)
    requires k > 0 && p > 0
    ensures k * p > 0
  {
  }

  lemma {:induction false} Regroup(a: int, b: int, p: int)
    ensures b * p * (a * p) == a * b * p * p
  {
    M.Assoc(b * p, a, p);
    M.Assoc(a, b, p);
    M.Reorder(b, p, a);
  }

  // ---------------------------------------------------------------- multiplication

  /** A hinted 256-bit word as a representative. */
  ghost predicate IsWord(r: Rep, p: nat) {
    r.bound == 2 && 0 <= r.value < Pow2(256) && (IsModulus(p) ==> r.Fits(p))
  }

  function WordRep(r: nat): Rep {
    Rep(r, 2)
  }

  lemma {:induction false} WordFits(r: nat, p: nat)
    requires r < Pow2(256)
    ensures IsWord(WordRep(r), p)
  {
    hide Pow2;
  }

  /** Operands the products of the circuit are made for. */
  ghost predicate Multipliable(x: Rep, y: Rep, p: nat) {
    x.Fits(p) && y.Fits(p) && 0 < x.bound && 0 < y.bound && x.bound * y.bound <= 500
  }

  lemma {:induction false} DivisionFits(dividend: nat, p: nat, most: nat)
    requires IsModulus(p) && dividend < most * p && most <= 512 * p
    ensures 0 <= dividend / p < Pow2(265)
    ensures dividend == dividend % p + dividend / p * p
  {
    Wide265(p);
    QuotientFits(dividend, p, most);
    hide IsModulus, Pow2;
  }

  method LazyMul(c: Circuit, p: nat, x: Rep, y: Rep) returns (r: Rep)
    requires p > 0
    modifies c
    ensures Emits(c, 521, 1)
    ensures IsWord(r, p) && Extends(c)
    ensures c.satisfied ==> Eq(r.value, x.value * y.value, p)
    ensures IsModulus(p) && Multipliable(x, y, p) ==> Completes(c)
  {
    hide Pow2, IsModulus, Multipliable, Eq;
    ghost var product := x.value * y.value;
    var remainder, q := HintDivision(c, p, 265, x.value >= 0 && y.value >= 0, product);
    c.AssertR1c(x.value, y.value, remainder + q * p);
    r := WordRep(remainder);
    WordFits(remainder, p);
    if c.satisfied { EqBy(product, remainder, q, p); EqBack(product, remainder, p); }
    if IsModulus(p) && Multipliable(x, y, p) {
      MultipliableProduct(x, y, p);
      DivisionFits(product, p, 500 * p);
    }
  }

  lemma {:induction false} EqBack(a: int, b: int, p: nat)
    requires Eq(a, b, p)
    ensures Eq(b, a, p)
  {
  }

  lemma {:induction false} MultipliableProduct(x: Rep, y: Rep, p: nat)
    requires IsModulus(p) && Multipliable(x, y, p)
    ensures x.value >= 0 && y.value >= 0 && 0 <= x.value * y.value < 500 * p * p
  {
    ProductFits(x, y, p);
  }

  // ---------------------------------------------------------------- multiplication less a target

  /** A product raised by the target's bias less the target. */
  ghost function Shifted(product: int, target: Rep, p: nat): int {
    product + target.bound * p - target.value
  }

  lemma {:induction false} ShiftedFits(product: nat, target: Rep, p: nat)
    requires IsModulus(p) && target.Fits(p) && target.bound <= 100 && product < 500 * p * p
    ensures 0 <= Shifted(product, target, p) < 512 * p * p
    ensures 0 <= Shifted(product, target, p) / p < Pow2(265)
    ensures var d := Shifted(product, target, p); d == d % p + d / p * p
  {
    assert p >= 10 by { Wide265(p); TwoFiftySix(); }
    hide IsModulus, Pow2;
    assert 0 <= Shifted(product, target, p) < 512 * p * p by { ShiftedBound(product, target.value, target.bound, p); }
    DivisionFits(Shifted(product, target, p), p, 512 * p);
  }

  lemma {:induction false} TwoFiftySix()
    ensures Pow2(256) >= 256
  {
    Pow2Monotone(8, 256);
    assert Pow2(8) == 256;
  }

  lemma {:induction false} ShiftedBound(product: nat, v: nat, bound: nat, p: nat)
    requires p >= 10 && v < bound * p && bound <= 100 && product < 500 * p * p
    ensures 0 <= product + bound * p - v < 512 * p * p
  {
    M.ProductMonotone(bound, 100, p);
    M.ProductMonotone(100, 12 * p, p);
    M.PlusTimes(500 * p, 12 * p, p);
  }

  /** `x y - target`, as a word. */
  method LazyMulSub(c: Circuit, p: nat, x: Rep, y: Rep, target: Rep) returns (r: Rep)
    requires p > 0
    modifies c
    ensures Emits(c, 521, 1)
    ensures IsWord(r, p) && Extends(c)
    ensures c.satisfied ==> Eq(r.value, x.value * y.value - target.value, p)
    ensures IsModulus(p) && Multipliable(x, y, p) && target.Fits(p) && target.bound <= 100 ==> Completes(c)
  {
    hide Pow2, IsModulus, Multipliable, Eq;
    ghost var product := x.value * y.value;
    ghost var shifted := Shifted(product, target, p);
    var remainder, q := HintDivision(c, p, 265, x.value >= 0 && y.value >= 0 && target.value >= 0, shifted);
    c.AssertR1c(x.value, y.value, remainder + target.value + q * p - target.bound * p);
    r := WordRep(remainder);
    WordFits(remainder, p);
    if c.satisfied { RemainderMeans(product - target.value, remainder, q, target.bound, p); }
    if IsModulus(p) && Multipliable(x, y, p) && target.Fits(p) && target.bound <= 100 {
      MultipliableProduct(x, y, p);
      ShiftedFits(product, target, p);
    }
  }

  lemma {:induction false} RemainderMeans(value: int, r: int, q: int, bound: int, p: nat)
    requires p > 0 && value == r + q * p - bound * p
    ensures Eq(r, value, p)
  {
    M.SubTimes(q, bound, p);
    EqBy(value, r, q - bound, p);
  }

  /** Asserts `x y = target` modulo `p`. */
  method AssertMulEq(c: Circuit, p: nat, x: Rep, y: Rep, target: Rep)
    requires p > 0
    modifies c
    ensures Emits(c, 265, 1)
    ensures Extends(c)
    ensures c.satisfied ==> Eq(x.value * y.value, target.value, p)
    ensures IsModulus(p) && Multipliable(x, y, p) && target.Fits(p) && target.bound <= 100 ==>
      Eq(x.value * y.value, target.value, p) ==> Completes(c)
  {
    hide Pow2, IsModulus, Multipliable, Eq;
    ghost var product := x.value * y.value;
    ghost var shifted := Shifted(product, target, p);
    var q := HintQuotient(c, p, 265, x.value >= 0 && y.value >= 0 && target.value >= 0, shifted);
    c.AssertR1c(x.value, y.value, target.value + q * p - target.bound * p);
    if c.satisfied {
      M.SubTimes(q, target.bound, p);
      EqBy(product, target.value, q - target.bound, p);
    }
    if IsModulus(p) && Multipliable(x, y, p) && target.Fits(p) && target.bound <= 100 && Eq(product, target.value, p) {
      MultipliableProduct(x, y, p);
      ShiftedFits(product, target, p);
      ShiftedDivides(product, target, p);
    }
  }

  lemma {:induction false} ShiftedDivides(product: int, target: Rep, p: nat)
    requires p > 0 && Eq(product, target.value, p)
    ensures Shifted(product, target, p) % p == 0
  {
    EqBy(Shifted(product, target, p), product - target.value, target.bound, p);
    EqDifference(product, target.value, p);
  }

  /** Hints the quotient of a division by `p`. */
  method HintQuotient(c: Circuit, p: nat, bits: nat, ghost usable: bool, ghost dividend: int) returns (q: nat)
    requires p > 0
    modifies c
    ensures Emits(c, bits, 0)
    ensures c.satisfied == old(c.satisfied) && (c.honest ==> old(c.honest))
    ensures c.failed == (old(c.failed) || !usable || dividend < 0)
    ensures q < Pow2(bits)
    ensures c.honest && usable && 0 <= dividend && 0 <= dividend / p < Pow2(bits) ==> q == dividend / p
  {
    hide Bits, Number, Pow2;
    ghost var hint := if usable && dividend >= 0 then QuotientHint(dividend, p, bits) else Fails;
    var word := c.Hint(bits, hint);
    q := Number(word);
    NumberBelow(word);
    if usable && 0 <= dividend && 0 <= dividend / p < Pow2(bits) { Exact(bits, dividend / p); }
  }

  ghost function QuotientHint(dividend: nat, p: nat, bits: nat): Hinted
    requires p > 0
  {
    M.NonNegative(dividend, p);
    Gives(Bits(bits, dividend / p))
  }

  // ---------------------------------------------------------------- division

  /** Operands the divisions of the circuit are made for. */
  ghost predicate Divisible(d: Rep, n: Rep, p: nat) {
    IsModulus(p) && d.Fits(p) && n.Fits(p) && 0 < d.bound <= 100 && n.bound <= 100 && !Eq(d.value, 0, p)
  }

  /** `numerator / denominator` as a word: `value * denominator = numerator` modulo `p`. */
  method LazyDivide(c: Circuit, p: nat, denominator: Rep, numerator: Rep) returns (r: Rep)
    requires Prime(p)
    modifies c
    ensures Emits(c, 521, 1)
    ensures IsWord(r, p) && Extends(c)
    ensures c.satisfied ==> Eq(r.value * denominator.value, numerator.value, p)
    ensures Divisible(denominator, numerator, p) ==> Completes(c)
  {
    assert p >= 2;
    hide Pow2, Eq, Prime, Quotient, Bits, Divisible, Shifted, DivisionHint;
    ghost var usable := denominator.value >= 0 && numerator.value >= 0 && !Eq(denominator.value, 0, p);
    ghost var value := Quotient(numerator.value, denominator.value, p);
    ghost var shifted := Shifted(value * denominator.value, numerator, p);
    var bits := c.Hint(521, DivisionHint(usable, value, shifted, p));
    var word, q := Slice(bits, 0, 256), Slice(bits, 256, 265);
    c.AssertR1c(word, denominator.value, numerator.value + q * p - numerator.bound * p);
    r := WordRep(word);
    WordFits(word, p);
    QuotientMeans(word, denominator.value, numerator, q, p);
    if Divisible(denominator, numerator, p) { HonestDivision(p, denominator, numerator, bits); }
  }

  lemma {:induction false} QuotientMeans(word: int, d: int, n: Rep, q: int, p: nat)
    requires p > 0
    ensures word * d == n.value + q * p - n.bound * p ==> Eq(word * d, n.value, p)
  {
    M.SubTimes(q, n.bound, p);
    if word * d == n.value + q * p - n.bound * p { EqBy(word * d, n.value, q - n.bound, p); }
  }

  ghost function DivisionHint(usable: bool, value: nat, shifted: int, p: nat): Hinted
    requires p > 0
  {
    if !usable || shifted < 0 then Fails
    else
      M.NonNegative(shifted, p);
      Gives(Bits(256, value) + Bits(265, shifted / p))
  }

  /** On usable operands the hint does not fail, and its bits satisfy the division. */
  lemma {:induction false} HonestDivision(p: nat, d: Rep, n: Rep, bits: seq<bool>)
    requires Prime(p) && Divisible(d, n, p) && |bits| == 521
    ensures var value := Quotient(n.value, d.value, p);
      var hint := DivisionHint(d.value >= 0 && n.value >= 0 && !Eq(d.value, 0, p), value, Shifted(value * d.value, n, p), p);
      && hint.Gives?
      && (bits == hint.bits ==>
            Slice(bits, 0, 256) * d.value == n.value + Slice(bits, 256, 265) * p - n.bound * p)
  {
    assert p >= 2;
    var value := Quotient(n.value, d.value, p);
    var shifted := Shifted(value * d.value, n, p);
    HonestQuotient(p, d, n);
    hide Prime, Quotient, Pow2, Bits, Eq, Shifted;
    if bits == Bits(256, value) + Bits(265, shifted / p) { HintedSplit(bits, value, shifted / p, 265); }
  }

  lemma {:induction false} HonestQuotient(p: nat, d: Rep, n: Rep)
    requires Prime(p) && Divisible(d, n, p)
    ensures var value := Quotient(n.value, d.value, p);
      var shifted := Shifted(value * d.value, n, p);
      && value < Pow2(256) && d.value >= 0 && n.value >= 0 && 0 <= shifted && 0 <= shifted / p < Pow2(265)
      && value * d.value == n.value + shifted / p * p - n.bound * p
  {
    var value := Quotient(n.value, d.value, p);
    QuotientIs(n.value, d.value, p);
    hide Prime, Quotient, Pow2;
    ProductFits(Rep(value, 1), d, p);
    ShiftedFits(value * d.value, n, p);
    ShiftedDivides(value * d.value, n, p);
  }
}
