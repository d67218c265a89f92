/** The limb arithmetic behind the P-256 hints: what it computes is exactly what the gadgets take as their
    honest hints. */
module HintWords {
  import opened Wrappers
  import M = Montgomery
  import opened Powers
  import opened Numerals
  import opened Limbs
  import opened StoredIntegers
  import opened KnuthDivision
  import opened Assignments
  import opened P256Field
  import RR = RuntimeReduction
  import NT = NumberTheory

  const WIDE: nat := 9
  const PRODUCT: nat := 2 * WIDE

  // ---------------------------------------------------------------- operands

  /** Limbs padded with zeros. */
  function Padded(limbs: seq<Word>, n: nat): (padded: seq<Word>)
    requires |limbs| <= n
    ensures |padded| == n && padded[..|limbs|] == limbs
  {
    limbs + seq(n - |limbs|, _ => 0)
  }

  lemma {:induction false} PaddedValue(limbs: seq<Word>, n: nat)
    requires |limbs| <= n
    ensures Value(Padded(limbs, n)) == Value(limbs)
  {
    var zeros: seq<Word> := seq(n - |limbs|, _ => 0);
    ZeroValue(zeros);
    ValueConcat(limbs, zeros);
    ZeroTimes(Base(|limbs|));
  }

  lemma {:induction false} ZeroTimes(x: int)
    ensures x * 0 == 0
  {
  }

  /** A nonnegative evaluated integer in nine limbs; negative and oversized ones are refused. */
  method FromEvaluated(words: seq<Word>) returns (wide: Option<seq<Word>>)
    ensures wide.Some? <==> 0 <= Signed(words) < Pow2(576)
    ensures wide.Some? ==> |wide.value| == WIDE && Value(wide.value) == Signed(words)
  {
    hide Value, Base, Pow2;
    WideLimit();
    ValueBelow(words);
    SignIsNegative(words);
    if Negative(words) { return None; }
    if |words| > WIDE {
      var zero := IsZero(words[WIDE..]);
      HighLimbs(words, WIDE);
      if !zero { return None; }
      return Some(words[..WIDE]);
    }
    PaddedValue(words, WIDE);
    BaseMonotone(|words|, WIDE);
    return Some(Padded(words, WIDE));
  }

  lemma {:induction false} SignIsNegative(words: seq<Word>)
    ensures Negative(words) <==> Signed(words) < 0
  {
    ValueBelow(words);
    hide Value, Base;
  }

  /** The limbs from `n` on are zero exactly when the value is below `B^n`. */
  lemma {:induction false} HighLimbs(words: seq<Word>, n: nat)
    requires n <= |words|
    ensures (forall i: nat :: i < |words| - n ==> words[n..][i] == 0) <==> Value(words) < Base(n)
    ensures Value(words) < Base(n) ==> Value(words) == Value(words[..n])
  {
    ZeroValue(words[n..]);
    ValueConcat(words[..n], words[n..]);
    ValueBelow(words[..n]);
    hide Value, Base;
    assert words[..n] + words[n..] == words;
    var high := Value(words[n..]);
    if high > 0 { M.ProductMonotone(1, high, Base(n)); Flip(Base(n), high); } else { ZeroTimes(Base(n)); }
  }

  // ---------------------------------------------------------------- the full product

  /** Changing one limb. */
  lemma {:induction false} UpdateLimb(limbs: seq<Word>, k: nat, w: Word)
    requires k < |limbs|
    ensures Value(limbs[k := w]) == Value(limbs) + Base(k) * (w - limbs[k])
  {
    var after := limbs[k := w];
    ValueConcat(limbs[..k + 1], limbs[k + 1..]);
    ValueConcat(after[..k + 1], after[k + 1..]);
    NextLimb(limbs, k);
    NextLimb(after, k);
    hide Value, Base;
    assert limbs[..k + 1] + limbs[k + 1..] == limbs && after[..k + 1] + after[k + 1..] == after;
    assert limbs[k + 1..] == after[k + 1..] && limbs[..k] == after[..k];
    M.SubTimes(w, limbs[k], Base(k));
    Flip(Base(k), w - limbs[k]);
    Flip(Base(k), w);
    Flip(Base(k), limbs[k]);
  }

  /** One limb of the left operand times the right one, added from limb `i` on. */
  method AddRow(start: seq<Word>, i: nat, limb: Word, right: seq<Word>, rightLen: nat) returns (output: seq<Word>)
    requires rightLen <= |right| && i + rightLen < |start| && start[i + rightLen] == 0
    ensures |output| == |start| && Value(output) == Value(start) + Base(i) * (limb * Value(right[..rightLen]))
    ensures forall k :: i + rightLen < k < |start| ==> output[k] == start[k]
  {
    hide Value, Base;
    output := start;
    var carry: nat := 0;
    RowStart(Base(i), limb, right);
    for j := 0 to rightLen
      invariant |output| == |start| && carry < B
      invariant Value(output) + Base(i + j) * carry == Value(start) + Base(i) * (limb * Value(right[..j]))
      invariant forall k :: i + j <= k < |start| ==> output[k] == start[k]
    {
      M.ProductBound(limb, right[j]);
      var accumulated: nat := limb * right[j] + output[i + j] + carry;
      var low, high := accumulated % B, accumulated / B;
      Halves(accumulated, low, high);
      UpdateLimb(output, i + j, low);
      NextLimb(right, j);
      BaseSum(i, j);
      BaseNext(i + j);
      var at := i + j;
      RowStep(Base(i), Base(j), Base(at), limb, right[j], output[at], carry, low, high, Value(right[..j]));
      ghost var added, was := Base(i) * (limb * Value(right[..j])), output;
      output, carry := output[at := low], high;
      assert Value(output) - Value(was) == Base(at) * (low - was[at]);
    }
    UpdateLimb(output, i + rightLen, carry);
    output := output[i + rightLen := carry];
  }

  lemma {:induction false} RowStart(w: nat, limb: nat, right: seq<Word>)
    ensures w * (limb * Value(right[..0])) == 0 && Base(0) * 0 == 0
  {
    assert Value(right[..0]) == 0;
    ZeroTimes(limb);
    ZeroTimes(w);
  }

  lemma {:induction false} Halves(x: nat, low: nat, high: nat)
    requires low == x % B && high == x / B && x < B * B
    ensures x == low + B * high && low < B && 0 <= high < B
  {
  }

  lemma {:induction false} RowStep(
    wi: nat, wj: nat, w: nat, limb: nat, digit: nat, before: nat, carry: nat, low: nat, high: nat, value: nat
  )
    requires w == wi * wj && limb * digit + before + carry == low + B * high
    ensures w * (low - before) + B * w * high == w * carry + wi * (limb * (value + wj * digit)) - wi * (limb * value)
  {
    var gain := low - before + B * high - carry;
    assert gain == limb * digit;
    M.PlusTimes(low - before, B * high - carry, w);
    M.SubTimes(B * high, carry, w);
    RowTerms(wi, wj, w, limb, digit, value);
    Orders(w, low - before, B * high, carry, high);
  }

  lemma {:induction false} RowTerms(wi: nat, wj: nat, w: nat, limb: nat, digit: nat, value: nat)
    requires w == wi * wj
    ensures wi * (limb * (value + wj * digit)) - wi * (limb * value) == limb * digit * w
  {
    assert limb * (value + wj * digit) == limb * value + limb * (wj * digit) by { Distribute(limb, value, wj * digit); }
    Distribute(wi, limb * value, limb * (wj * digit));
    Regrouped4(wi, wj, limb, digit);
  }

  lemma {:induction false} Distribute(a: int, b: int, c: int)
    ensures a * (b + c) == a * b + a * c
  {
  }

  lemma {:induction false} Regrouped4(wi: int, wj: int, limb: int, digit: int)
    ensures wi * (limb * (wj * digit)) == limb * digit * (wi * wj)
  {
    M.Assoc(limb, wj, digit);
    M.Reorder(limb, wj, digit);
    M.Assoc(limb, digit, wj);
    Flip(wi, limb * digit * wj);
    M.Reorder(limb * digit, wj, wi);
    M.Assoc(limb * digit, wj, wi);
    Flip(wj, wi);
  }

  lemma {:induction false} Orders(w: int, a: int, b: int, c: int, high: int)
    ensures w * a == a * w && w * c == c * w && B * w * high == B * high * w
  {
    M.Assoc(B, w, high);
    M.Assoc(B, high, w);
    Flip(w, high);
  }

  /** The exact product of two nine-limb operands. */
  method MultiplyWide(left: seq<Word>, right: seq<Word>) returns (output: seq<Word>)
    requires |left| == |right| == WIDE
    ensures |output| == PRODUCT && Value(output) == Value(left) * Value(right)
  {
    hide Value, Base;
    output := seq(PRODUCT, _ => 0);
    ZeroValue(output);
    var leftLen := SignificantLimbs(left);
    var rightLen := SignificantLimbs(right);
    ghost var r := Value(right);
    NothingTimes(left, r);
    for i: nat := 0 to leftLen
      invariant |output| == PRODUCT && Value(output) == Value(left[..i]) * r
      invariant forall k: nat :: i + rightLen <= k < PRODUCT ==> output[k] == 0
    {
      NextLimb(left, i);
      output := AddRow(output, i, left[i], right, rightLen);
      M.PlusTimes(Value(left[..i]), Base(i) * left[i], r);
      M.Assoc(Base(i), left[i], r);
    }
  }

  lemma {:induction false} NothingTimes(left: seq<Word>, r: nat)
    ensures Value(left[..0]) * r == 0
  {
  }

  /** A multiple of the modulus. */
  method ModulusMultiple(modulus: seq<Word>, factor: Word) returns (output: seq<Word>)
    requires |modulus| == 4
    ensures |output| == WIDE && Value(output) == factor * Value(modulus)
  {
    hide Value, Base;
    output := [];
    var carry: nat := 0;
    RowStart(1, factor, modulus);
    NoLimbs();
    for index := 0 to 4
      invariant |output| == index && carry < B
      invariant Value(output) + Base(index) * carry == factor * Value(modulus[..index])
    {
      M.ProductBound(modulus[index], factor);
      var product: nat := modulus[index] * factor + carry;
      var low, high := product % B, product / B;
      Halves(product, low, high);
      ValueSnoc(output, low);
      NextLimb(modulus, index);
      BaseNext(index);
      MultipleStep(Base(index), factor, modulus[index], carry, low, high, Value(modulus[..index]));
      output, carry := output + [low], high;
    }
    assert modulus[..4] == modulus;
    ValueSnoc(output, carry);
    PaddedValue(output + [carry], WIDE);
    output := Padded(output + [carry], WIDE);
  }

  lemma {:induction false} MultipleStep(w: nat, factor: nat, digit: nat, carry: nat, low: nat, high: nat, value: nat)
    requires digit * factor + carry == low + B * high
    ensures w * low + B * w * high - w * carry == factor * (value + w * digit) - factor * value
  {
    Distribute(factor, value, w * digit);
    Distribute(w, low, B * high);
    Distribute(w, digit * factor, carry);
    M.Assoc(B, w, high);
    M.Assoc(w, B, high);
    Flip(B, w);
    M.Assoc(B, w, high);
    Flip(factor, w * digit);
    M.Assoc(w, digit, factor);
  }

  /** Adds shorter limbs; true when the sum does not fit. */
  method AddAssign(wide: seq<Word>, rhs: seq<Word>) returns (sum: seq<Word>, overflow: bool)
    requires |rhs| <= |wide|
    ensures |sum| == |wide| && Value(sum) + (if overflow then Base(|wide|) else 0) == Value(wide) + Value(rhs)
  {
    PaddedValue(rhs, |wide|);
    sum, overflow := AddWords(wide, Padded(rhs, |wide|));
  }

  /** Subtracts shorter limbs; false when the difference would be negative. */
  method SubAssign(wide: seq<Word>, rhs: seq<Word>) returns (difference: seq<Word>, fits: bool)
    requires |rhs| <= |wide|
    ensures |difference| == |wide| && (fits <==> Value(rhs) <= Value(wide))
    ensures fits ==> Value(difference) == Value(wide) - Value(rhs)
  {
    hide Value, Base;
    PaddedValue(rhs, |wide|);
    ValueBelow(wide);
    var borrow;
    difference, borrow := SubtractWords(wide, Padded(rhs, |wide|));
    ValueBelow(difference);
    ValueBelow(Padded(rhs, |wide|));
    fits := !borrow;
  }

  // ---------------------------------------------------------------- packing

  lemma {:induction false} BaseIsPower(n: nat)
    ensures Base(n) == Pow2(64 * n)
  {
    if n == 0 {
      assert Pow2(0) == 1;
    } else {
      BaseIsPower(n - 1);
      RR.SixtyFour();
      Pow2Sum(64, 64 * (n - 1));
    }
  }

  /** Nine limbs are 576 bits. */
  lemma {:induction false} WideLimit()
    ensures Base(WIDE) == Pow2(576)
  {
    hide Base, Pow2;
    BaseIsPower(WIDE);
  }

  /** The bits of limbs, from the lowest on. */
  function LimbBits(limbs: seq<Word>, n: nat): seq<bool> {
    Bits(n, Value(limbs))
  }

  /** Four limbs of remainder, then the quotient's low bits. */
  lemma {:induction false} PackedBits(remainder: seq<Word>, quotient: seq<Word>)
    requires |remainder| == 4 && |quotient| >= 5
    ensures LimbBits(remainder + quotient[..5], 521) == Bits(256, Value(remainder)) + Bits(265, Value(quotient))
  {
    hide Value, Base, Bits, Pow2;
    var r, q, low := Value(remainder), Value(quotient), Value(quotient[..5]);
    var v := Value(remainder + quotient[..5]);
    ValueConcat(remainder, quotient[..5]);
    ValueBelow(remainder);
    BaseIsPower(4);
    Flip(Pow2(256), low);
    M.ModUnique(v, low, r, Pow2(256));
    BitsSplit(256, 265, v, low);
    BitsModulo(256, v);
    BitsModulo(256, r);
    M.ModUnique(r, 0, r, Pow2(256));
    LowQuotient(quotient);
  }

  /** Five limbs hold the low 265 bits. */
  lemma {:induction false} LowQuotient(quotient: seq<Word>)
    requires |quotient| >= 5
    ensures Bits(265, Value(quotient[..5])) == Bits(265, Value(quotient))
  {
    hide Value, Base, Bits, Pow2;
    var low, high := Value(quotient[..5]), Value(quotient[5..]);
    ValueConcat(quotient[..5], quotient[5..]);
    assert quotient[..5] + quotient[5..] == quotient;
    BaseIsPower(5);
    Pow2Sum(265, 55);
    M.Assoc(Pow2(265), Pow2(55), high);
    Flip(Pow2(265), Pow2(55) * high);
    NT.Shift(low, Pow2(55) * high, Pow2(265));
    BitsModulo(265, low);
    BitsModulo(265, Value(quotient));
  }

  // ---------------------------------------------------------------- the hints

  /** Quotient and remainder of the dividend, exactly. */
  method Divide(dividend: seq<Word>, modulus: seq<Word>) returns (quotient: seq<Word>, remainder: seq<Word>)
    requires |dividend| >= 5 && |modulus| == 4 && Normalized(modulus)
    ensures |quotient| == |dividend| && |remainder| == 4 && Value(modulus) > 0
    ensures Value(quotient) == Value(dividend) / Value(modulus) && Value(remainder) == Value(dividend) % Value(modulus)
  {
    hide Value, Normalized;
    quotient, remainder := DivRem(dividend, modulus);
    M.ModUnique(Value(dividend), Value(quotient), Value(remainder), Value(modulus));
  }

  /** The packed remainder and quotient of nonnegative limbs. */
  method PackDivision(dividend: seq<Word>, modulus: seq<Word>) returns (hint: Hinted)
    requires |dividend| >= 5 && |modulus| == 4 && Normalized(modulus)
    ensures Value(modulus) > 0 && hint == RemainderQuotient(true, Value(dividend), Value(modulus), 265)
  {
    hide Value, Normalized, Bits;
    var quotient, remainder := Divide(dividend, modulus);
    PackedBits(remainder, quotient);
    hint := Gives(LimbBits(remainder + quotient[..5], 521));
  }

  /** The operand fits 576 bits. */
  ghost predicate Sized(words: seq<Word>) {
    Signed(words) < Pow2(576)
  }

  /** The hint of a multiplication: refused for a negative or oversized factor, else the division of the
      exact product. */
  method MulHint(x: seq<Word>, y: seq<Word>, modulus: seq<Word>) returns (hint: Hinted)
    requires |modulus| == 4 && Normalized(modulus)
    ensures Value(modulus) > 0
    ensures Sized(x) && Sized(y) ==>
      hint == RemainderQuotient(Signed(x) >= 0 && Signed(y) >= 0, Signed(x) * Signed(y), Value(modulus), 265)
    ensures !Sized(x) || !Sized(y) ==> hint == Fails
  {
    hide Value, Base, Signed, Normalized, Bits;
    DivisorPositive(modulus);
    var a := FromEvaluated(x);
    if a.None? { return Fails; }
    var b := FromEvaluated(y);
    if b.None? { return Fails; }
    var product := MultiplyWide(a.value, b.value);
    hint := PackDivision(product, modulus);
  }

  lemma {:induction false} DivisorPositive(modulus: seq<Word>)
    requires |modulus| == 4 && Normalized(modulus)
    ensures Value(modulus) > 0
  {
    ZeroValue(modulus);
  }

  /** The hint of a reduction. */
  method ReduceHint(x: seq<Word>, modulus: seq<Word>) returns (hint: Hinted)
    requires |modulus| == 4 && Normalized(modulus)
    ensures Value(modulus) > 0
    ensures hint == if Sized(x) then RemainderQuotient(true, Signed(x), Value(modulus), 265) else Fails
  {
    hide Value, Base, Signed, Normalized, Bits;
    DivisorPositive(modulus);
    var a := FromEvaluated(x);
    if a.None? { return Fails; }
    hint := PackDivision(a.value, modulus);
  }

  /** A product raised by a bias of moduli, less a target: nothing when it overflows or is negative. */
  method ShiftProduct(a: seq<Word>, b: seq<Word>, bias: seq<Word>, target: seq<Word>) returns (shifted: Option<seq<Word>>)
    requires |a| == |b| == |bias| == |target| == WIDE
    ensures shifted.Some? <==>
      Value(a) * Value(b) + Value(bias) < Base(PRODUCT) && Value(target) <= Value(a) * Value(b) + Value(bias)
    ensures shifted.Some? ==>
      |shifted.value| == PRODUCT && Value(shifted.value) == Value(a) * Value(b) + Value(bias) - Value(target)
  {
    hide Value, Base;
    var product := MultiplyWide(a, b);
    var sum, overflow := AddAssign(product, bias);
    ValueBelow(sum);
    if overflow { return None; }
    var difference, fits := SubAssign(sum, target);
    if !fits { return None; }
    return Some(difference);
  }

  /** The shifted product fits its eighteen limbs. */
  ghost predicate Room(product: int, bound: nat, p: nat) {
    product + bound * p < Base(PRODUCT)
  }

  /** The hint of a product less a target: the division of the shifted product. */
  method MulSubHint(x: seq<Word>, y: seq<Word>, target: seq<Word>, bound: Word, modulus: seq<Word>) returns (hint: Hinted)
    requires |modulus| == 4 && Normalized(modulus)
    ensures Value(modulus) > 0
    ensures Sized(x) && Sized(y) && Sized(target) && Room(Signed(x) * Signed(y), bound, Value(modulus)) ==>
      hint == RemainderQuotient(Signed(x) >= 0 && Signed(y) >= 0 && Signed(target) >= 0,
        Shifted(Signed(x) * Signed(y), Rep(Signed(target), bound), Value(modulus)), Value(modulus), 265)
    ensures !Sized(x) || !Sized(y) || !Sized(target) ==> hint == Fails
  {
    hide Value, Base, Signed, Normalized, Bits;
    DivisorPositive(modulus);
    var bias := ModulusMultiple(modulus, bound);
    var a := FromEvaluated(x);
    if a.None? { return Fails; }
    var b := FromEvaluated(y);
    if b.None? { return Fails; }
    var c := FromEvaluated(target);
    if c.None? { return Fails; }
    var shifted := ShiftProduct(a.value, b.value, bias, c.value);
    if shifted.None? { return Fails; }
    hint := PackDivision(shifted.value, modulus);
  }

  /** The hint of an asserted product: the quotient alone. */
  method MulEqHint(x: seq<Word>, y: seq<Word>, target: seq<Word>, bound: Word, modulus: seq<Word>) returns (hint: Hinted)
    requires |modulus| == 4 && Normalized(modulus)
    ensures Value(modulus) > 0
    ensures Sized(x) && Sized(y) && Sized(target) && Room(Signed(x) * Signed(y), bound, Value(modulus)) ==>
      var dividend := Shifted(Signed(x) * Signed(y), Rep(Signed(target), bound), Value(modulus));
      hint == if Signed(x) >= 0 && Signed(y) >= 0 && Signed(target) >= 0 && dividend >= 0
              then QuotientHint(dividend, Value(modulus), 265) else Fails
    ensures !Sized(x) || !Sized(y) || !Sized(target) ==> hint == Fails
  {
    hide Value, Base, Signed, Normalized, Bits;
    DivisorPositive(modulus);
    var bias := ModulusMultiple(modulus, bound);
    var a := FromEvaluated(x);
    if a.None? { return Fails; }
    var b := FromEvaluated(y);
    if b.None? { return Fails; }
    var c := FromEvaluated(target);
    if c.None? { return Fails; }
    var shifted := ShiftProduct(a.value, b.value, bias, c.value);
    if shifted.None? { return Fails; }
    var quotient, _ := Divide(shifted.value, modulus);
    LowQuotient(quotient);
    hint := Gives(LimbBits(quotient[..5], 265));
  }

  // ---------------------------------------------------------------- the operands that occur

  /** Lazy representatives within the gadgets' bounds have the sizes the hints ask for. */
  lemma {:induction false} OperandsFit(x: Rep, y: Rep, target: Rep, p: nat)
    requires IsModulus(p) && Multipliable(x, y, p) && target.Fits(p) && target.bound <= 100
    ensures x.value < Pow2(576) && y.value < Pow2(576) && target.value < Pow2(576)
    ensures Room(x.value * y.value, target.bound, p)
  {
    FactorBounds(x.bound, y.bound);
    SmallMultiple(x.bound, p);
    SmallMultiple(y.bound, p);
    SmallMultiple(target.bound, p);
    hide Base, Pow2, IsModulus;
    WideLimit();
    BaseMonotone(5, WIDE);
    BaseSum(5, 5);
    BelowSquare(x.value, y.value, Base(5));
    BaseMonotone(5, 10);
    BaseNext(10);
    BaseMonotone(11, PRODUCT);
  }

  lemma {:induction false} FactorBounds(a: nat, b: nat)
    requires 0 < a && 0 < b && a * b <= 500
    ensures a <= 500 && b <= 500
  {
    M.ProductMonotone(1, b, a);
    M.ProductMonotone(1, a, b);
  }

  lemma {:induction false} BelowSquare(x: nat, y: nat, w: nat)
    requires x <= w && y <= w
    ensures x * y <= w * w
  {
    M.ProductMonotone(x, w, y);
    M.ProductMonotone(y, w, w);
  }

  lemma {:induction false} SmallMultiple(k: nat, p: nat)
    requires IsModulus(p) && k <= 512
    ensures k * p <= Base(5)
  {
    hide Pow2, Base;
    BaseIsPower(5);
    Pow2Sum(9, 256);
    Pow2Monotone(265, 320);
    assert Pow2(9) == 512 by { NineBits(); }
    M.ProductMonotone(k, 512, p);
    M.ProductMonotone(p, Pow2(256), 512);
  }

  lemma {:induction false} NineBits()
    ensures Pow2(9) == 512
  {
    assert Pow2(3) == 8 && Pow2(6) == 64;
  }
}
