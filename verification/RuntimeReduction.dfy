/** Reduction of two's-complement integers modulo a runtime modulus: by long division for a normalized
    two-limb modulus, bit by bit otherwise. */
module RuntimeReduction {
  import M = Montgomery
  import T = NumberTheory
  import opened Powers
  import opened Limbs
  import opened KnuthDivision
  import opened StoredIntegers

  // ---------------------------------------------------------------- one limb at a time

  /** `remainder * 2^64 + word` modulo a normalized two-limb modulus. The corrected estimate is already
      the digit, so nothing is ever added back. */
  method ReduceStep2(remainder: seq<Word>, word: Word, modulus: seq<Word>) returns (r: seq<Word>, ghost addedBack: bool)
    requires |modulus| == 2 && Normalized(modulus) && |remainder| == 2 && Value(remainder) < Value(modulus)
    ensures |r| == 2 && Value(r) == (B * Value(remainder) + word) % Value(modulus) && !addedBack
  {
    hide Normalized;
    var dividend := new Word[2];
    dividend[0], dividend[1] := word, remainder[0];
    StepWindow(dividend[..], remainder, word);
    StepBound(Value(remainder), word, Value(modulus));
    hide Value, Base;
    var digit;
    digit, addedBack := DivideWindow(dividend, 0, modulus, remainder[1]);
    r := dividend[..];
    assert dividend[0..2] == r;
    M.ModUnique(B * Value(remainder) + word, digit, Value(r), Value(modulus));
  }

  lemma {:induction false} StepWindow(dividend: seq<Word>, remainder: seq<Word>, word: Word)
    requires |remainder| == 2 && dividend == [word, remainder[0]]
    ensures Window(dividend, remainder[1], 0, 2) == B * Value(remainder) + word
  {
    assert dividend[0..2] == dividend;
    TwoLimbs(dividend);
    TwoLimbs(remainder);
    assert Base(2) == B * B;
  }

  lemma {:induction false} TwoLimbs(a: seq<Word>)
    requires |a| == 2
    ensures Value(a) == a[0] + B * a[1]
  {
    assert a[1..][0] == a[1] && a[1..][1..] == [];
    assert Value(a[1..]) == a[1] + B * Value([]);
  }

  lemma {:induction false} StepBound(remainder: nat, word: Word, m: nat)
    requires remainder < m
    ensures B * remainder + word < m * B
  {
    M.ProductMonotone(remainder + 1, m, B);
  }

  /** The limbs from the top down, reduced one at a time. */
  method ReduceNormalized2(words: seq<Word>, modulus: seq<Word>) returns (r: seq<Word>)
    requires |modulus| == 2 && Normalized(modulus)
    ensures |r| == 2 && Value(r) < Value(modulus) && Value(r) == Value(words) % Value(modulus)
  {
    ModulusPositive(modulus);
    hide Value, Base, Normalized;
    r := [0, 0];
    ZeroPair();
    var i := |words|;
    M.ModUnique(0, 0, 0, Value(modulus));
    NoLimbs();
    assert words[i..] == [];
    while i > 0
      invariant 0 <= i <= |words| && |r| == 2
      invariant Value(r) == Value(words[i..]) % Value(modulus)
    {
      i := i - 1;
      ghost var was := Value(r);
      var next, _ := ReduceStep2(r, words[i], modulus);
      BottomLimb(words, i);
      StepMod(Value(words[i + 1..]), words[i], Value(modulus));
      r := next;
    }
    assert words[0..] == words;
  }

  lemma {:induction false} BottomLimb(words: seq<Word>, i: nat)
    requires i < |words|
    ensures Value(words[i..]) == words[i] + B * Value(words[i + 1..])
  {
    assert words[i..][1..] == words[i + 1..];
  }

  lemma {:induction false} StepMod(high: nat, word: nat, m: nat)
    requires m > 0
    ensures (B * (high % m) + word) % m == (word + B * high) % m
  {
    T.Shift(B * (high % m) + word, B * (high / m), m);
    M.Assoc(B, high / m, m);
    assert high == high / m * m + high % m;
  }

  lemma {:induction false} ZeroPair()
    ensures Value([0, 0]) == 0 && Value([1, 0]) == 1
  {
    TwoLimbs([0, 0]);
    TwoLimbs([1, 0]);
  }

  lemma {:induction false} ModulusPositive(modulus: seq<Word>)
    requires |modulus| == 2 && Normalized(modulus)
    ensures Value(modulus) > 1
  {
    TwoLimbs(modulus);
  }

  /** `left - right` modulo the modulus. */
  method SubtractMod2(left: seq<Word>, right: seq<Word>, modulus: seq<Word>) returns (r: seq<Word>)
    requires |left| == |right| == |modulus| && Value(left) < Value(modulus) && Value(right) < Value(modulus)
    ensures |r| == |modulus| && Value(r) == (Value(left) - Value(right)) % Value(modulus)
  {
    hide Value, Base;
    var less := LessThan(left, right);
    if !less {
      var difference, borrow := SubtractWords(left, right);
      ValueBelow(difference);
      ValueBelow(left);
      ValueBelow(modulus);
      M.ModUnique(Value(left) - Value(right), 0, Value(difference), Value(modulus));
      return difference;
    } else {
      var difference, borrow := SubtractWords(right, left);
      ValueBelow(difference);
      ValueBelow(right);
      ValueBelow(modulus);
      var complement, borrow' := SubtractWords(modulus, difference);
      ValueBelow(complement);
      M.ModUnique(Value(left) - Value(right), -1, Value(complement), Value(modulus));
      return complement;
    }
  }

  // ---------------------------------------------------------------- one bit at a time

  /** `left + right` modulo the modulus, through the carry. */
  method AddModWords(left: seq<Word>, right: seq<Word>, modulus: seq<Word>) returns (r: seq<Word>)
    requires |left| == |right| == |modulus| && Value(left) < Value(modulus) && Value(right) < Value(modulus)
    ensures |r| == |modulus| && Value(r) == (Value(left) + Value(right)) % Value(modulus)
  {
    hide Value, Base;
    var sum, carry := AddWords(left, right);
    var less := LessThan(sum, modulus);
    ValueBelow(sum);
    ValueBelow(modulus);
    if carry || !less {
      var difference, borrow := SubtractWords(sum, modulus);
      ValueBelow(difference);
      M.ModUnique(Value(left) + Value(right), 1, Value(difference), Value(modulus));
      return difference;
    } else {
      M.ModUnique(Value(left) + Value(right), 0, Value(sum), Value(modulus));
      return sum;
    }
  }

  /** The limbs of the negation of a negative integer, high zeros dropped. */
  method TwosComplementMagnitude(words: seq<Word>) returns (magnitude: seq<Word>)
    requires Negative(words)
    ensures Value(magnitude) == 0 - Signed(words)
  {
    hide Value, Base;
    magnitude := [];
    var carry := true;
    NoLimbs();
    for i := 0 to |words|
      invariant |magnitude| == i
      invariant Value(magnitude) + Value(words[..i]) + (if carry then Base(i) else 0) == Base(i)
    {
      var (word, next) := AddLimb(B - 1 - words[i], 0, carry);
      NextLimb(words, i);
      ValueSnoc(magnitude, word);
      BaseNext(i);
      ComplementLimb(Base(i), Value(magnitude), Value(words[..i]), words[i], carry, word, next);
      magnitude, carry := magnitude + [word], next;
    }
    assert words[..|words|] == words;
    NegativePositive(words);
    ValueBelow(magnitude);
    while |magnitude| > 0 && magnitude[|magnitude| - 1] == 0
      invariant Value(magnitude) == 0 - Signed(words)
    {
      NextLimb(magnitude, |magnitude| - 1);
      assert magnitude[..|magnitude| - 1 + 1] == magnitude;
      magnitude := magnitude[..|magnitude| - 1];
    }
  }

  lemma {:induction false} ComplementLimb(w: nat, magnitude: int, low: int, limb: int, carry: bool, word: int, next: bool)
    requires magnitude + low + (if carry then w else 0) == w
    requires word + (if next then B else 0) == B - 1 - limb + (if carry then 1 else 0)
    ensures (magnitude + w * word) + (low + w * limb) + (if next then B * w else 0) == B * w
  {
    var c, n := if carry then 1 else 0, if next then 1 else 0;
    assert w * (word + limb + B * n) == w * (B - 1 + c);
    Spread3(w, word, limb, B * n);
    assert w * (B - 1 + c) == B * w - w + (if carry then w else 0);
    assert w * (B * n) == if next then B * w else 0;
  }

  lemma {:induction false} NegativePositive(words: seq<Word>)
    requires Negative(words)
    ensures Value(words) > 0
  {
    ZeroValue(words);
  }

  /** Doubling and adding, most significant bit first. */
  method ReduceBits(words: seq<Word>, modulus: seq<Word>) returns (reduced: seq<Word>)
    requires |modulus| > 0 && Value(modulus) > 1
    ensures |reduced| == |modulus| && Value(reduced) == Value(words) % Value(modulus)
  {
    hide Value, Base, Pow2;
    reduced := seq(|modulus|, _ => 0);
    var one: seq<Word> := seq(|modulus|, k => if k == 0 then 1 else 0);
    OneLimb(|modulus|);
    NoLimbs();
    M.ModUnique(0, 0, 0, Value(modulus));
    var i: nat := |words|;
    assert words[i..] == [];
    while i > 0
      invariant i <= |words| && |reduced| == |modulus|
      invariant Value(reduced) == Value(words[i..]) % Value(modulus)
    {
      i := i - 1;
      reduced := AppendLimb(reduced, words[i], one, modulus, Value(words[i + 1..]));
      BottomLimb(words, i);
    }
    assert words[0..] == words;
  }

  lemma {:induction false} OneLimb(n: nat)
    requires n > 0
    ensures Value(seq(n, _ => 0)) == 0 && Value(seq(n, k => if k == 0 then 1 else 0)) == 1
  {
    ZeroLimbs(n);
    ZeroLimbs(n - 1);
    var one: seq<Word> := seq(n, k => if k == 0 then 1 else 0);
    assert one[1..] == seq(n - 1, _ => 0);
  }

  /** `word >> bit`. */
  function ShiftRight(word: Word, bit: nat): nat {
    M.NonNegative(word, Pow2(bit));
    word / Pow2(bit)
  }

  /** `high` followed by the bits of a limb from `bit` up. */
  ghost function Prefix(high: nat, word: Word, bit: nat): nat
    requires bit <= 64
  {
    M.ProductMonotone(0, high, Pow2(64 - bit));
    high * Pow2(64 - bit) + ShiftRight(word, bit)
  }

  /** The sixty-four bits of a limb, appended below `high`. */
  method AppendLimb(start: seq<Word>, word: Word, one: seq<Word>, modulus: seq<Word>, ghost high: nat) returns (reduced: seq<Word>)
    requires |start| == |one| == |modulus| && Value(modulus) > 1 && Value(one) == 1 && Value(start) == high % Value(modulus)
    ensures |reduced| == |modulus| && Value(reduced) == (word + B * high) % Value(modulus)
  {
    hide Value, Base, Pow2, ShiftRight, Prefix;
    reduced := start;
    var bit: nat := 64;
    AllShifted(word, high);
    while bit > 0
      invariant bit <= 64 && |reduced| == |modulus|
      invariant Value(reduced) == Prefix(high, word, bit) % Value(modulus)
    {
      ghost var before := Prefix(high, word, bit);
      bit := bit - 1;
      PrefixStep(high, word, bit);
      reduced := AppendBit(reduced, ShiftRight(word, bit) % 2 == 1, one, modulus, before);
    }
  }

  /** Twice the residue, and one more for a set bit. */
  method AppendBit(start: seq<Word>, odd: bool, one: seq<Word>, modulus: seq<Word>, ghost before: nat) returns (reduced: seq<Word>)
    requires |start| == |one| == |modulus| && Value(modulus) > 1 && Value(one) == 1 && Value(start) == before % Value(modulus)
    ensures |reduced| == |modulus| && Value(reduced) == (2 * before + if odd then 1 else 0) % Value(modulus)
  {
    hide Value, Base;
    DoubledMod(before, Value(modulus));
    IncrementMod(2 * before, Value(modulus));
    reduced := AddModWords(start, start, modulus);
    if odd {
      reduced := AddModWords(reduced, one, modulus);
    }
  }

  lemma {:induction false} AllShifted(word: Word, high: nat)
    ensures Prefix(high, word, 64) == high && Prefix(high, word, 0) == word + B * high
  {
    SixtyFour();
    assert Pow2(0) == 1;
    hide Pow2;
    M.ModUnique(word, 0, word, B);
  }

  lemma {:induction false} SixtyFour()
    ensures Pow2(64) == B
  {
    M.RIsPower();
    Pow2Sum(64, 64);
    assert Pow2(64) * Pow2(64) == B * B;
    hide Pow2;
    SquareRoot(Pow2(64));
  }

  lemma {:induction false} SquareRoot(x: nat)
    requires x * x == B * B
    ensures x == B
  {
    if x < B { SquareGrows(x, B); }
    if x > B { SquareGrows(B, x); }
  }

  lemma {:induction false} SquareGrows(x: nat, y: nat)
    requires x < y
    ensures x * x < y * y
  {
    M.ProductMonotone(x, y, x);
    M.ProductMonotone(x + 1, y, y);
    M.PlusTimes(x, 1, y);
  }

  lemma {:induction false} PrefixStep(high: nat, word: Word, bit: nat)
    requires bit < 64
    ensures Prefix(high, word, bit) == 2 * Prefix(high, word, bit + 1) + ShiftRight(word, bit) % 2
  {
    HalvedShift(word, Pow2(bit));
    assert Pow2(64 - bit) == 2 * Pow2(64 - bit - 1);
    M.Assoc(high, 2, Pow2(64 - bit - 1));
  }

  lemma {:induction false} HalvedShift(word: nat, p: nat)
    requires p > 0
    ensures word / p == 2 * (word / (2 * p)) + word / p % 2
  {
    var q := word / p;
    assert word == q * p + word % p;
    var h, b := q / 2, q % 2;
    assert q * p == h * (2 * p) + b * p by { M.PlusTimes(2 * h, b, p); M.Assoc(h, 2, p); }
    assert b * p == if b == 1 then p else 0;
    M.ModUnique(word, h, b * p + word % p, 2 * p);
  }

  lemma {:induction false} DoubledMod(n: nat, m: nat)
    requires m > 0
    ensures (n % m + n % m) % m == (2 * n) % m
  {
    var q, r := n / m, n % m;
    assert n == q * m + r;
    M.PlusTimes(q, q, m);
    assert 2 * n == (r + r) + (q + q) * m;
    T.Shift(r + r, q + q, m);
  }

  lemma {:induction false} IncrementMod(n: nat, m: nat)
    requires m > 0
    ensures (n % m + 1) % m == (n + 1) % m
  {
    T.Shift(n % m + 1, n / m, m);
  }

  // ---------------------------------------------------------------- the reduction

  datatype RuntimeModulus = RuntimeModulus(words: seq<Word>) {
    /** What `new` accepts. */
    ghost predicate Valid() {
      |words| > 0 && Value(words) > 1
    }

    /** The residue of a signed integer, negatives included. */
    method Reduce(value: seq<Word>) returns (r: seq<Word>)
      requires Valid()
      ensures |r| == |words| && Value(r) == Signed(value) % Value(words)
    {
      hide Value, Base;
      if |value| == 0 {
        ZeroSigned(value);
        M.ModUnique(0, 0, 0, Value(words));
        ZeroLimbs(|words|);
        return seq(|words|, _ => 0);
      }
      if |words| == 2 && words[1] >= B / 2 {
        r := ReduceNormalized2(value, words);
        if Negative(value) {
          var power := WidthPower(|value|, words);
          r := SubtractMod2(r, power, words);
          DifferenceMod(Value(value), Base(|value|), Value(words));
        }
        return r;
      }
      if Negative(value) {
        var magnitude := TwosComplementMagnitude(value);
        r := ReduceBits(magnitude, words);
        r := NegateMod(r, words);
        NegatedMod(Value(magnitude), Value(words));
      } else {
        r := ReduceBits(value, words);
      }
    }
  }

  /** `2^(64 n)` modulo the modulus, one limb at a time. */
  method WidthPower(n: nat, modulus: seq<Word>) returns (power: seq<Word>)
    requires |modulus| == 2 && Normalized(modulus)
    ensures |power| == 2 && Value(power) < Value(modulus) && Value(power) == Base(n) % Value(modulus)
  {
    ModulusPositive(modulus);
    hide Value, Base, Normalized;
    power := [1, 0];
    ZeroPair();
    NoLimbs();
    M.ModUnique(1, 0, 1, Value(modulus));
    for i := 0 to n
      invariant |power| == 2 && Value(power) == Base(i) % Value(modulus) && Value(power) < Value(modulus)
    {
      var next, _ := ReduceStep2(power, 0, modulus);
      StepMod(Base(i), 0, Value(modulus));
      BaseNext(i);
      power := next;
    }
  }

  lemma {:induction false} DifferenceMod(a: nat, b: nat, m: nat)
    requires m > 0
    ensures (a % m - b % m) % m == (a - b) % m
  {
    assert a - b == a % m - b % m + (a / m - b / m) * m by { M.SubTimes(a / m, b / m, m); }
    T.Shift(a % m - b % m, a / m - b / m, m);
  }

  /** `modulus - r`, or zero. */
  method NegateMod(r: seq<Word>, modulus: seq<Word>) returns (negated: seq<Word>)
    requires |r| == |modulus| && Value(r) < Value(modulus)
    ensures |negated| == |modulus| && Value(negated) == (0 - Value(r)) % Value(modulus)
  {
    hide Value, Base;
    ZeroValue(r);
    var zero := IsZero(r);
    if zero {
      M.ModUnique(0, 0, 0, Value(modulus));
      return r;
    }
    var difference, borrow := SubtractWords(modulus, r);
    ValueBelow(difference);
    ValueBelow(modulus);
    M.ModUnique(0 - Value(r), -1, Value(difference), Value(modulus));
    return difference;
  }

  lemma {:induction false} NegatedMod(n: nat, m: nat)
    requires m > 0
    ensures (0 - n % m) % m == (0 - n) % m
  {
    M.NegTimes(n / m, m);
    T.Shift(0 - n % m, -(n / m), m);
  }
}
