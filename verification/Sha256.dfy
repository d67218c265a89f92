/** The SHA-256 circuit: words as bits for the Boolean logic and as integers for the sums, run under
    an arbitrary assignment. */
module Sha256 {
  import M = Montgomery
  import opened Powers
  import opened Numerals
  import opened Assignments
  import opened Sha256Spec

  // ---------------------------------------------------------------- words with their lifts

  /** Bits with the integer they stand for and the integer of the low 32. */
  datatype UInt = UInt(word: seq<bool>, full: int, low32: int) {
    ghost predicate Good(n: nat) {
      |word| == n >= 32 && full == Number(word) && low32 == Number(word[..32])
    }
  }

  ghost predicate Good32(u: UInt) {
    |u.word| == 32 && u.full == u.low32 == Number(u.word)
  }

  function UIntFromWord(word: seq<bool>): (u: UInt)
    requires |word| >= 32
    ensures u.word == word && u.Good(|word|) && (|word| == 32 ==> Good32(u))
  {
    assert |word| == 32 ==> word[..32] == word;
    UInt(word, Number(word), Number(word[..32]))
  }

  function UIntConstant(value: nat): (u: UInt)
    requires value < Pow2(32)
    ensures Good32(u) && u.word == Bits(32, value)
  {
    Exact(32, value);
    UInt(Bits(32, value), value, value)
  }

  // ---------------------------------------------------------------- sums

  ghost function SumOf(terms: seq<UInt>): int {
    if |terms| == 0 then 0 else SumOf(terms[..|terms| - 1]) + terms[|terms| - 1].full
  }

  ghost predicate AllGood(terms: seq<UInt>) {
    forall i :: 0 <= i < |terms| ==> Good32(terms[i])
  }

  lemma {:induction false} SumBound(terms: seq<UInt>)
    requires AllGood(terms)
    ensures 0 <= SumOf(terms) && (|terms| > 0 ==> SumOf(terms) < |terms| * Pow2(32))
  {
    if |terms| > 0 {
      var n := |terms| - 1;
      SumBound(terms[..n]);
      NumberBelow(terms[n].word);
      M.PlusTimes(n, 1, Pow2(32));
    }
  }

  method Total(terms: seq<UInt>) returns (sum: int)
    ensures sum == SumOf(terms)
  {
    sum := 0;
    for i := 0 to |terms|
      invariant sum == SumOf(terms[..i])
    {
      var next := i + 1;
      assert terms[..next][..i] == terms[..i];
      sum := sum + terms[i].full;
    }
    assert terms[..|terms|] == terms;
  }

  /** The low 32 bits of a wider word. */
  function Narrowed(wide: UInt): (u: UInt)
    requires wide.Good(|wide.word|)
    ensures Good32(u) && u.word == wide.word[..32]
  {
    UInt(wide.word[..32], wide.low32, wide.low32)
  }

  /** A sum of words, decomposed into `width` bits. */
  method Sum32(c: Circuit, width: nat, terms: seq<UInt>) returns (u: UInt)
    requires 32 <= width <= 64 && 0 < |terms| <= Pow2(width - 32) && AllGood(terms)
    modifies c
    ensures Emits(c, width, 1)
    ensures Good32(u) && Extends(c) && Completes(c)
    ensures c.satisfied ==> 0 <= SumOf(terms) && u.word == Bits(32, SumOf(terms))
  {
    hide SumOf, Number, Bits, Pow2;
    SumBound(terms);
    SumFits(|terms|, SumOf(terms), width);
    ghost var honest := Bits(width, SumOf(terms));
    var bits := c.Hint(width, Gives(honest));
    var wide := UIntFromWord(bits);
    var inputSum := Total(terms);
    c.AssertZero(inputSum - wide.full);
    u := Narrowed(wide);
    if c.satisfied { SumIsLow(bits, SumOf(terms)); }
    Exact(width, SumOf(terms));
  }

  lemma {:induction false} SumFits(count: nat, sum: nat, width: nat)
    requires 32 <= width && 0 < count <= Pow2(width - 32) && sum < count * Pow2(32)
    ensures sum < Pow2(width)
  {
    Pow2Sum(width - 32, 32);
    M.ProductMonotone(count, Pow2(width - 32), Pow2(32));
  }

  lemma {:induction false} SumIsLow(bits: seq<bool>, sum: nat)
    requires |bits| >= 32 && Number(bits) == sum
    ensures bits[..32] == Bits(32, sum)
  {
    LowBits(bits, 32);
    NumberOfBits(32, sum);
    NumberDetermines(bits[..32], Bits(32, sum));
  }

  // ---------------------------------------------------------------- the circuit's word operations

  /** The bits moved down, those that fall out coming back on top. */
  function RotateRight(word: Word32, amount: nat): Word32
    requires amount < 32
  {
    word[amount..] + word[..amount]
  }

  function ShiftRight(word: Word32, amount: nat): Word32
    requires amount < 32
  {
    word[amount..] + seq(amount, _ => false)
  }

  function Xor3(x: Word32, y: Word32, z: Word32): Word32 {
    Xor(Xor(x, y), z)
  }

  /** Bit by bit, the circuit's rotations and shifts are the functions of section 4.1.2. */
  lemma {:induction false} SmallSigmas(x: Word32, y: Word32)
    ensures Xor3(RotateRight(x, 7), RotateRight(x, 18), ShiftRight(x, 3)) == SmallSigma0(x)
    ensures Xor3(RotateRight(y, 17), RotateRight(y, 19), ShiftRight(y, 10)) == SmallSigma1(y)
    ensures forall i: nat :: i < 32 ==> SmallSigma0(x)[i] == ((x[(i + 7) % 32] != x[(i + 18) % 32]) != (i + 3 < 32 && x[i + 3]))
    ensures forall i: nat :: i < 32 ==> SmallSigma1(y)[i] == ((y[(i + 17) % 32] != y[(i + 19) % 32]) != (i + 10 < 32 && y[i + 10]))
  {
    Rotated(x, 7);
    Rotated(x, 18);
    Shifted(x, 3);
    Rotated(y, 17);
    Rotated(y, 19);
    Shifted(y, 10);
  }

  lemma {:induction false} BigSigmas(x: Word32, y: Word32)
    ensures Xor3(RotateRight(x, 2), RotateRight(x, 13), RotateRight(x, 22)) == BigSigma0(x)
    ensures Xor3(RotateRight(y, 6), RotateRight(y, 11), RotateRight(y, 25)) == BigSigma1(y)
    ensures forall i: nat :: i < 32 ==> BigSigma0(x)[i] == ((x[(i + 2) % 32] != x[(i + 13) % 32]) != x[(i + 22) % 32])
    ensures forall i: nat :: i < 32 ==> BigSigma1(y)[i] == ((y[(i + 6) % 32] != y[(i + 11) % 32]) != y[(i + 25) % 32])
  {
    Rotated(x, 2);
    Rotated(x, 13);
    Rotated(x, 22);
    Rotated(y, 6);
    Rotated(y, 11);
    Rotated(y, 25);
  }

  lemma {:induction false} Rotated(x: Word32, n: nat)
    requires n < 32
    ensures RotateRight(x, n) == Rotr(x, n)
  {
    forall i: nat | i < 32 ensures RotateRight(x, n)[i] == Rotr(x, n)[i] {
      M.ModUnique(i + n, if i + n < 32 then 0 else 1, if i + n < 32 then i + n else i + n - 32, 32);
    }
  }

  lemma {:induction false} Shifted(x: Word32, n: nat)
    requires n < 32
    ensures ShiftRight(x, n) == Shr(x, n)
  {
  }

  // ---------------------------------------------------------------- choice and majority

  /** `y + z - (x ^ y) + (x ^ z)` is twice the choice. */
  lemma {:induction false} ChoiceIdentity(x: seq<bool>, y: seq<bool>, z: seq<bool>)
    requires |x| == |y| == |z|
    ensures Number(y) + Number(z) - Number(Xor(x, y)) + Number(Xor(x, z)) == 2 * Number(Ch(x, y, z))
    decreases |x|
  {
    if |x| > 0 {
      ChoiceIdentity(x[1..], y[1..], z[1..]);
      assert Xor(x, y)[1..] == Xor(x[1..], y[1..]) && Xor(x, z)[1..] == Xor(x[1..], z[1..]);
      assert Ch(x, y, z)[1..] == Ch(x[1..], y[1..], z[1..]);
    }
  }

  /** `x + y + z - (x ^ y ^ z)` is twice the majority. */
  lemma {:induction false} MajorityIdentity(x: seq<bool>, y: seq<bool>, z: seq<bool>)
    requires |x| == |y| == |z|
    ensures Number(x) + Number(y) + Number(z) - Number(Xor(Xor(x, y), z)) == 2 * Number(Maj(x, y, z))
    decreases |x|
  {
    if |x| > 0 {
      MajorityIdentity(x[1..], y[1..], z[1..]);
      assert Xor(Xor(x, y), z)[1..] == Xor(Xor(x[1..], y[1..]), z[1..]);
      assert Maj(x, y, z)[1..] == Maj(x[1..], y[1..], z[1..]);
    }
  }

  method ChoiceTwice(x: UInt, y: UInt, z: UInt) returns (twice: int)
    requires Good32(x) && Good32(y) && Good32(z)
    ensures twice == 2 * Number(Ch(x.word, y.word, z.word))
  {
    var xy := UIntFromWord(Xor(x.word, y.word));
    var xz := UIntFromWord(Xor(x.word, z.word));
    twice := y.full + z.full - xy.full + xz.full;
    ChoiceIdentity(x.word, y.word, z.word);
  }

  method MajorityTwice(x: UInt, y: UInt, z: UInt) returns (twice: int)
    requires Good32(x) && Good32(y) && Good32(z)
    ensures twice == 2 * Number(Maj(x.word, y.word, z.word))
  {
    var xyz := UIntFromWord(Xor(Xor(x.word, y.word), z.word));
    twice := x.full + y.full + z.full - xyz.full;
    MajorityIdentity(x.word, y.word, z.word);
  }

  ghost function NumbersOf(words: seq<seq<bool>>): int {
    if |words| == 0 then 0 else NumbersOf(words[..|words| - 1]) + Number(words[|words| - 1])
  }

  function SumInts(values: seq<int>): int {
    if |values| == 0 then 0 else SumInts(values[..|values| - 1]) + values[|values| - 1]
  }

  lemma {:induction false} NumbersBound(words: seq<seq<bool>>)
    requires forall i :: 0 <= i < |words| ==> |words[i]| == 32
    ensures 0 <= NumbersOf(words) && NumbersOf(words) <= |words| * (Pow2(32) - 1)
  {
    if |words| > 0 {
      var n := |words| - 1;
      NumbersBound(words[..n]);
      NumberBelow(words[n]);
      M.PlusTimes(n, 1, Pow2(32) - 1);
    }
  }

  lemma {:induction false} Halves(doubled: seq<int>, words: seq<seq<bool>>)
    requires |doubled| == |words| && forall i :: 0 <= i < |words| ==> doubled[i] == 2 * Number(words[i])
    ensures SumInts(doubled) == 2 * NumbersOf(words)
  {
    if |words| > 0 { Halves(doubled[..|words| - 1], words[..|words| - 1]); }
  }

  /** A sum of words and of values given doubled; `extras` are the words the doubled values stand for. */
  method SumDoubled32(c: Circuit, ordinary: seq<UInt>, doubled: seq<int>, ghost extras: seq<seq<bool>>) returns (u: UInt)
    requires 0 < |ordinary| && |ordinary| + |doubled| <= 7 && AllGood(ordinary) && |extras| == |doubled|
    requires forall i :: 0 <= i < |extras| ==> |extras[i]| == 32 && doubled[i] == 2 * Number(extras[i])
    modifies c
    ensures Emits(c, 35, 1)
    ensures Good32(u) && Extends(c) && Completes(c)
    ensures 0 <= SumOf(ordinary) && 0 <= NumbersOf(extras)
    ensures c.satisfied ==> u.word == Bits(32, SumOf(ordinary) + NumbersOf(extras))
  {
    hide SumOf, Number, Bits, NumbersOf, SumInts, Pow2;
    SumBound(ordinary);
    NumbersBound(extras);
    Halves(doubled, extras);
    ghost var half := SumOf(ordinary) + NumbersOf(extras);
    DoubledFits(|ordinary|, |extras|, SumOf(ordinary), NumbersOf(extras));
    var bits := c.Hint(35, Gives(Bits(35, half)));
    var wide := UIntFromWord(bits);
    var total := Total(ordinary);
    c.AssertZero(total * 2 + SumInts(doubled) - wide.full * 2);
    u := Narrowed(wide);
    if c.satisfied { SumIsLow(bits, half); }
    Exact(35, half);
  }

  lemma {:induction false} DoubledFits(n: nat, m: nat, sum: nat, extra: nat)
    requires n > 0 && n + m <= 7 && sum < n * Pow2(32) && extra <= m * (Pow2(32) - 1)
    ensures sum + extra < Pow2(35)
  {
    var p := Pow2(32);
    assert Pow2(35) == 8 * p;
    hide Pow2;
    SevenTerms(n, m, p);
  }

  lemma {:induction false} SevenTerms(n: nat, m: nat, p: nat)
    requires n > 0 && n + m <= 7 && p > 0
    ensures n * p + m * (p - 1) <= 7 * p
  {
    assert m * (p - 1) == m * p - m by { M.SubTimes(p, 1, m); }
    M.PlusTimes(n, m, p);
    M.ProductMonotone(n + m, 7, p);
  }

  // ---------------------------------------------------------------- sums as the standard writes them

  lemma {:induction false} PlusOf(m: nat, n: nat)
    ensures Plus(Bits(32, m), Bits(32, n)) == Bits(32, m + n)
  {
    hide Number, Bits, Pow2;
    NumberOfBits(32, m);
    NumberOfBits(32, n);
    NumberOfBits(32, m + n);
    var sum := Number(Bits(32, m)) + Number(Bits(32, n));
    NumberOfBits(32, sum);
    SumModulo(m, n, Pow2(32));
    NumberDetermines(Bits(32, sum), Bits(32, m + n));
  }

  lemma {:induction false} SumModulo(m: nat, n: nat, p: nat)
    requires p > 0
    ensures (m % p + n % p) % p == (m + n) % p
  {
    var total, q := m % p + n % p, m / p + n / p;
    assert m + n == total + q * p by { M.PlusTimes(m / p, n / p, p); }
    M.PlusTimes(total / p, q, p);
    M.ModUnique(m + n, total / p + q, total % p, p);
  }

  /** Word addition adds the numbers. */
  lemma {:induction false} PlusNumbers(x: Word32, n: nat)
    ensures Plus(Bits(32, n), x) == Bits(32, n + Number(x)) && Plus(x, Bits(32, n)) == Bits(32, Number(x) + n)
  {
    BitsOfNumber(x);
    PlusOf(n, Number(x));
    PlusOf(Number(x), n);
  }

  lemma {:induction false} FourWords(x0: Word32, x1: Word32, x2: Word32, x3: Word32)
    ensures Plus(Plus(Plus(x0, x1), x2), x3) == Bits(32, Number(x0) + Number(x1) + Number(x2) + Number(x3))
  {
    hide Number, Bits, Plus;
    BitsOfNumber(x0);
    PlusNumbers(x1, Number(x0));
    PlusNumbers(x2, Number(x0) + Number(x1));
    PlusNumbers(x3, Number(x0) + Number(x1) + Number(x2));
  }

  lemma {:induction false} ScheduleSum(block: seq<Word32>, t: nat)
    requires |block| == 16 && t >= 16
    ensures Schedule(block, t) == Bits(32, Number(Schedule(block, t - 16)) + Number(SmallSigma0(Schedule(block, t - 15)))
      + Number(Schedule(block, t - 7)) + Number(SmallSigma1(Schedule(block, t - 2))))
  {
    FourWords(SmallSigma1(Schedule(block, t - 2)), Schedule(block, t - 7), SmallSigma0(Schedule(block, t - 15)),
      Schedule(block, t - 16));
    hide Number, Bits, Plus, SmallSigma0, SmallSigma1;
  }

  /** The first temporary of a round as one sum. */
  lemma {:induction false} FirstTemporary(x0: Word32, x1: Word32, x2: Word32, x3: Word32, x4: Word32)
    ensures Plus(Plus(Plus(Plus(x0, x1), x2), x3), x4)
      == Bits(32, Number(x0) + Number(x1) + Number(x2) + Number(x3) + Number(x4))
  {
    hide Number, Bits, Plus;
    FourWords(x0, x1, x2, x3);
    PlusNumbers(x4, Number(x0) + Number(x1) + Number(x2) + Number(x3));
  }

  lemma {:induction false} RoundSums(s: State, k: Word32, w: Word32)
    ensures var t1 := Number(s.h) + Number(BigSigma1(s.e)) + Number(Ch(s.e, s.f, s.g)) + Number(k) + Number(w);
      var r := Round(s, k, w);
      && r.e == Bits(32, Number(s.d) + t1)
      && r.a == Bits(32, t1 + (Number(BigSigma0(s.a)) + Number(Maj(s.a, s.b, s.c))))
      && r.b == s.a && r.c == s.b && r.d == s.c && r.f == s.e && r.g == s.f && r.h == s.g
  {
    hide Number, Bits, Plus, BigSigma0, BigSigma1, Ch, Maj;
    var s0, maj := BigSigma0(s.a), Maj(s.a, s.b, s.c);
    var n := Number(s.h) + Number(BigSigma1(s.e)) + Number(Ch(s.e, s.f, s.g)) + Number(k) + Number(w);
    FirstTemporary(s.h, BigSigma1(s.e), Ch(s.e, s.f, s.g), k, w);
    PlusNumbers(s.d, n);
    assert Plus(s0, maj) == Bits(32, Number(s0) + Number(maj)) by {
      BitsOfNumber(s0);
      PlusNumbers(maj, Number(s0));
    }
    PlusOf(n, Number(s0) + Number(maj));
  }

  lemma {:induction false} SumSnoc(terms: seq<UInt>, x: UInt)
    ensures SumOf(terms + [x]) == SumOf(terms) + x.full
  {
    assert (terms + [x])[..|terms|] == terms;
  }

  lemma {:induction false} SumOfTwo(a: UInt, b: UInt)
    ensures SumOf([a, b]) == a.full + b.full
  {
    assert SumOf([]) == 0;
    hide SumOf;
    SumSnoc([], a);
    SumSnoc([a], b);
    assert [] + [a] == [a] && [a] + [b] == [a, b];
  }

  lemma {:induction false} SumOfFour(a: UInt, b: UInt, c: UInt, d: UInt)
    ensures SumOf([a, b, c, d]) == a.full + b.full + c.full + d.full
  {
    hide SumOf;
    SumOfTwo(a, b);
    SumSnoc([a, b], c);
    SumSnoc([a, b, c], d);
    assert [a, b] + [c] == [a, b, c] && [a, b, c] + [d] == [a, b, c, d];
  }

  lemma {:induction false} SumOfFive(a: UInt, b: UInt, c: UInt, d: UInt, e: UInt)
    ensures SumOf([a, b, c, d, e]) == a.full + b.full + c.full + d.full + e.full
  {
    hide SumOf;
    SumOfFour(a, b, c, d);
    SumSnoc([a, b, c, d], e);
    assert [a, b, c, d] + [e] == [a, b, c, d, e];
  }

  lemma {:induction false} NumbersOfFew(a: seq<bool>, b: seq<bool>)
    ensures NumbersOf([a]) == Number(a) && NumbersOf([a, b]) == Number(a) + Number(b)
  {
    assert [a][..0] == [] && [a, b][..1] == [a];
  }

  // ---------------------------------------------------------------- the message schedule

  ghost predicate Scheduled(block: seq<Word32>, schedule: seq<UInt>)
    requires |block| == 16
  {
    forall t: nat :: t < |schedule| ==> schedule[t].word == Schedule(block, t)
  }

  method BuildSchedule(c: Circuit, block: seq<Word32>) returns (schedule: seq<UInt>)
    requires |block| == 16
    modifies c
    ensures Emits(c, 48 * 34, 48)
    ensures |schedule| == 64 && AllGood(schedule) && Extends(c) && Completes(c)
    ensures c.satisfied ==> Scheduled(block, schedule)
  {
    hide Good32, Schedule;
    schedule := [];
    for i := 0 to 16
      invariant |schedule| == i && AllGood(schedule) && forall t: nat :: t < i ==> schedule[t].word == block[t]
    {
      var lifted := UIntFromWord(block[i]);
      schedule := schedule + [lifted];
    }
    FirstWords(block, schedule);
    for i := 16 to 64
      invariant Emits(c, 34 * (i - 16), i - 16)
      invariant |schedule| == i && AllGood(schedule) && Extends(c) && Completes(c)
      invariant c.satisfied ==> Scheduled(block, schedule)
    {
      schedule := ExtendSchedule(c, block, schedule);
    }
  }

  lemma {:induction false} FirstWords(block: seq<Word32>, schedule: seq<UInt>)
    requires |block| == 16 == |schedule| && forall t: nat :: t < 16 ==> schedule[t].word == block[t]
    ensures Scheduled(block, schedule)
  {
  }

  method ExtendSchedule(c: Circuit, ghost block: seq<Word32>, schedule: seq<UInt>) returns (longer: seq<UInt>)
    requires |block| == 16 && 16 <= |schedule| < 64 && AllGood(schedule)
    modifies c
    ensures Emits(c, 34, 1)
    ensures |longer| == |schedule| + 1 && AllGood(longer) && Extends(c) && Completes(c)
    ensures c.satisfied && Scheduled(block, schedule) ==> Scheduled(block, longer)
  {
    hide SmallSigma0, SmallSigma1, Schedule, Bits, SumOf, Number, Pow2;
    var i := |schedule|;
    assert Good32(schedule[i - 16]) && Good32(schedule[i - 15]) && Good32(schedule[i - 7]) && Good32(schedule[i - 2]);
    var word15, word2 := schedule[i - 15].word, schedule[i - 2].word;
    SmallSigmas(word15, word2);
    var sigma0 := UIntFromWord(Xor3(RotateRight(word15, 7), RotateRight(word15, 18), ShiftRight(word15, 3)));
    var sigma1 := UIntFromWord(Xor3(RotateRight(word2, 17), RotateRight(word2, 19), ShiftRight(word2, 10)));
    hide Xor3, RotateRight, ShiftRight;
    var terms := [schedule[i - 16], sigma0, schedule[i - 7], sigma1];
    FourFit();
    var sum := Sum32(c, 34, terms);
    SumOfFour(schedule[i - 16], sigma0, schedule[i - 7], sigma1);
    ScheduleSum(block, i);
    longer := schedule + [sum];
  }

  lemma {:induction false} FourFit()
    ensures Pow2(2) == 4 && Pow2(1) == 2
  {
  }

  // ---------------------------------------------------------------- the rounds

  datatype Working = Working(a: UInt, b: UInt, c: UInt, d: UInt, e: UInt, f: UInt, g: UInt, h: UInt) {
    ghost predicate Good() {
      Good32(a) && Good32(b) && Good32(c) && Good32(d) && Good32(e) && Good32(f) && Good32(g) && Good32(h)
    }

    ghost function Words(): State
      requires Good()
    {
      State(a.word, b.word, c.word, d.word, e.word, f.word, g.word, h.word)
    }
  }

  method RoundStep(c: Circuit, s: Working, constant: nat, w: UInt) returns (r: Working)
    requires s.Good() && Good32(w) && constant < Pow2(32)
    modifies c
    ensures Emits(c, 70, 2)
    ensures r.Good() && Extends(c) && Completes(c)
    ensures c.satisfied ==> r.Words() == Round(s.Words(), Bits(32, constant), w.word)
  {
    hide BigSigma0, BigSigma1, Ch, Maj, Round, Bits, SumOf, NumbersOf, Number, Pow2;
    BigSigmas(s.a.word, s.e.word);
    var bigSigma1 := UIntFromWord(Xor3(RotateRight(s.e.word, 6), RotateRight(s.e.word, 11), RotateRight(s.e.word, 25)));
    var choice := ChoiceTwice(s.e, s.f, s.g);
    var bigSigma0 := UIntFromWord(Xor3(RotateRight(s.a.word, 2), RotateRight(s.a.word, 13), RotateRight(s.a.word, 22)));
    hide Xor3, RotateRight;
    var majority := MajorityTwice(s.a, s.b, s.c);
    var k := UIntConstant(constant);
    ghost var ch, maj := Ch(s.e.word, s.f.word, s.g.word), Maj(s.a.word, s.b.word, s.c.word);
    var e := SumDoubled32(c, [s.d, s.h, bigSigma1, k, w], [choice], [ch]);
    var a := SumDoubled32(c, [s.h, bigSigma1, k, w, bigSigma0], [choice, majority], [ch, maj]);
    r := Working(a, s.a, s.b, s.c, e, s.e, s.f, s.g);
    SumOfFive(s.d, s.h, bigSigma1, k, w);
    SumOfFive(s.h, bigSigma1, k, w, bigSigma0);
    NumbersOfFew(ch, maj);
    RoundSums(s.Words(), k.word, w.word);
  }

  lemma {:induction false} ConstantFits(t: nat)
    requires t < 64
    ensures RoundConstant(t) < Pow2(32)
  {
    ThirtyTwo();
    hide Pow2;
  }

  /** The bits hinted in one compression: the schedule's sums, the rounds' and the final ones. */
  const COMPRESSION_HINT_BITS: nat := 48 * 34 + 64 * 70 + 8 * 33

  /** One compression of a block into a chaining value. */
  method Compression(c: Circuit, block: seq<Word32>, state: State) returns (out: Working)
    requires |block| == 16
    modifies c
    ensures Emits(c, COMPRESSION_HINT_BITS, 48 + 64 * 2 + 8)
    ensures out.Good() && Extends(c) && Completes(c)
    ensures c.satisfied ==> out.Words() == Compress(state, block)
  {
    hide Round, Schedule, Bits, Number, Rounds, Scheduled, Compress, RoundConstant;
    var start := Working(UIntFromWord(state.a), UIntFromWord(state.b), UIntFromWord(state.c), UIntFromWord(state.d),
                         UIntFromWord(state.e), UIntFromWord(state.f), UIntFromWord(state.g), UIntFromWord(state.h));
    var schedule := BuildSchedule(c, block);
    var s := start;
    NoRounds(state, block);
    for i := 0 to 64
      invariant Emits(c, 48 * 34 + 70 * i, 48 + 2 * i)
      invariant s.Good() && Extends(c) && Completes(c)
      invariant c.satisfied ==> Scheduled(block, schedule) && s.Words() == Rounds(state, block, i)
    {
      ConstantFits(i);
      assert Good32(schedule[i]);
      s := RoundStep(c, s, RoundConstant(i), schedule[i]);
      NextRound(state, block, schedule, i);
    }
    out := AddState(c, start, s);
    FinalSum(state, block);
  }

  lemma {:induction false} NoRounds(state: State, block: seq<Word32>)
    requires |block| == 16
    ensures Rounds(state, block, 0) == state
  {
  }

  lemma {:induction false} NextRound(state: State, block: seq<Word32>, schedule: seq<UInt>, t: nat)
    requires |block| == 16 && t < 64 && |schedule| == 64 && AllGood(schedule)
    ensures Scheduled(block, schedule) ==>
      Rounds(state, block, t + 1) == Round(Rounds(state, block, t), Bits(32, RoundConstant(t)), schedule[t].word)
  {
  }

  ghost function SumStates(r: State, s: State): State {
    State(Plus(r.a, s.a), Plus(r.b, s.b), Plus(r.c, s.c), Plus(r.d, s.d),
          Plus(r.e, s.e), Plus(r.f, s.f), Plus(r.g, s.g), Plus(r.h, s.h))
  }

  lemma {:induction false} FinalSum(state: State, block: seq<Word32>)
    requires |block| == 16
    ensures Compress(state, block) == SumStates(Rounds(state, block, 64), state)
  {
  }

  method AddWords(c: Circuit, x: UInt, y: UInt) returns (u: UInt)
    requires Good32(x) && Good32(y)
    modifies c
    ensures Emits(c, 33, 1)
    ensures Good32(u) && Extends(c) && Completes(c)
    ensures c.satisfied ==> u.word == Plus(y.word, x.word)
  {
    hide Bits, Number, Pow2, SumOf;
    FourFit();
    u := Sum32(c, 33, [x, y]);
    SumOfTwo(x, y);
  }

  /** Adds the chaining value to the working variables, word by word. */
  method AddState(c: Circuit, state: Working, working: Working) returns (out: Working)
    requires state.Good() && working.Good()
    modifies c
    ensures Emits(c, 8 * 33, 8)
    ensures out.Good() && Extends(c) && Completes(c)
    ensures c.satisfied ==> out.Words() == SumStates(working.Words(), state.Words())
  {
    hide Plus, Good32;
    var a := AddWords(c, state.a, working.a);
    var b := AddWords(c, state.b, working.b);
    var c' := AddWords(c, state.c, working.c);
    var d := AddWords(c, state.d, working.d);
    var e := AddWords(c, state.e, working.e);
    var f := AddWords(c, state.f, working.f);
    var g := AddWords(c, state.g, working.g);
    var h := AddWords(c, state.h, working.h);
    out := Working(a, b, c', d, e, f, g, h);
  }

  // ---------------------------------------------------------------- block-aligned messages

  /** The last block of a block-aligned message: a one bit, zeros, and the length. */
  function PaddingBlock(length: nat): (block: seq<Word32>)
    ensures |block| == 16
  {
    var low, high := length % 0x1_0000_0000, length / 0x1_0000_0000 % 0x1_0000_0000;
    var zero := Bits(32, 0);
    [Bits(32, 0x8000_0000), zero, zero, zero, zero, zero, zero, zero,
     zero, zero, zero, zero, zero, zero, Bits(32, high), Bits(32, low)]
  }

  lemma {:induction false} LengthWords(length: nat)
    ensures Bits(64, length)[..32] == Bits(32, length % 0x1_0000_0000)
    ensures Bits(64, length)[32..] == Bits(32, length / 0x1_0000_0000 % 0x1_0000_0000)
  {
    ThirtyTwo();
    hide Bits, Pow2;
    BitsSplit(32, 32, length, length / Pow2(32));
    BitsModulo(32, length);
    BitsModulo(32, length / Pow2(32));
  }

  lemma {:induction false} LeadingOne()
    ensures Bits(32, 0x8000_0000) == seq(31, _ => false) + [true]
  {
    ThirtyTwo();
    assert Pow2(32) == 2 * Pow2(31);
    TopBit(31);
  }

  /** The padded stream of a block-aligned message is the message and one more block. */
  lemma {:induction false} PaddedAligned(message: seq<bool>)
    requires |message| % 512 == 0
    ensures var tail := [true] + seq(447, _ => false) + Reversed(Bits(64, |message|));
      Padded(message) == message + tail && |tail| == 512 && |Padded(message)| / 512 == |message| / 512 + 1
  {
    assert ZeroBits(|message|) == 447;
  }

  /** Word `j` of the last block. */
  lemma {:induction false} PaddingWord(message: seq<bool>, j: nat)
    requires |message| % 512 == 0 && j < 16
    ensures |Padded(message)| == |message| + 512 && BlockWord(Padded(message), |message| / 512, j) == PaddingBlock(|message|)[j]
  {
    hide Bits;
    PaddedAligned(message);
    var tail := [true] + seq(447, _ => false) + Reversed(Bits(64, |message|));
    var n := |message| / 512;
    assert 512 * n == |message|;
    assert Padded(message)[512 * n + 32 * j..512 * n + 32 * j + 32] == tail[32 * j..32 * j + 32];
    LengthWords(|message|);
    LeadingOne();
    NoBits(32);
    TailWord(|message|, j);
  }

  lemma {:induction false} TailWord(length: nat, j: nat)
    requires j < 16
    requires Bits(64, length)[..32] == Bits(32, length % 0x1_0000_0000)
    requires Bits(64, length)[32..] == Bits(32, length / 0x1_0000_0000 % 0x1_0000_0000)
    requires Bits(32, 0x8000_0000) == seq(31, _ => false) + [true] && Bits(32, 0) == seq(32, _ => false)
    ensures var tail := [true] + seq(447, _ => false) + Reversed(Bits(64, length));
      |tail| == 512 && Reversed(tail[32 * j..32 * j + 32]) == PaddingBlock(length)[j]
  {
    hide Bits;
    var tail := [true] + seq(447, _ => false) + Reversed(Bits(64, length));
    var word := Reversed(tail[32 * j..32 * j + 32]);
    forall w: nat | w < 32 ensures word[w] == PaddingBlock(length)[j][w] {
      assert word[w] == tail[32 * j + 31 - w];
      if j == 0 {
        assert PaddingBlock(length)[j] == seq(31, _ => false) + [true];
      } else if j < 14 {
        assert PaddingBlock(length)[j] == Bits(32, 0);
      } else if j == 14 {
        assert PaddingBlock(length)[j][w] == Bits(64, length)[32 + w];
      } else {
        assert PaddingBlock(length)[j][w] == Bits(64, length)[w];
      }
    }
  }

  lemma {:induction false} LastBlock(message: seq<bool>)
    requires |message| % 512 == 0
    ensures |Padded(message)| == |message| + 512 && Block(Padded(message), |message| / 512) == PaddingBlock(|message|)
  {
    hide PaddingBlock, BlockWord, Padded;
    PaddingWord(message, 0);
    var block := Block(Padded(message), |message| / 512);
    forall j: nat | j < 16 ensures block[j] == PaddingBlock(|message|)[j] {
      PaddingWord(message, j);
    }
  }

  /** Block `i` of the message as the circuit reads it: bit `b` of word `w` is stream bit `512 i + 32 w + 31 - b`. */
  method ReadBlock(message: seq<bool>, i: nat) returns (block: seq<Word32>)
    requires |message| % 512 == 0 && 512 * i + 512 <= |message|
    ensures |Padded(message)| == |message| + 512 && block == Block(Padded(message), i)
  {
    PaddedAligned(message);
    hide Padded;
    block := seq(16, w requires 0 <= w < 16 => seq(32, b requires 0 <= b < 32 => message[512 * i + 32 * w + (31 - b)]));
    forall w: nat | w < 16 ensures block[w] == BlockWord(Padded(message), i, w) {
      assert Padded(message)[512 * i + 32 * w..512 * i + 32 * w + 32] == message[512 * i + 32 * w..512 * i + 32 * w + 32];
    }
  }

  /** The digest bits in stream order. */
  method DigestBits(digest: Working) returns (bits: seq<bool>)
    requires digest.Good()
    ensures bits == Output(digest.Words())
  {
    var words := [digest.a.word, digest.b.word, digest.c.word, digest.d.word,
                  digest.e.word, digest.f.word, digest.g.word, digest.h.word];
    bits := seq(256, i requires 0 <= i < 256 => words[i / 32][31 - i % 32]);
    forall i: nat | i < 256 ensures bits[i] == Output(digest.Words())[i] {
      OutputAt(digest.Words(), words, i);
    }
  }

  lemma {:induction false} OutputAt(s: State, words: seq<seq<bool>>, i: nat)
    requires words == [s.a, s.b, s.c, s.d, s.e, s.f, s.g, s.h] && i < 256
    ensures |Output(s)| == 256 && Output(s)[i] == words[i / 32][31 - i % 32]
  {
    var word, bit := i / 32, i % 32;
    assert Reversed(words[word])[bit] == words[word][31 - bit];
    OutputWord(s, words, word, bit);
  }

  lemma {:induction false} OutputWord(s: State, words: seq<seq<bool>>, word: nat, bit: nat)
    requires words == [s.a, s.b, s.c, s.d, s.e, s.f, s.g, s.h] && word < 8 && bit < 32
    ensures |Output(s)| == 256 && Output(s)[32 * word + bit] == Reversed(words[word])[bit]
  {
    hide Reversed;
  }

  /** SHA-256 of a block-aligned message: the padded hash on every satisfied run, and satisfied on honest hints. */
  method BlockAligned(c: Circuit, message: seq<bool>) returns (digest: seq<bool>)
    requires |message| % 512 == 0 && |message| < 0x1_0000_0000_0000_0000
    modifies c
    ensures Emits(c, (|message| / 512 + 1) * COMPRESSION_HINT_BITS, (|message| / 512 + 1) * 184)
    ensures Extends(c) && Completes(c)
    ensures c.satisfied ==> digest == Hash(message)
  {
    hide Compress, Padded, PaddingBlock, Output, Chained, Bits, Hash;
    var state := InitialState();
    LastBlock(message);
    NoBlocks(Padded(message));
    for i := 0 to |message| / 512
      invariant Emits(c, i * COMPRESSION_HINT_BITS, i * 184)
      invariant Extends(c) && Completes(c)
      invariant c.satisfied ==> state == Chained(Padded(message), i)
    {
      var block := ReadBlock(message, i);
      var out := Compression(c, block, state);
      NextBlock(Padded(message), i);
      state := State(out.a.word, out.b.word, out.c.word, out.d.word, out.e.word, out.f.word, out.g.word, out.h.word);
    }
    var last := Compression(c, PaddingBlock(|message|), state);
    NextBlock(Padded(message), |message| / 512);
    digest := DigestBits(last);
    HashIs(message);
  }

  lemma {:induction false} NoBlocks(stream: seq<bool>)
    ensures Chained(stream, 0) == InitialState()
  {
  }

  lemma {:induction false} NextBlock(stream: seq<bool>, i: nat)
    requires 512 * i + 512 <= |stream|
    ensures Chained(stream, i + 1) == Compress(Chained(stream, i), Block(stream, i))
  {
  }

  lemma {:induction false} HashIs(message: seq<bool>)
    requires |message| % 512 == 0
    ensures |Padded(message)| == |message| + 512 && Hash(message) == Output(Chained(Padded(message), |message| / 512 + 1))
  {
    PaddedAligned(message);
    hide Padded, Chained, Output;
  }
}
