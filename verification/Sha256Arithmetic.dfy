/** The hash in the standard's own terms: numbers modulo `2^32`, choices and majorities, padded blocks. */
module Sha256Arithmetic {
  import NT = NumberTheory
  import opened Powers
  import opened Numerals
  import opened Sha256Spec

  const MODULUS: nat := 0x1_0000_0000

  // ---------------------------------------------------------------- the functions of section 4.1.2

  /** The choice takes the second word's bit where the first has one, and the third's elsewhere. */
  lemma {:induction false} ChoiceIs(x: Word32, y: Word32, z: Word32, i: nat)
    requires i < 32
    ensures Ch(x, y, z)[i] == if x[i] then y[i] else z[i]
  {
    assert Ch(x, y, z)[i] == ((x[i] && y[i]) != (!x[i] && z[i]));
  }

  function One(bit: bool): nat { if bit then 1 else 0 }

  /** The majority has a bit where two of the three words do. */
  lemma {:induction false} MajorityIs(x: Word32, y: Word32, z: Word32, i: nat)
    requires i < 32
    ensures Maj(x, y, z)[i] <==> One(x[i]) + One(y[i]) + One(z[i]) >= 2
  {
    assert Maj(x, y, z)[i] == (((x[i] && y[i]) != (x[i] && z[i])) != (y[i] && z[i]));
  }

  // ---------------------------------------------------------------- sums of words

  lemma {:induction false} PlusAdds(x: Word32, y: Word32)
    ensures Number(Plus(x, y)) == (Number(x) + Number(y)) % MODULUS
  {
    ThirtyTwo();
    NumberOfBits(32, Number(x) + Number(y));
  }

  /** A summand that is itself a sum may be reduced later. */
  lemma {:induction false} AddReduced(a: int, b: int)
    ensures (a % MODULUS + b) % MODULUS == (a + b) % MODULUS
  {
    NT.Shift(a % MODULUS + b, a / MODULUS, MODULUS);
  }

  lemma {:induction false} SumOfThree(x: Word32, y: Word32, z: Word32)
    ensures Number(Plus(Plus(x, y), z)) == (Number(x) + Number(y) + Number(z)) % MODULUS
  {
    hide Plus, Number;
    PlusAdds(x, y);
    PlusAdds(Plus(x, y), z);
    AddReduced(Number(x) + Number(y), Number(z));
  }

  lemma {:induction false} SumOfFour(u: Word32, x: Word32, y: Word32, z: Word32)
    ensures Number(Plus(Plus(Plus(u, x), y), z)) == (Number(u) + Number(x) + Number(y) + Number(z)) % MODULUS
  {
    hide Plus, Number;
    SumOfThree(u, x, y);
    PlusAdds(Plus(Plus(u, x), y), z);
    AddReduced(Number(u) + Number(x) + Number(y), Number(z));
  }

  lemma {:induction false} SumOfSums(a: int, b: int)
    ensures (a % MODULUS + b % MODULUS) % MODULUS == (a + b) % MODULUS
  {
    AddReduced(a, b % MODULUS);
    AddReduced(b, a);
  }

  // ---------------------------------------------------------------- section 6.2.2

  /** The schedule's recurrence. */
  lemma {:induction false} ScheduleIs(block: seq<Word32>, t: nat)
    requires |block| == 16 && t >= 16
    ensures Number(Schedule(block, t)) ==
      (Number(SmallSigma1(Schedule(block, t - 2))) + Number(Schedule(block, t - 7))
        + Number(SmallSigma0(Schedule(block, t - 15))) + Number(Schedule(block, t - 16))) % MODULUS
  {
    hide Number, Plus, SmallSigma0, SmallSigma1;
    SumOfFour(SmallSigma1(Schedule(block, t - 2)), Schedule(block, t - 7), SmallSigma0(Schedule(block, t - 15)),
              Schedule(block, t - 16));
  }

  /** A round: `T1` and `T2` as integers, the two new words, and the six that move on. */
  lemma {:induction false} RoundIs(s: State, k: Word32, w: Word32)
    ensures var t1 := Number(s.h) + Number(BigSigma1(s.e)) + Number(Ch(s.e, s.f, s.g)) + Number(k) + Number(w);
      var t2 := Number(BigSigma0(s.a)) + Number(Maj(s.a, s.b, s.c));
      var r := Round(s, k, w);
      && Number(r.a) == (t1 + t2) % MODULUS && Number(r.e) == (Number(s.d) + t1) % MODULUS
      && (r.b, r.c, r.d) == (s.a, s.b, s.c) && (r.f, r.g, r.h) == (s.e, s.f, s.g)
  {
    hide Number, Plus, BigSigma0, BigSigma1, Ch, Maj;
    var sigma1, choice, sigma0, majority := BigSigma1(s.e), Ch(s.e, s.f, s.g), BigSigma0(s.a), Maj(s.a, s.b, s.c);
    var inner := Plus(Plus(Plus(s.h, sigma1), choice), k);
    var sum1 := Number(s.h) + Number(sigma1) + Number(choice) + Number(k);
    SumOfFour(s.h, sigma1, choice, k);
    PlusAdds(inner, w);
    AddReduced(sum1, Number(w));
    PlusAdds(sigma0, majority);
    PlusAdds(Plus(inner, w), Plus(sigma0, majority));
    SumOfSums(sum1 + Number(w), Number(sigma0) + Number(majority));
    PlusAdds(s.d, Plus(inner, w));
    AddReduced(sum1 + Number(w), Number(s.d));
  }

  /** A compression adds the chaining value to the last round's state, word by word. */
  lemma {:induction false} CompressIs(s: State, block: seq<Word32>, i: nat)
    requires |block| == 16 && i < 8
    ensures Number(WordsOf(Compress(s, block))[i]) ==
      (Number(WordsOf(Rounds(s, block, 64))[i]) + Number(WordsOf(s)[i])) % MODULUS
  {
    hide Number, Plus, Rounds;
    PlusAdds(WordsOf(Rounds(s, block, 64))[i], WordsOf(s)[i]);
  }

  // ---------------------------------------------------------------- section 5.1.1

  /** The padding: the message, a one bit, as few zeros as fill the block, and the length, highest bit first. */
  lemma {:induction false} PaddingIs(message: seq<bool>)
    requires |message| < 0x1_0000_0000_0000_0000
    ensures var (l, p) := (|message|, Padded(message));
      && |p| % 512 == 0 && l + 65 <= |p| < l + 65 + 512
      && p[..l] == message && p[l] && (forall i :: l < i < |p| - 64 ==> !p[i])
      && Number(Reversed(p[|p| - 64..])) == l
  {
    PaddedLength(message);
    LengthBits(|message|);
    hide Bits, Number, Reversed, ZeroBits;
    var zeros, length := seq(ZeroBits(|message|), _ => false), Reversed(Bits(64, |message|));
    assert Padded(message) == message + [true] + zeros + length;
    Layout(message, zeros, length);
    ReversedTwice(Bits(64, |message|));
    FewZeros(|message|);
  }

  lemma {:induction false} FewZeros(l: nat)
    ensures 0 <= ZeroBits(l) < 512
  {
  }

  lemma {:induction false} Layout(message: seq<bool>, zeros: seq<bool>, length: seq<bool>)
    requires |length| == 64 && forall i :: 0 <= i < |zeros| ==> !zeros[i]
    ensures var (l, p) := (|message|, message + [true] + zeros + length);
      p[..l] == message && p[l] && (forall i :: l < i < |p| - 64 ==> !p[i]) && p[|p| - 64..] == length
  {
  }

  lemma {:induction false} ReversedTwice(bits: seq<bool>)
    ensures Reversed(Reversed(bits)) == bits
  {
  }

  lemma {:induction false} LengthBits(l: nat)
    requires l < 0x1_0000_0000_0000_0000
    ensures Number(Bits(64, l)) == l
  {
    ThirtyTwo();
    hide Pow2, Bits, Number;
    Pow2Sum(32, 32);
    Exact(64, l);
  }

  /** A block's words hold its bits, highest first. */
  lemma {:induction false} BlockOrder(stream: seq<bool>, i: nat, j: nat, k: nat)
    requires 512 * i + 512 <= |stream| && j < 16 && k < 32
    ensures Block(stream, i)[j][k] == stream[512 * i + 32 * j + 31 - k]
  {
    var part := stream[512 * i + 32 * j..512 * i + 32 * j + 32];
    assert BlockWord(stream, i, j) == Reversed(part);
    assert Reversed(part)[k] == part[31 - k];
    hide BlockWord, Reversed;
  }
}
