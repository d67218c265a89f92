/** From exact integers to prepared coefficients: stored two's-complement limbs, their residue modulo
    the runtime modulus, and the Montgomery form of the residue. */
module StoredCoefficients {
  import opened Wrappers
  import M = Montgomery
  import opened Limbs
  import opened StoredIntegers
  import opened RuntimeReduction

  // ---------------------------------------------------------------- storing an integer

  /** The limbs of a natural number, without leading zeros. */
  method Digits(n: nat) returns (limbs: seq<Word>)
    ensures Value(limbs) == n && (|limbs| > 0 ==> limbs[|limbs| - 1] != 0)
  {
    hide Value, Base;
    limbs := [];
    var rest: nat := n;
    NoLimbs();
    while rest > 0
      invariant Value(limbs) + Base(|limbs|) * rest == n
      invariant rest == 0 && |limbs| > 0 ==> limbs[|limbs| - 1] != 0
      decreases rest
    {
      var low, high := rest % B, rest / B;
      M.NonNegative(rest, B);
      Peeled(Base(|limbs|), rest, low, high);
      ValueSnoc(limbs, low);
      BaseNext(|limbs|);
      limbs, rest := limbs + [low], high;
    }
  }

  lemma {:induction false} Peeled(w: nat, rest: nat, low: nat, high: nat)
    requires rest == low + B * high && low < B
    ensures w * rest == w * low + B * w * high
    ensures high == 0 && rest > 0 ==> low != 0
    ensures rest > 0 ==> high < rest
  {
    M.Reorder(B, w, high);
  }

  /** The limbs of `B^n` less the value: every limb inverted, and one added. */
  method Complement(limbs: seq<Word>) returns (words: seq<Word>)
    requires Value(limbs) > 0
    ensures |words| == |limbs| && Value(words) + Value(limbs) == Base(|limbs|)
  {
    hide Value, Base;
    words := [];
    var carry := true;
    NoLimbs();
    for i := 0 to |limbs|
      invariant |words| == i
      invariant Value(words) + Value(limbs[..i]) + (if carry then Base(i) else 0) == Base(i)
    {
      var (word, next) := AddLimb(B - 1 - limbs[i], 0, carry);
      NextLimb(limbs, i);
      ValueSnoc(words, word);
      BaseNext(i);
      ComplementLimb(Base(i), Value(words), Value(limbs[..i]), limbs[i], carry, word, next);
      words, carry := words + [word], next;
    }
    assert limbs[..|limbs|] == limbs;
    ValueBelow(words);
  }

  /** A sign limb in front when the top bit says the wrong sign. */
  lemma {:induction false} SignLimb(words: seq<Word>, v: nat, negative: bool)
    requires |words| > 0 && (if negative then v > 0 && Value(words) + v == Base(|words|) else Value(words) == v)
    ensures var top, sign := words[|words| - 1] >= B / 2, if negative then B - 1 else 0;
      Signed(if top == negative then words else words + [sign]) == if negative then 0 - v else v
  {
    hide Value, Base;
    var n := |words|;
    BaseNext(n);
    M.SubTimes(B, 1, Base(n));
    ValueSnoc(words, if negative then B - 1 else 0);
  }

  /** An arbitrary integer as canonical two's-complement limbs. */
  method FromBigInt(value: int) returns (words: seq<Word>)
    ensures Signed(words) == value && Canonical(words)
  {
    hide Signed, Value, Base;
    if value == 0 {
      ZeroSigned([]);
      return [];
    }
    if value < 0 {
      var magnitude := Digits(0 - value);
      NotNothing(magnitude);
      words := Complement(magnitude);
      SignLimb(words, 0 - value, true);
      if words[|words| - 1] < B / 2 { words := words + [B - 1]; }
    } else {
      words := Digits(value);
      NotNothing(words);
      SignLimb(words, value, false);
      if words[|words| - 1] >= B / 2 { words := words + [0]; }
    }
    words := FromInteger(words);
  }

  lemma {:induction false} NotNothing(words: seq<Word>)
    ensures Value(words) > 0 ==> |words| > 0
  {
  }

  // ---------------------------------------------------------------- preparing a coefficient

  /** A runtime modulus of two limbs; one or less is refused. */
  method NewModulus(modulus: M.Pair) returns (runtime: Option<RuntimeModulus>)
    ensures modulus.Value() <= 1 <==> runtime == None
    ensures runtime.Some? ==> runtime.value.Valid() && |runtime.value.words| == 2 && Value(runtime.value.words) == modulus.Value()
  {
    PairLimbs(modulus);
    if modulus.Value() <= 1 { return None; }
    return Some(RuntimeModulus([modulus.lo, modulus.hi]));
  }

  lemma {:induction false} PairLimbs(p: M.Pair)
    ensures Value([p.lo, p.hi]) == p.Value()
  {
    assert [p.lo, p.hi][1..] == [p.hi] && [p.hi][1..] == [];
    assert Value([p.hi]) == p.hi;
  }

  /** The Montgomery form of an integer is that of its residue. */
  lemma {:induction false} EncodeResidue(m: nat, e: int)
    requires 0 < m <= M.R
    ensures M.Encode(m, e % m) == M.Encode(m, e)
  {
    hide M.Encode;
    var q := e / m;
    var k := M.EncodeQuotient(m, e % m);
    M.PlusTimes(q * m, e % m, M.R);
    assert e == q * m + e % m;
    SwapFactor(q, m, M.R);
    M.SubTimes(0 - k, q * M.R, m);
    M.CongruentBy(M.Encode(m, e % m).Value(), e * M.R, 0 - k - q * M.R, m);
    M.EncodeUnique(m, M.Encode(m, e % m), e);
  }

  lemma {:induction false} SwapFactor(q: int, m: int, r: int)
    ensures q * m * r == q * r * m
  {
  }

  /** A coefficient: stored, reduced and encoded. */
  method PrepareCoefficient(runtime: RuntimeModulus, ghost m: nat, coefficient: int) returns (prepared: M.Pair)
    requires runtime.Valid() && Value(runtime.words) == m <= M.R
    ensures prepared == M.Encode(m, coefficient)
  {
    hide Value, Base, Signed, M.Encode;
    var stored := FromBigInt(coefficient);
    var residue := runtime.Reduce(stored);
    EncodeResidue(m, coefficient);
    prepared := M.Encode(Value(runtime.words), Value(residue));
  }

  /** Every coefficient of a table. */
  method PrepareCoefficients(runtime: RuntimeModulus, ghost m: nat, coefficients: seq<int>) returns (prepared: seq<M.Pair>)
    requires runtime.Valid() && Value(runtime.words) == m <= M.R
    ensures |prepared| == |coefficients| && forall i :: 0 <= i < |coefficients| ==> prepared[i] == M.Encode(m, coefficients[i])
  {
    hide Value, M.Encode;
    prepared := [];
    for i := 0 to |coefficients|
      invariant |prepared| == i && forall k :: 0 <= k < i ==> prepared[k] == M.Encode(m, coefficients[k])
    {
      var pair := PrepareCoefficient(runtime, m, coefficients[i]);
      prepared := prepared + [pair];
    }
  }
}
