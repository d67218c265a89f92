/** The hints that need a modular inverse: the lazy division and the zero test. The inversion itself is a
    library's; what it promises is `IsLibraryInverse`. */
module HintInverses {
  import opened Wrappers
  import M = Montgomery
  import opened Numerals
  import opened Limbs
  import opened StoredIntegers
  import opened KnuthDivision
  import opened Assignments
  import opened Residue
  import opened P256Field
  import opened HintWords
  import NT = NumberTheory
  import G = P256Gadgets

  // ---------------------------------------------------------------- the inverse

  ghost predicate IsInverse(x: nat, u: int, v: nat) {
    x < v && Eq(x * u, 1, v)
  }

  ghost predicate Invertible(u: int, v: nat) {
    exists x: nat :: IsInverse(x, u, v)
  }

  /** The library inverts modulo odd `v`: a reduced inverse, or nothing where there is none. */
  ghost predicate IsLibraryInverse(found: Option<seq<Word>>, u: int, v: nat) {
    match found
    case Some(x) => |x| == 4 && IsInverse(Value(x), u, v)
    case None => !Invertible(u, v)
  }

  /** A value that is not reduced, a zero value and an even modulus have no inverse here; one is its own. */
  method ModularInverse(u: seq<Word>, v: seq<Word>, found: Option<seq<Word>>) returns (inverse: Option<seq<Word>>)
    requires |u| == |v| == 4
    requires Value(v) % 2 == 1 ==> IsLibraryInverse(found, Value(u), Value(v))
    ensures inverse.Some? <==>
      0 < Value(u) < Value(v) && Value(v) % 2 == 1 && Invertible(Value(u), Value(v))
    ensures inverse.Some? ==> |inverse.value| == 4 && IsInverse(Value(inverse.value), Value(u), Value(v))
  {
    hide Value, Invertible, IsInverse;
    var reduced := LessThan(u, v);
    if !reduced { return None; }
    var zero := IsZero(u);
    ZeroValue(u);
    Parity(v);
    if zero || v[0] % 2 == 0 { return None; }
    if u == [1, 0, 0, 0] {
      OneInverts(u, Value(v));
      return Some(u);
    }
    if found.Some? { Witnessed(Value(found.value), Value(u), Value(v)); }
    return found;
  }

  lemma {:induction false} Parity(v: seq<Word>)
    requires |v| > 0
    ensures Value(v) % 2 == v[0] % 2
  {
    EvenTail(v[0], Value(v[1..]));
  }

  lemma {:induction false} EvenTail(low: nat, high: nat)
    ensures (low + B * high) % 2 == low % 2
  {
  }

  lemma {:induction false} OneInverts(u: seq<Word>, v: nat)
    requires u == [1, 0, 0, 0] && Value(u) < v
    ensures IsInverse(Value(u), Value(u), v) && Invertible(Value(u), v)
  {
    assert u[1..] == [0, 0, 0];
    ZeroValue(u[1..]);
    assert Value(u) == 1;
    assert IsInverse(1, 1, v);
  }

  lemma {:induction false} Witnessed(x: nat, u: int, v: nat)
    requires IsInverse(x, u, v)
    ensures Invertible(u, v)
  {
  }

  /** Modulo a prime every nonzero residue is invertible, and its inverse is the one power `Inverse`. */
  lemma {:induction false} PrimeInverse(d: int, p: nat)
    requires NT.Prime(p)
    ensures Invertible(d % p, p) <==> !Eq(d, 0, p)
    ensures forall x: nat :: IsInverse(x, d % p, p) ==> x == Inverse(d, p)
  {
    assert p >= 2;
    hide NT.Prime, Inverse;
    EqReduced(d, p);
    if !Eq(d, 0, p) {
      InverseIs(d, p);
      var x := Inverse(d, p);
      EqProduct(x, x, d % p, d, p);
      Flip(x, d);
      assert IsInverse(x, d % p, p);
      forall y: nat | IsInverse(y, d % p, p) ensures y == x {
        EqZero(d, p);
        EqProduct(y, y, d % p, d, p);
        NT.Cancel(p, y, x, d);
        M.ModUnique(x, 0, x, p);
        M.ModUnique(y, 0, y, p);
      }
    } else {
      forall y: nat ensures !IsInverse(y, d % p, p) {
        ZeroHasNone(y, d, p);
      }
    }
  }

  lemma {:induction false} ZeroHasNone(y: nat, d: int, p: nat)
    requires p >= 2 && Eq(d, 0, p)
    ensures !IsInverse(y, d % p, p)
  {
    EqZero(d, p);
    assert y * 0 == 0;
    M.ModUnique(1, 0, 1, p);
    M.ModUnique(0, 0, 0, p);
  }

  /** A normalized modulus of four limbs that is prime is odd. */
  lemma {:induction false} OddPrime(modulus: seq<Word>)
    requires |modulus| == 4 && Normalized(modulus) && NT.Prime(Value(modulus))
    ensures Value(modulus) >= 2 && Value(modulus) % 2 == 1
  {
    NormalizedSize(modulus);
    var p := Value(modulus);
    assert !NT.Divides(2, p);
  }

  /** The inverse of an operand's residue: nothing exactly for the zero residue. */
  method ResidueInverse(a: seq<Word>, modulus: seq<Word>, found: Option<seq<Word>>)
    returns (inverse: Option<seq<Word>>, zero: bool)
    requires |a| == WIDE && |modulus| == 4 && Normalized(modulus) && NT.Prime(Value(modulus))
    requires Value(modulus) > 0 ==> IsLibraryInverse(found, Value(a) % Value(modulus), Value(modulus))
    ensures Value(modulus) >= 2 && (zero <==> Value(a) % Value(modulus) == 0) && (inverse.None? <==> zero)
    ensures inverse.Some? ==> |inverse.value| == 4 && Value(inverse.value) == Inverse(Value(a), Value(modulus))
  {
    OddPrime(modulus);
    assert Value(modulus) >= 2;
    hide Value, Normalized, NT.Prime, Inverse, IsLibraryInverse, Invertible, IsInverse;
    var _, value := Divide(a, modulus);
    M.NonNegative(Value(a), Value(modulus));
    PrimeInverse(Value(a), Value(modulus));
    EqZero(Value(a), Value(modulus));
    inverse := ModularInverse(value, modulus, found);
    zero := IsZero(value);
    ZeroValue(value);
  }

  // ---------------------------------------------------------------- division

  /** A product of a word and an operand leaves room for the bias. */
  lemma {:induction false} BiasFits(value: seq<Word>, a: seq<Word>, bias: seq<Word>)
    requires |value| == 4 && |a| == |bias| == WIDE
    ensures Value(value) * Value(a) + Value(bias) < Base(PRODUCT)
  {
    hide Value, Base;
    ValueBelow(value);
    ValueBelow(a);
    ValueBelow(bias);
    M.ProductMonotone(Value(value), Base(4), Value(a));
    Below(Base(4), Value(a), Base(9));
    BaseSum(4, 9);
    BaseMonotone(9, 13);
    TwoBases();
    BaseMonotone(14, PRODUCT);
  }

  lemma {:induction false} Below(w: nat, x: nat, y: nat)
    requires w > 0 && x < y
    ensures w * x < w * y
  {
  }

  lemma {:induction false} TwoBases()
    ensures Base(14) >= 2 * Base(13)
  {
  }

  /** The value `numerator / denominator` as the limbs compute it. */
  method QuotientValue(inverse: seq<Word>, b: seq<Word>, modulus: seq<Word>, ghost d: int) returns (value: seq<Word>)
    requires |inverse| == 4 && |b| == WIDE && |modulus| == 4 && Normalized(modulus) && Value(modulus) >= 2
    requires Value(inverse) == Inverse(d, Value(modulus))
    ensures |value| == 4 && Value(value) == Quotient(Value(b), d, Value(modulus))
  {
    hide Value, Normalized, Inverse;
    var _, numerator := Divide(b, modulus);
    PaddedValue(inverse, WIDE);
    PaddedValue(numerator, WIDE);
    var product := MultiplyWide(Padded(inverse, WIDE), Padded(numerator, WIDE));
    var _, remainder := Divide(product, modulus);
    value := remainder;
  }

  /** The hint of a division: refused for negative operands and a zero denominator, else the quotient residue
      and the exact multiple of the modulus that the product differs by. */
  method DivideHint(denominator: seq<Word>, numerator: seq<Word>, bound: Word, modulus: seq<Word>,
                    found: Option<seq<Word>>) returns (hint: Hinted)
    requires |modulus| == 4 && Normalized(modulus) && NT.Prime(Value(modulus))
    requires Value(modulus) > 0 ==> IsLibraryInverse(found, Signed(denominator) % Value(modulus), Value(modulus))
    ensures Value(modulus) >= 2
    ensures Sized(denominator) && Sized(numerator) ==>
      hint == HonestHint(Signed(denominator), Rep(Signed(numerator), bound), Value(modulus))
    ensures !Sized(denominator) || !Sized(numerator) ==> hint == Fails
  {
    hide Value, Base, Signed, Normalized, Bits, NT.Prime, Quotient, Inverse, IsLibraryInverse, Eq;
    ghost var p := Value(modulus);
    assert p >= 2 by { OddPrime(modulus); }
    var bias := ModulusMultiple(modulus, bound);
    var a := FromEvaluated(denominator);
    if a.None? { return Fails; }
    var b := FromEvaluated(numerator);
    if b.None? { return Fails; }
    var inverse, zero := ResidueInverse(a.value, modulus, found);
    EqZero(Signed(denominator), p);
    if inverse.None? { return Fails; }
    var value := QuotientValue(inverse.value, b.value, modulus, Signed(denominator));
    PaddedValue(value, WIDE);
    BiasFits(value, a.value, bias);
    var shifted := ShiftProduct(Padded(value, WIDE), a.value, bias, b.value);
    if shifted.None? { return Fails; }
    var quotient, _ := Divide(shifted.value, modulus);
    PackedBits(value, quotient);
    hint := Gives(LimbBits(value + quotient[..5], 521));
  }

  /** The hint `LazyDivide` is proved complete for. */
  ghost function HonestHint(d: int, n: Rep, p: nat): Hinted
    requires p >= 2
  {
    var value := Quotient(n.value, d, p);
    DivisionHint(d >= 0 && n.value >= 0 && !Eq(d, 0, p), value, Shifted(value * d, n, p), p)
  }

  // ---------------------------------------------------------------- the zero test

  /** A flag and a word, shifted into place. */
  method PackFlag(flag: bool, inverse: seq<Word>) returns (packed: seq<Word>)
    requires |inverse| == 4
    ensures |packed| == 5 && Value(packed) == (if flag then 1 else 0) + 2 * Value(inverse)
  {
    hide Value, Base;
    var carry: Word := if flag then 1 else 0;
    packed := [];
    PaddedValue(inverse, 5);
    ghost var words := Padded(inverse, 5);
    ghost var bit: nat := if flag then 1 else 0;
    NoLimbs();
    assert words[..0] == [];
    for index: nat := 0 to 5
      invariant |packed| == index && carry < 2
      invariant Value(packed) + Base(index) * carry == bit + 2 * Value(words[..index])
      invariant index == 5 ==> carry == 0
    {
      var word: Word := if index < 4 then inverse[index] else 0;
      assert word == words[index];
      ghost var was, low := carry, packed;
      var output: Word := word * 2 % B + carry;
      carry := word / 0x8000_0000_0000_0000;
      packed := packed + [output];
      NextLimb(words, index);
      ValueSnoc(low, output);
      BaseNext(index);
      ShiftOver(Base(index), word, was, output, carry);
    }
    assert words[..5] == words;
  }

  lemma {:induction false} ShiftOver(w: int, word: nat, was: nat, output: nat, carry: nat)
    requires output == word * 2 % B + was && carry == word / 0x8000_0000_0000_0000
    requires word < B
    ensures w * output + w * B * carry == 2 * (w * word) + w * was
  {
    assert output + B * carry == 2 * word + was;
  }

  /** The hint of a zero test: the flag, and the inverse of a nonzero residue. */
  method ZeroHint(x: seq<Word>, modulus: seq<Word>, found: Option<seq<Word>>) returns (hint: Hinted)
    requires |modulus| == 4 && Normalized(modulus) && NT.Prime(Value(modulus))
    requires Value(modulus) > 0 ==> IsLibraryInverse(found, Signed(x) % Value(modulus), Value(modulus))
    ensures Value(modulus) >= 2
    ensures hint == if Sized(x) then G.ZeroTestHint(Signed(x), Value(modulus)) else Fails
  {
    hide Value, Base, Signed, Normalized, Bits, NT.Prime, Inverse, IsLibraryInverse;
    assert Value(modulus) >= 2 by { OddPrime(modulus); }
    var a := FromEvaluated(x);
    if a.None? { return Fails; }
    var inverse, zero := ResidueInverse(a.value, modulus, found);
    var word: seq<Word> := if inverse.Some? then inverse.value else [0, 0, 0, 0];
    if inverse.None? { ZeroValue(word); }
    var packed := PackFlag(zero, word);
    FlagBits(zero, Value(word));
    hint := Gives(LimbBits(packed, 257));
  }

  lemma {:induction false} FlagBits(flag: bool, v: nat)
    ensures Bits(257, (if flag then 1 else 0) + 2 * v) == [flag] + Bits(256, v)
  {
  }
}
