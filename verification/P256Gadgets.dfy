/** Flags, zero tests, selections and canonical reduction. */
module P256Gadgets {
  import M = Montgomery
  import opened Powers
  import opened Numerals
  import opened Assignments
  import opened NumberTheory
  import opened Residue
  import opened P256Field

  ghost predicate IsBit(x: int) {
    x == 0 || x == 1
  }

  lemma {:induction false} OneBit(n: nat)
    requires n < Pow2(1)
    ensures IsBit(n)
  {
    assert Pow2(1) == 2;
  }

  /** Hints a word for a value computed from the run, failing when it is negative. */
  method HintValue(c: Circuit, width: nat, ghost value: int) returns (n: nat)
    modifies c
    ensures Emits(c, width, 0)
    ensures c.satisfied == old(c.satisfied) && (c.honest ==> old(c.honest))
    ensures c.failed == (old(c.failed) || value < 0)
    ensures n < Pow2(width)
    ensures c.honest && 0 <= value < Pow2(width) ==> n == value
  {
    hide Bits, Number, Pow2;
    ghost var hint := if value < 0 then Fails else Gives(Bits(width, value));
    var bits := c.Hint(width, hint);
    n := Number(bits);
    NumberBelow(bits);
    if 0 <= value < Pow2(width) { Exact(width, value); }
  }

  /** The product of two bits, as a bit. */
  method AndBit(c: Circuit, x: int, y: int) returns (out: int)
    modifies c
    ensures Emits(c, 1, 1)
    ensures IsBit(out) && Extends(c)
    ensures c.satisfied ==> out == x * y
    ensures IsBit(x) && IsBit(y) ==> Completes(c)
  {
    hide Pow2;
    ghost var both := if x == 1 && y == 1 then 1 else 0;
    var bit := HintValue(c, 1, both);
    OneBit(bit);
    assert Pow2(1) == 2 by { TwoValues(); }
    out := bit;
    c.AssertR1c(x, y, out);
  }

  lemma {:induction false} TwoValues()
    ensures Pow2(1) == 2
  {
  }

  // ---------------------------------------------------------------- the zero test

  /** The inverse, or zero where there is none. */
  ghost function InverseOrZero(x: int, p: nat): nat
    requires p >= 2
  {
    if x % p == 0 then 0 else Inverse(x, p)
  }

  lemma {:induction false} InverseOrZeroIs(x: int, p: nat)
    requires Prime(p)
    ensures InverseOrZero(x, p) < p
    ensures Eq(x * InverseOrZero(x, p), if x % p == 0 then 0 else 1, p)
  {
    EqZero(x, p);
    if x % p != 0 { InverseIs(x, p); }
  }

  ghost function ZeroTestHint(x: int, p: nat): Hinted
    requires p >= 2
  {
    if x < 0 then Fails
    else Gives([x % p == 0] + Bits(256, InverseOrZero(x, p)))
  }

  lemma {:induction false} ZeroTestSplit(bits: seq<bool>, flag: bool, inverse: nat)
    requires inverse < Pow2(256) && bits == [flag] + Bits(256, inverse)
    ensures Slice(bits, 0, 1) == (if flag then 1 else 0) && Slice(bits, 1, 256) == inverse
  {
    hide Bits, Pow2;
    Exact(256, inverse);
    assert bits[0..1] == [flag] && bits[1..257] == Bits(256, inverse);
    assert [flag][1..] == [];
    assert Number([flag]) == (if flag then 1 else 0) + 2 * Number([]);
  }

  /** Operands the zero test is made for. */
  ghost predicate Testable(x: Rep, p: nat) {
    IsModulus(p) && x.Fits(p) && 0 < x.bound <= 100
  }

  /** Hints whether `x` is zero modulo `p`, and its inverse if not. */
  method HintFlagInverse(c: Circuit, p: nat, x: Rep) returns (z: int, inverse: nat)
    requires Prime(p)
    modifies c
    ensures Emits(c, 257, 0)
    ensures IsBit(z) && inverse < Pow2(256)
    ensures c.satisfied == old(c.satisfied) && (c.honest ==> old(c.honest)) && (old(c.failed) ==> c.failed)
    ensures Testable(x, p) ==> c.failed == old(c.failed)
    ensures Testable(x, p) && c.honest ==> (z == 1 <==> Eq(x.value, 0, p)) && Eq(x.value * inverse, 1 - z, p)
  {
    assert p >= 2;
    hide Pow2, Prime, InverseOrZero, Eq, ZeroTestHint, Testable, Slice;
    var bits := c.Hint(257, ZeroTestHint(x.value, p));
    var flag := Slice(bits, 0, 1);
    inverse := Slice(bits, 1, 256);
    OneBit(flag);
    z := flag;
    if Testable(x, p) { HonestZeroTest(p, x, bits); }
  }

  /** One when `x` is zero modulo `p`, and zero otherwise. */
  method ZeroTest(c: Circuit, p: nat, x: Rep) returns (z: int)
    requires Prime(p)
    modifies c
    ensures Emits(c, 531, 2)
    ensures IsBit(z) && Extends(c)
    ensures c.satisfied ==> (z == 1 <==> Eq(x.value, 0, p))
    ensures Testable(x, p) ==> Completes(c)
  {
    assert p >= 2;
    hide Pow2, Prime, IsModulus, Multipliable, Eq, Testable;
    var inverse;
    z, inverse := HintFlagInverse(c, p, x);
    AssertMulEq(c, p, x, WordRep(inverse), Rep(1 - z, 1));
    var q := HintQuotient(c, p, 9, z >= 0 && x.value >= 0, z * x.value);
    c.AssertR1c(z, x.value, q * p);
    ZeroTestMeans(p, x.value, inverse, z, q);
    if Testable(x, p) {
      ZeroTestOperands(p, x, inverse, z);
      ZeroTestQuotient(p, x, z);
    }
  }

  /** The two relations decide whether `x` is zero. */
  lemma {:induction false} ZeroTestMeans(p: nat, x: int, inverse: nat, z: int, q: nat)
    requires Prime(p) && IsBit(z)
    ensures Eq(x * inverse, 1 - z, p) && z * x == q * p ==> (z == 1 <==> Eq(x, 0, p))
  {
    assert p >= 2;
    hide Prime;
    M.ModUnique(1, 0, 1, p);
    M.ModUnique(0, 0, 0, p);
    if Eq(x * inverse, 1 - z, p) && z * x == q * p {
      if z == 1 { EqBy(x, 0, q, p); }
      else if Eq(x, 0, p) { EqProduct(x, 0, inverse, inverse, p); }
    }
  }

  lemma {:induction false} HonestZeroTest(p: nat, x: Rep, bits: seq<bool>)
    requires Prime(p) && Testable(x, p) && |bits| == 257
    ensures var hint := ZeroTestHint(x.value, p);
      hint.Gives? && (bits == hint.bits ==>
        var z := Slice(bits, 0, 1);
        (z == 1 <==> Eq(x.value, 0, p)) && Eq(x.value * Slice(bits, 1, 256), 1 - z, p))
  {
    var inverse := InverseOrZero(x.value, p);
    InverseOrZeroIs(x.value, p);
    EqZero(x.value, p);
    hide Prime, InverseOrZero, Pow2, Bits;
    if bits == [x.value % p == 0] + Bits(256, inverse) {
      ZeroTestSplit(bits, x.value % p == 0, inverse);
    }
  }

  lemma {:induction false} ZeroTestOperands(p: nat, x: Rep, inverse: nat, z: int)
    requires Testable(x, p) && inverse < Pow2(256) && IsBit(z)
    ensures IsModulus(p) && Multipliable(x, WordRep(inverse), p) && Rep(1 - z, 1).Fits(p)
  {
    WordFits(inverse, p);
    assert p >= 2 by { Wide265(p); TwoFiftySix(); }
    hide Pow2, IsModulus;
    assert 1 * p == p;
  }

  lemma {:induction false} ZeroTestQuotient(p: nat, x: Rep, z: int)
    requires Testable(x, p) && IsBit(z)
    ensures x.value >= 0 && 0 <= z * x.value && 0 <= z * x.value / p < Pow2(9)
    ensures (z == 1 ==> Eq(x.value, 0, p)) ==> z * x.value == z * x.value / p * p
  {
    Wide265(p);
    assert z * x.value == if z == 1 then x.value else 0;
    BoundPositive(x.bound, p);
    QuotientFits(z * x.value, p, x.bound);
    EqZero(x.value, p);
    M.ModUnique(0, 0, 0, p);
    hide Pow2, IsModulus;
  }

  // ---------------------------------------------------------------- selection

  /** A flag and a chosen value that fits. */
  ghost predicate Selectable(width: nat, choose: int, whenOne: Rep, whenZero: Rep) {
    && IsBit(choose)
    && (choose == 1 ==> 0 <= whenOne.value < Pow2(width))
    && (choose == 0 ==> 0 <= whenZero.value < Pow2(width))
  }

  /** `whenOne` or `whenZero`, as a word of `width` bits. */
  method SelectRep(c: Circuit, width: nat, choose: int, whenOne: Rep, whenZero: Rep, outBound: nat) returns (r: Rep)
    modifies c
    ensures Emits(c, width, 1)
    ensures r.bound == outBound && 0 <= r.value < Pow2(width) && Extends(c)
    ensures c.satisfied && choose == 1 ==> r.value == whenOne.value
    ensures c.satisfied && choose == 0 ==> r.value == whenZero.value
    ensures Selectable(width, choose, whenOne, whenZero) ==> Completes(c)
  {
    hide Pow2;
    var out := HintValue(c, width, if choose == 1 then whenOne.value else whenZero.value);
    c.AssertR1c(choose, whenOne.value - whenZero.value, out - whenZero.value);
    r := Rep(out, outBound);
  }

  // ---------------------------------------------------------------- canonical reduction

  /** Asserts `value < p` through a 256-bit slack. */
  method AssertLt(c: Circuit, p: nat, value: nat)
    modifies c
    ensures Emits(c, 256, 1)
    ensures Extends(c)
    ensures c.satisfied ==> value < p
    ensures value < p < Pow2(256) ==> Completes(c)
  {
    hide Pow2;
    var slack := p - 1 - value;
    var n := HintValue(c, 256, slack);
    c.AssertZero(slack - n);
  }

  /** The canonical residue. */
  method LazyReduce(c: Circuit, p: nat, x: Rep) returns (r: nat)
    requires p > 0
    modifies c
    ensures Emits(c, 777, 2)
    ensures Extends(c)
    ensures r < Pow2(256) && (c.satisfied ==> r == x.value % p)
    ensures IsModulus(p) && x.Fits(p) && x.bound <= 500 ==> Completes(c)
  {
    hide Pow2, IsModulus;
    var q;
    r, q := HintDivision(c, p, 265, x.value >= 0, x.value);
    c.AssertZero(x.value - (r + q * p));
    if IsModulus(p) && x.Fits(p) && x.bound <= 500 {
      ReduceFits(x, p);
    }
    AssertLt(c, p, r);
    if c.satisfied { M.ModUnique(x.value, q, r, p); }
  }

  lemma {:induction false} ReduceFits(x: Rep, p: nat)
    requires IsModulus(p) && x.Fits(p) && x.bound <= 500
    ensures p < Pow2(256) && x.value >= 0 && 0 <= x.value / p < Pow2(265)
    ensures x.value == x.value % p + x.value / p * p
  {
    Wide265(p);
    QuotientFits(x.value, p, x.bound);
    TwoFiftySix();
    hide Pow2;
  }
}
