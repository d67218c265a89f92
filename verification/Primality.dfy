/** Modular arithmetic on a runtime modulus and the Miller-Rabin test built on it. */
module Primality {
  import opened Wrappers
  import M = Montgomery
  import opened Powers
  import opened Barrett
  import opened NumberTheory

  const PRIMALITY_BASES: seq<U128> := [2, 3, 5, 7, 11, 13, 17, 19, 23, 29, 31, 37, 41]

  const BASE_COUNT: nat := 13

  function Base(i: nat): (b: U128)
    requires i < BASE_COUNT
    ensures 2 <= b <= 41
  {
    PRIMALITY_BASES[i]
  }

  predicate IsBase(n: nat) {
    n in PRIMALITY_BASES
  }

  const MAX_MODULUS_BITS: nat := 126

  /** `128 - n.leading_zeros()`. */
  function BitLength(n: nat): nat {
    if n == 0 then 0 else 1 + BitLength(n / 2)
  }

  lemma {:induction false} BitLengthBounds(n: nat)
    ensures n < Pow2(BitLength(n))
    ensures n > 0 ==> BitLength(n) > 0 && Pow2(BitLength(n) - 1) <= n
  {
    if n > 0 { BitLengthBounds(n / 2); }
  }

  lemma {:induction false} TwoBits(n: nat, bits: nat)
    requires 2 <= n < Pow2(bits)
    ensures bits >= 2
  {
    assert Pow2(0) == 1 && Pow2(1) == 2;
  }

  /** A positive number is its trailing zeros and what is left above them. */
  lemma {:induction false} OddPart(n: nat)
    requires n > 0
    ensures n == n / Pow2(TrailingZeros(n)) * Pow2(TrailingZeros(n)) && n / Pow2(TrailingZeros(n)) > 0
  {
    if n % 2 == 1 {
      assert Pow2(0) == 1;
    } else {
      OddPart(n / 2);
      var z, odd := TrailingZeros(n / 2), n / 2 / Pow2(TrailingZeros(n / 2));
      assert n == odd * Pow2(z + 1) by { Doubled(odd, Pow2(z)); }
      M.ModUnique(n, odd, 0, Pow2(z + 1));
    }
  }

  lemma {:induction false} Doubled(a: nat, b: nat)
    ensures 2 * (a * b) == a * (2 * b)
  {
  }

  // ---------------------------------------------------------------- addition and multiplication

  /** `(a + b) mod q`; the sum cannot wrap. */
  function AddMod(a: U128, b: U128, q: U128): (r: U128)
    requires a < q && b < q < R / 2
    ensures r == (a + b) % q
  {
    ReducedOnce(a + b, q);
    if a + b >= q then a + b - q else a + b
  }

  lemma {:induction false} ReducedOnce(n: nat, q: nat)
    requires q > 0 && n < 2 * q
    ensures n % q == if n >= q then n - q else n
  {
    M.ModUnique(n, if n >= q then 1 else 0, if n >= q then n - q else n, q);
  }

  /** `(a * b) mod q` by doubling. */
  method MulMod(a: U128, b: U128, q: U128) returns (result: U128)
    requires 0 < q < R / 2
    ensures result == (a * b) % q
  {
    M.ModUnique(0, 0, 0, q);
    result := 0;
    var addend: U128, remaining: U128 := a % q, b;
    ReduceFactor(a, b, q);
    assert result + addend * remaining == (a % q) * b;
    while remaining != 0
      invariant addend < q && result < q
      invariant (result + addend * remaining) % q == (a * b) % q
    {
      ghost var sum, term, factor := result, addend, remaining;
      if remaining % 2 == 1 { result := AddMod(result, addend, q); }
      addend := AddMod(addend, addend, q);
      remaining := remaining / 2;
      DoublingStep(sum, term, factor, q, result, addend);
    }
    assert addend * remaining == 0;
    M.ModUnique(result, 0, result, q);
  }

  lemma {:induction false} DoublingStep(result: nat, addend: nat, remaining: nat, q: nat, next: nat, doubled: nat)
    requires q > 0 && result < q && addend < q && doubled == (addend + addend) % q
    requires next == if remaining % 2 == 1 then (result + addend) % q else result
    ensures 0 <= doubled * (remaining / 2)
    ensures (next + doubled * (remaining / 2)) % q == (result + addend * remaining) % q
  {
    var half, bit := remaining / 2, remaining % 2;
    var total := if bit == 1 then result + addend else result;
    M.ModUnique(result, 0, result, q);
    M.ProductMonotone(0, doubled, half);
    assert result + addend * remaining == total + (addend + addend) * half by {
      SplitRemaining(addend, half, bit, remaining);
    }
    ReducedSum(total, addend + addend, half, q, next, doubled);
  }

  lemma {:induction false} ReducedSum(total: nat, twice: nat, half: nat, q: nat, next: nat, doubled: nat)
    requires q > 0 && next == total % q && doubled == twice % q
    ensures (next + doubled * half) % q == (total + twice * half) % q
  {
    var u, v := total / q, twice / q;
    assert total == u * q + next && twice == v * q + doubled;
    assert twice * half == doubled * half + v * half * q by {
      M.PlusTimes(v * q, doubled, half);
      Commuted(v, q, half);
    }
    M.PlusTimes(u, v * half, q);
    Shift(next + doubled * half, u + v * half, q);
  }

  lemma {:induction false} SplitRemaining(addend: nat, half: nat, bit: nat, remaining: nat)
    requires remaining == 2 * half + bit
    ensures addend * remaining == (addend + addend) * half + addend * bit
    ensures bit == 0 ==> addend * bit == 0
    ensures bit == 1 ==> addend * bit == addend
  {
  }

  // ---------------------------------------------------------------- exponents

  lemma {:induction false} SquareBelow(a: nat, b: nat, q: nat, k: nat)
    requires HasBits(q, k) && a < q && b < q
    ensures a * b < Pow2(2 * k)
  {
    Pow2Sum(k, k);
    hide Pow2;
    M.ProductMonotone(a, q, b);
    M.ProductMonotone(b + 1, q, q);
    M.PlusTimes(b, 1, q);
    M.ProductMonotone(q, Pow2(k), q);
    M.ProductMonotone(q, Pow2(k), Pow2(k));
  }

  lemma {:induction false} ShrNone(n: nat, bit: nat)
    requires n < Pow2(bit)
    ensures Shr(n, bit) == 0 && Shr(n, 0) == n
  {
    assert Pow2(0) == 1;
    M.ModUnique(n, 0, n, Pow2(bit));
  }

  /** Each further shift drops one bit. */
  lemma {:induction false} ShrHalf(n: nat, bit: nat)
    ensures Shr(n, bit) == 2 * Shr(n, bit + 1) + Shr(n, bit) % 2
  {
    var p, x := Pow2(bit), Shr(n, bit);
    assert n == x * p + n % p;
    assert x * p == x / 2 * (2 * p) + x % 2 * p by { HalvedProduct(x, p); }
    assert 0 <= x % 2 * p + n % p < 2 * p;
    M.ModUnique(n, x / 2, x % 2 * p + n % p, 2 * p);
  }

  lemma {:induction false} HalvedProduct(x: nat, p: nat)
    ensures x * p == x / 2 * (2 * p) + x % 2 * p
  {
    M.PlusTimes(2 * (x / 2), x % 2, p);
    M.Assoc(x / 2, 2, p);
  }

  /** Squaring doubles the exponent, and one more factor adds one. */
  lemma {:induction false} PowerSquared(base: nat, e: nat, q: nat, residue: nat)
    requires q > 0 && residue == Power(base, e) % q
    ensures (residue * residue) % q == Power(base, 2 * e) % q
  {
    PowerSum(base, e, e);
    ReduceBoth(Power(base, e), Power(base, e), q);
  }

  lemma {:induction false} PowerNext(base: nat, e: nat, q: nat, residue: nat)
    requires q > 0 && residue == Power(base, e) % q
    ensures (residue * base) % q == Power(base, e + 1) % q
  {
    ReduceFactor(Power(base, e), base, q);
  }

  /** `base ^ (odd * 2^i) mod q`, where `q - 1 = odd * 2^shift`. */
  function Squaring(q: nat, base: nat, i: nat): nat
    requires q >= 2
  {
    Power(base, Shr(q - 1, TrailingZeros(q - 1)) * Pow2(i)) % q
  }

  lemma {:induction false} FirstSquaring(q: nat, base: nat)
    requires q >= 2
    ensures Squaring(q, base, 0) == Power(base, Shr(q - 1, TrailingZeros(q - 1))) % q
  {
    assert Shr(q - 1, TrailingZeros(q - 1)) * Pow2(0) == Shr(q - 1, TrailingZeros(q - 1));
  }

  lemma {:induction false} OddFits(n: nat, shift: nat)
    ensures Shr(n, shift) <= n
  {
    var odd := Shr(n, shift);
    assert n == odd * Pow2(shift) + n % Pow2(shift);
    M.ProductMonotone(1, Pow2(shift), odd);
  }

  lemma {:induction false} SquaringStep(q: nat, base: nat, i: nat)
    requires q >= 2
    ensures (Squaring(q, base, i) * Squaring(q, base, i)) % q == Squaring(q, base, i + 1)
  {
    var odd := Shr(q - 1, TrailingZeros(q - 1));
    Doubled(odd, Pow2(i));
    PowerSquared(base, odd * Pow2(i), q, Squaring(q, base, i));
  }

  /** The strong probable-prime condition at `base`. */
  ghost predicate Strong(q: nat, base: nat)
    requires q >= 2
  {
    || Squaring(q, base, 0) == 1
    || Squaring(q, base, 0) == q - 1
    || exists i: nat :: 1 <= i < TrailingZeros(q - 1) && Squaring(q, base, i) == q - 1
  }

  lemma {:induction false} StrongAt(q: nat, base: nat, i: nat)
    requires q >= 2 && (i == 0 || i < TrailingZeros(q - 1))
    requires Squaring(q, base, i) == q - 1 || (i == 0 && Squaring(q, base, 0) == 1)
    ensures Strong(q, base)
  {
    hide Squaring, TrailingZeros;
  }

  lemma {:induction false} NotStrong(q: nat, base: nat, round: nat)
    requires q >= 2 && round >= 1 && round >= TrailingZeros(q - 1) && Squaring(q, base, 0) != 1
    requires forall i: nat :: i < round ==> Squaring(q, base, i) != q - 1
    ensures !Strong(q, base)
  {
    hide Squaring, TrailingZeros;
  }

  // ---------------------------------------------------------------- a modulus and its reciprocal

  datatype FieldMetadata = FieldMetadata(modulus: U128, bits: nat, mu: U128) {
    /** `new`, on the moduli its assertions admit. */
    static method New(modulus: U128) returns (m: FieldMetadata)
      requires 2 <= modulus < Pow2(MAX_MODULUS_BITS) && (modulus == 2 || modulus % 2 == 1)
      ensures m.Valid() && m.modulus == modulus
    {
      var bits := BitLength(modulus);
      BitLengthBounds(modulus);
      TwoBits(modulus, bits);
      var mu := BarrettMu(modulus, bits);
      m := FieldMetadata(modulus, bits, mu);
    }

    ghost predicate Valid() {
      HasBits(modulus, bits) && IsReciprocal(mu, modulus, bits)
    }

    method Mul(a: U128, b: U128) returns (r: U128)
      requires Valid() && a < modulus && b < modulus
      ensures r == (a * b) % modulus && r < modulus
    {
      var product := MulWide(a, b);
      SquareBelow(a, b, modulus, bits);
      r := BarrettReduce(product.0, product.1, modulus, mu, bits);
    }

    /** `base ^ exponent mod q` by square and multiply. */
    method Pow(base: U128, exponent: U128) returns (result: U128)
      requires Valid() && base < modulus
      ensures result == Power(base, exponent) % modulus && result < modulus
    {
      result := 1 % modulus;
      var bit := BitLength(exponent);
      BitLengthBounds(exponent);
      ShrNone(exponent, bit);
      while bit > 0
        invariant result < modulus && result == Power(base, Shr(exponent, bit)) % modulus
        decreases bit
      {
        bit := bit - 1;
        ghost var e := Shr(exponent, bit + 1);
        ShrHalf(exponent, bit);
        PowerSquared(base, e, modulus, result);
        result := Mul(result, result);
        if Shr(exponent, bit) % 2 == 1 {
          PowerNext(base, 2 * e, modulus, result);
          result := Mul(result, base);
        }
      }
    }

    /** One strong probable-prime round of an odd modulus. */
    method StrongRound(base: U128) returns (passed: bool)
      requires Valid() && modulus % 2 == 1 && base < modulus
      ensures passed <==> Strong(modulus, base)
    {
      hide Squaring, Power, Shr, TrailingZeros, Pow2, HasBits, IsReciprocal, Strong;
      BitsBound(modulus, bits);
      var shift := TrailingZeros(modulus - 1);
      var odd := Shr(modulus - 1, shift);
      OddFits(modulus - 1, shift);
      var residue := Pow(base, odd);
      FirstSquaring(modulus, base);
      hide Valid;
      if residue == 1 || residue == modulus - 1 {
        StrongAt(modulus, base, 0);
        return true;
      }
      var round: nat := 1;
      while round < shift
        invariant 1 <= round && (shift >= 1 ==> round <= shift)
        invariant residue < modulus && residue == Squaring(modulus, base, round - 1)
        invariant forall i: nat :: i < round ==> Squaring(modulus, base, i) != modulus - 1
      {
        SquaringStep(modulus, base, round - 1);
        residue := Mul(residue, residue);
        if residue == modulus - 1 {
          StrongAt(modulus, base, round);
          return true;
        }
        round := round + 1;
      }
      NotStrong(modulus, base, round);
      return false;
    }
  }

  // ---------------------------------------------------------------- primes pass

  /** A prime passes the strong round at every base it does not divide. */
  lemma {:induction false} PrimePasses(q: nat, base: nat)
    requires Prime(q) && q % 2 == 1 && !NumberTheory.Divides(q, base)
    ensures Strong(q, base)
  {
    var shift := TrailingZeros(q - 1);
    OddPart(q - 1);
    Fermat(q, base);
    assert Squaring(q, base, shift) == 1;
    MinusOneBefore(q, base, shift);
  }

  /** Going down from a square equal to one, the sequence starts at one or meets minus one. */
  lemma {:induction false} MinusOneBefore(q: nat, base: nat, i: nat)
    requires Prime(q) && Squaring(q, base, i) == 1
    ensures Squaring(q, base, 0) == 1 || exists j: nat :: j < i && Squaring(q, base, j) == q - 1
  {
    hide Squaring;
    if i > 0 {
      SquaringStep(q, base, i - 1);
      SquaringBelow(q, base, i - 1);
      RootsOfOne(q, Squaring(q, base, i - 1));
      if Squaring(q, base, i - 1) == 1 { MinusOneBefore(q, base, i - 1); }
    }
  }

  lemma {:induction false} SquaringBelow(q: nat, base: nat, i: nat)
    requires q >= 2
    ensures Squaring(q, base, i) < q
  {
  }

  // ---------------------------------------------------------------- trial division

  /** Trial division by the bases, when it decides. */
  method Sieve(candidate: U128) returns (decided: Option<bool>)
    ensures decided == Some(true) ==> IsBase(candidate)
    ensures decided == Some(false) ==> candidate < 2 || HasSmallFactor(candidate)
    ensures decided == None ==> candidate >= 2 && NoBaseDivides(candidate)
  {
    hide Base, IsBase, HasSmallFactor;
    if candidate < 2 {
      return Some(false);
    }
    var index: nat := 0;
    while index < BASE_COUNT
      invariant index <= BASE_COUNT
      invariant forall i: nat :: i < index ==> !NumberTheory.Divides(Base(i), candidate)
    {
      var prime := Base(index);
      if candidate == prime {
        IsItsBase(index);
        return Some(true);
      }
      if candidate % prime == 0 {
        ProperFactor(candidate, index);
        return Some(false);
      }
      index := index + 1;
    }
    return None;
  }

  lemma {:induction false} IsItsBase(i: nat)
    requires i < BASE_COUNT
    ensures IsBase(Base(i))
  {
  }

  lemma {:induction false} ProperFactor(n: nat, i: nat)
    requires n >= 2 && i < BASE_COUNT && n % Base(i) == 0 && n != Base(i)
    ensures HasSmallFactor(n)
  {
    hide Base;
    assert NumberTheory.Divides(Base(i), n);
    if n < Base(i) { M.ModUnique(n, 0, n, Base(i)); }
  }

  ghost predicate NoBaseDivides(n: nat) {
    forall i: nat :: i < BASE_COUNT ==> !NumberTheory.Divides(Base(i), n)
  }

  ghost predicate HasSmallFactor(n: nat) {
    exists i: nat :: i < BASE_COUNT && Base(i) < n && NumberTheory.Divides(Base(i), n)
  }

  /** Whether the test accepts: a base itself, or a strong probable prime at every base. */
  ghost predicate Accepted(n: nat) {
    IsBase(n) || (n >= 2 && NoBaseDivides(n) && StrongAtBases(n))
  }

  ghost predicate StrongAtBases(n: nat)
    requires n >= 2
  {
    forall i: nat :: i < BASE_COUNT ==> Strong(n, Base(i))
  }

  // ---------------------------------------------------------------- what the sieve leaves

  /** Every number below 43 has a base among its divisors. */
  lemma {:induction false} SmallDivisor(d: nat) returns (i: nat)
    requires 2 <= d < 43
    ensures i < BASE_COUNT && d % Base(i) == 0
  {
    i := if d % 2 == 0 then 0 else if d % 3 == 0 then 1 else if d % 5 == 0 then 2
      else if d == 7 then 3 else if d == 11 then 4 else if d == 13 then 5 else if d == 17 then 6
      else if d == 19 then 7 else if d == 23 then 8 else if d == 29 then 9 else if d == 31 then 10
      else if d == 37 then 11 else 12;
  }

  /** A divisor of a divisor divides. */
  lemma {:induction false} Transitive(a: nat, b: nat, n: nat)
    requires a > 0 && b > 0 && b % a == 0 && n % b == 0
    ensures n % a == 0
  {
    var k, l := n / b, b / a;
    assert n == k * l * a by { Nested(n, k, b, l, a); }
    M.MultipleMod(k * l, a);
  }

  lemma {:induction false} Nested(n: nat, k: nat, b: nat, l: nat, a: nat)
    requires n == k * b && b == l * a
    ensures n == k * l * a
  {
    M.Assoc(k, l, a);
  }

  /** Past the sieve, the candidate is above every base and odd. */
  lemma {:induction false} Sieved(n: nat)
    requires n >= 2 && NoBaseDivides(n)
    ensures n >= 43 && n % 2 == 1
  {
    assert Base(0) == 2 && !NumberTheory.Divides(Base(0), n);
    BelowSomeBaseDivides(n);
  }

  lemma {:induction false} BelowSomeBaseDivides(n: nat)
    requires n >= 2
    ensures n < 43 ==> !NoBaseDivides(n)
  {
    if n < 43 {
      var i := SmallDivisor(n);
      assert NumberTheory.Divides(Base(i), n);
    }
  }

  /** No base divides another. */
  lemma {:induction false} BasesApart(i: nat, n: nat)
    requires i < BASE_COUNT && IsBase(n) && Base(i) < n
    ensures n % Base(i) != 0
  {
    var p := Base(i);
    var k := n / p;
    if n % p == 0 {
      assert n == k * p;
      BaseMultiples(n, p, k);
    }
  }

  lemma {:induction false} BaseMultiples(n: nat, p: nat, k: nat)
    requires n in {2, 3, 5, 7, 11, 13, 17, 19, 23, 29, 31, 37, 41}
    requires p in {2, 3, 5, 7, 11, 13, 17, 19, 23, 29, 31, 37, 41} && n == k * p
    ensures n == p
  {
  }

  /** The sieve only rejects composites. */
  lemma {:induction false} SieveRejects(n: nat)
    requires n < 2 || HasSmallFactor(n)
    ensures !Prime(n) && !Accepted(n)
  {
    if n >= 2 {
      var i: nat :| i < BASE_COUNT && Base(i) < n && NumberTheory.Divides(Base(i), n);
      if IsBase(n) { BasesApart(i, n); }
      assert !NoBaseDivides(n);
    }
  }

  /** Every prime is accepted. */
  lemma {:induction false} PrimesAccepted(n: nat)
    requires Prime(n)
    ensures Accepted(n)
  {
    if !IsBase(n) {
      forall i: nat | i < BASE_COUNT ensures !NumberTheory.Divides(Base(i), n) {
        var b := Base(i);
        if b > n { M.ModUnique(n, 0, n, b); }
      }
      Sieved(n);
      forall i: nat | i < BASE_COUNT ensures Strong(n, Base(i)) {
        M.ModUnique(Base(i), 0, Base(i), n);
        PrimePasses(n, Base(i));
      }
    }
  }

  /** A composite has a divisor at most its square root. */
  lemma {:induction false} SmallestDivisor(n: nat) returns (d: nat)
    requires n >= 2 && !Prime(n)
    ensures 2 <= d < n && n % d == 0 && d * d <= n
  {
    var e: nat :| 2 <= e < n && NumberTheory.Divides(e, n);
    var k := n / e;
    assert n == k * e;
    d := if k <= e then k else e;
    CofactorRange(n, k, e);
    M.ModUnique(n, e, 0, k);
    if k <= e { M.ProductMonotone(k, e, k); } else { M.ProductMonotone(e, k, e); }
  }

  lemma {:induction false} CofactorRange(n: nat, k: nat, e: nat)
    requires n == k * e && 2 <= e < n
    ensures 2 <= k < n
  {
    M.ProductMonotone(2, e, k);
  }

  /** Below `43^2` the test decides primality. */
  lemma {:induction false} DecidesBelow1849(n: nat)
    requires n < 43 * 43
    ensures Accepted(n) <==> Prime(n)
  {
    if Prime(n) {
      PrimesAccepted(n);
    } else if n >= 2 {
      var d := SmallestDivisor(n);
      if d >= 43 { M.ProductMonotone(43, d, 43); M.ProductMonotone(43, d, d); }
      var i := SmallDivisor(d);
      Transitive(Base(i), d, n);
      if Base(i) > d { M.ModUnique(d, 0, d, Base(i)); }
      SieveRejects(n);
    } else {
      SieveRejects(n);
    }
  }

  lemma {:induction false} BasesAccepted(n: nat)
    requires IsBase(n)
    ensures Accepted(n)
  {
  }

  ghost predicate StrongUpTo(n: nat, count: nat)
    requires n >= 2 && count <= BASE_COUNT
  {
    forall i: nat :: i < count ==> Strong(n, Base(i))
  }

  lemma {:induction false} StrongNext(n: nat, count: nat)
    requires n >= 2 && count < BASE_COUNT
    ensures StrongUpTo(n, count + 1) <==> StrongUpTo(n, count) && Strong(n, Base(count))
    ensures StrongUpTo(n, 0)
    ensures StrongUpTo(n, BASE_COUNT) ==> StrongUpTo(n, count + 1)
  {
    hide Strong;
  }

  lemma {:induction false} AcceptedPastSieve(n: nat)
    requires n >= 43 && NoBaseDivides(n)
    ensures Accepted(n) <==> StrongUpTo(n, BASE_COUNT)
  {
    hide Strong;
    BasesSmall(n);
  }

  lemma {:induction false} BasesSmall(n: nat)
    ensures IsBase(n) ==> n <= 41
  {
  }

  /** The test: exactly the numbers `Accepted`, every prime among them. */
  method IsPrime(candidate: U128) returns (prime: bool)
    requires candidate < Pow2(MAX_MODULUS_BITS)
    ensures prime <==> Accepted(candidate)
    ensures Prime(candidate) ==> prime
  {
    hide StrongAtBases, NoBaseDivides, Prime, Strong, StrongUpTo, HasSmallFactor, Accepted, IsBase, Base, Pow2;
    if Prime(candidate) { PrimesAccepted(candidate); }
    var decided := Sieve(candidate);
    if decided.Some? {
      if decided.value { BasesAccepted(candidate); } else { SieveRejects(candidate); }
      return decided.value;
    }
    Sieved(candidate);
    AcceptedPastSieve(candidate);
    var modulus := FieldMetadata.New(candidate);
    var index: nat := 0;
    StrongNext(candidate, 0);
    while index < BASE_COUNT
      invariant index <= BASE_COUNT && StrongUpTo(candidate, index)
    {
      var passed := modulus.StrongRound(Base(index));
      StrongNext(candidate, index);
      if !passed {
        return false;
      }
      index := index + 1;
    }
    return true;
  }
}
