/** Where the constants of SHA-256 come from: the first 32 bits of the fractional parts of the cube roots and
    of the square roots of the first primes (sections 4.2.2 and 5.3.3 of FIPS 180-4). */
module Sha256Constants {
  import M = Montgomery
  import opened NumberTheory
  import opened Primality
  import opened Powers
  import opened Numerals
  import opened Sha256Spec

  // ---------------------------------------------------------------- the first primes

  /** The number of primes below `n`. */
  ghost function PrimesBelow(n: nat): nat {
    if n == 0 then 0 else PrimesBelow(n - 1) + if Prime(n - 1) then 1 else 0
  }

  /** The first primes, eight to a row. */
  const P0: seq<nat> := [2, 3, 5, 7, 11, 13, 17, 19]
  const P1: seq<nat> := [23, 29, 31, 37, 41, 43, 47, 53]
  const P2: seq<nat> := [59, 61, 67, 71, 73, 79, 83, 89]
  const P3: seq<nat> := [97, 101, 103, 107, 109, 113, 127, 131]
  const P4: seq<nat> := [137, 139, 149, 151, 157, 163, 167, 173]
  const P5: seq<nat> := [179, 181, 191, 193, 197, 199, 211, 223]
  const P6: seq<nat> := [227, 229, 233, 239, 241, 251, 257, 263]
  const P7: seq<nat> := [269, 271, 277, 281, 283, 293, 307, 311]

  function NthPrime(t: nat): nat
    requires t < 64
  {
    if t < 8 then P0[t] else if t < 16 then P1[t - 8] else if t < 24 then P2[t - 16] else if t < 32 then P3[t - 24]
    else if t < 40 then P4[t - 32] else if t < 48 then P5[t - 40] else if t < 56 then P6[t - 48] else P7[t - 56]
  }

  /** No prime up to 17 divides the number properly. */
  predicate Sieved(n: nat) {
    && n >= 2
    && (n % 2 != 0 || n == 2) && (n % 3 != 0 || n == 3) && (n % 5 != 0 || n == 5) && (n % 7 != 0 || n == 7)
    && (n % 11 != 0 || n == 11) && (n % 13 != 0 || n == 13) && (n % 17 != 0 || n == 17)
  }

  /** Below `18^2` that decides primality. */
  lemma {:induction false} SievedIsPrime(n: nat)
    requires n < 324
    ensures Sieved(n) <==> Prime(n)
  {
    if Prime(n) {
      assert !Divides(2, n) || n == 2;
      assert !Divides(3, n) || n == 3;
      assert !Divides(5, n) || n == 5;
      assert !Divides(7, n) || n == 7;
      assert !Divides(11, n) || n == 11;
      assert !Divides(13, n) || n == 13;
      assert !Divides(17, n) || n == 17;
    } else if n >= 2 {
      CompositeIsNotSieved(n);
    }
  }

  lemma {:induction false} CompositeIsNotSieved(n: nat)
    requires 2 <= n < 324 && !Prime(n)
    ensures !Sieved(n)
  {
    hide Prime, Sieved, Base;
    var d := SmallestDivisor(n);
    if d >= 18 { M.ProductMonotone(18, d, 18); M.ProductMonotone(18, d, d); }
    var i := SmallDivisor(d);
    Transitive(Base(i), d, n);
    if Base(i) > d { M.ModUnique(d, 0, d, Base(i)); }
    ProperBase(n, i);
  }

  lemma {:induction false} ProperBase(n: nat, i: nat)
    requires i < BASE_COUNT && Base(i) < 18 && Base(i) < n && n % Base(i) == 0
    ensures !Sieved(n)
  {
  }

  lemma {:induction false} ListedAreSieved(t: nat)
    requires t < 64
    ensures Sieved(NthPrime(t)) && NthPrime(t) < 312
  {
    if t < 32 { ListedBelow32(t); } else { ListedFrom32(t); }
  }

  lemma {:induction false} ListedBelow32(t: nat)
    requires t < 32
    ensures Sieved(NthPrime(t)) && NthPrime(t) < 312
  {
  }

  lemma {:induction false} ListedFrom32(t: nat)
    requires 32 <= t < 64
    ensures Sieved(NthPrime(t)) && NthPrime(t) < 312
  {
  }

  // ---------------------------------------------------------------- the table is complete

  predicate InTable(n: nat) {
    n in P0 || n in P1 || n in P2 || n in P3 || n in P4 || n in P5 || n in P6 || n in P7
  }

  /** What the sieve leaves above five is one of eight residues modulo thirty. */
  lemma {:induction false} Wheel(n: nat)
    requires n > 5 && Sieved(n)
    ensures var r := n % 30; r == 1 || r == 7 || r == 11 || r == 13 || r == 17 || r == 19 || r == 23 || r == 29
  {
    var q, r := n / 30, n % 30;
    assert n == q * 30 + r;
    M.ModUnique(n, 15 * q + r / 2, r % 2, 2);
    M.ModUnique(n, 10 * q + r / 3, r % 3, 3);
    M.ModUnique(n, 6 * q + r / 5, r % 5, 5);
    Residues(r);
  }

  lemma {:induction false} Residues(r: nat)
    requires r < 30 && r % 2 != 0 && r % 3 != 0 && r % 5 != 0
    ensures r == 1 || r == 7 || r == 11 || r == 13 || r == 17 || r == 19 || r == 23 || r == 29
  {
  }

  /** The multiples of seven to seventeen are sieved out. */
  predicate Rest(n: nat) {
    (n % 7 != 0 || n == 7) && (n % 11 != 0 || n == 11) && (n % 13 != 0 || n == 13) && (n % 17 != 0 || n == 17)
  }

  lemma {:induction false} Turn1(q: nat)
    requires q <= 10
    ensures q > 0 && Rest(30 * q + 1) ==> InTable(30 * q + 1)
  {
  }

  lemma {:induction false} Turn7(q: nat)
    requires q <= 10
    ensures Rest(30 * q + 7) ==> InTable(30 * q + 7)
  {
  }

  lemma {:induction false} Turn11(q: nat)
    requires q <= 10
    ensures Rest(30 * q + 11) ==> InTable(30 * q + 11)
  {
  }

  lemma {:induction false} Turn13(q: nat)
    requires q < 10
    ensures Rest(30 * q + 13) ==> InTable(30 * q + 13)
  {
  }

  lemma {:induction false} Turn17(q: nat)
    requires q < 10
    ensures Rest(30 * q + 17) ==> InTable(30 * q + 17)
  {
  }

  lemma {:induction false} Turn19(q: nat)
    requires q < 10
    ensures Rest(30 * q + 19) ==> InTable(30 * q + 19)
  {
  }

  lemma {:induction false} Turn23(q: nat)
    requires q < 10
    ensures Rest(30 * q + 23) ==> InTable(30 * q + 23)
  {
  }

  lemma {:induction false} Turn29(q: nat)
    requires q < 10
    ensures Rest(30 * q + 29) ==> InTable(30 * q + 29)
  {
  }

  lemma {:induction false} SievedInTable(n: nat)
    requires Sieved(n) && n < 312
    ensures InTable(n)
  {
    hide InTable;
    if n <= 5 {
      SmallInTable(n);
    } else {
      var q, r := n / 30, n % 30;
      Wheel(n);
      hide Sieved;
      Turn1(q); Turn7(q); Turn11(q);
      if q < 10 { Turn13(q); Turn17(q); Turn19(q); Turn23(q); Turn29(q); }
    }
  }

  lemma {:induction false} SmallInTable(n: nat)
    requires n == 2 || n == 3 || n == 5
    ensures InTable(n)
  {
    assert P0[0] == 2 && P0[1] == 3 && P0[2] == 5;
  }

  lemma {:induction false} TableIndex(n: nat) returns (t: nat)
    requires InTable(n)
    ensures t < 64 && NthPrime(t) == n
  {
    if n in P0 { t :| t < 8 && P0[t] == n; }
    else if n in P1 { var i: nat :| i < 8 && P1[i] == n; t := 8 + i; }
    else if n in P2 { var i: nat :| i < 8 && P2[i] == n; t := 16 + i; }
    else if n in P3 { var i: nat :| i < 8 && P3[i] == n; t := 24 + i; }
    else if n in P4 { var i: nat :| i < 8 && P4[i] == n; t := 32 + i; }
    else if n in P5 { var i: nat :| i < 8 && P5[i] == n; t := 40 + i; }
    else if n in P6 { var i: nat :| i < 8 && P6[i] == n; t := 48 + i; }
    else { var i: nat :| i < 8 && P7[i] == n; t := 56 + i; }
  }

  lemma {:induction false} Rising(t: nat)
    requires t < 63
    ensures NthPrime(t) < NthPrime(t + 1)
  {
  }

  lemma {:induction false} Ordered(t: nat, u: nat)
    requires t <= u < 64
    ensures NthPrime(t) <= NthPrime(u)
    decreases u
  {
    hide NthPrime;
    if t < u {
      Ordered(t, u - 1);
      Rising(u - 1);
    }
  }

  /** Between two listed primes nothing is left by the sieve. */
  lemma {:induction false} GapsAreNot(t: nat, n: nat)
    requires t < 63 && NthPrime(t) < n < NthPrime(t + 1)
    ensures !Sieved(n)
  {
    hide NthPrime, Sieved, InTable;
    ListedAreSieved(t + 1);
    if Sieved(n) {
      SievedInTable(n);
      var u := TableIndex(n);
      if u <= t { Ordered(u, t); } else { Ordered(t + 1, u); }
    }
  }

  lemma {:induction false} NoneBetween(a: nat, b: nat)
    requires a <= b && forall n: nat :: a <= n < b ==> !Prime(n)
    ensures PrimesBelow(b) == PrimesBelow(a)
    decreases b
  {
    if a < b { NoneBetween(a, b - 1); }
  }

  /** The table lists the primes in order. */
  lemma {:induction false} IsNthPrime(t: nat)
    requires t < 64
    ensures Prime(NthPrime(t)) && PrimesBelow(NthPrime(t)) == t
  {
    ListedAreSieved(t);
    SievedIsPrime(NthPrime(t));
    if t == 0 {
      assert NthPrime(0) == 2;
      NoneBetween(0, 2);
    } else {
      var before := NthPrime(t - 1);
      IsNthPrime(t - 1);
      Rising(t - 1);
      ListedAreSieved(t - 1);
      forall n: nat | before + 1 <= n < NthPrime(t) ensures !Prime(n) {
        GapsAreNot(t - 1, n);
        SievedIsPrime(n);
      }
      hide NthPrime, Prime;
      NoneBetween(before + 1, NthPrime(t));
    }
  }

  // ---------------------------------------------------------------- their roots

  /** `n` is the floor of `2^32` times the cube root of `p`. */
  predicate IsCubeRoot(n: nat, p: nat) {
    n * n * n <= p * 0x1_0000_0000_0000_0000_0000_0000 < (n + 1) * (n + 1) * (n + 1)
  }

  /** `n` is the floor of `2^32` times the square root of `p`. */
  predicate IsSquareRoot(n: nat, p: nat) {
    n * n <= p * 0x1_0000_0000_0000_0000 < (n + 1) * (n + 1)
  }

  /** The integer part of the cube root of a number below 343. */
  function WholeCubeRoot(p: nat): nat {
    if p < 8 then 1 else if p < 27 then 2 else if p < 64 then 3 else if p < 125 then 4 else if p < 216 then 5 else 6
  }

  /** Round constant `t` is the fraction of the cube root of the prime with `t` primes below it. */
  lemma {:induction false} RoundConstantIsRoot(t: nat) returns (p: nat, whole: nat)
    requires t < 64
    ensures Prime(p) && PrimesBelow(p) == t
    ensures IsCubeRoot(0x1_0000_0000 * whole + RoundConstant(t), p)
  {
    hide Prime, PrimesBelow, RoundConstant, IsCubeRoot;
    p := NthPrime(t);
    whole := WholeCubeRoot(p);
    IsNthPrime(t);
    if t < 32 { RootsBelow32(t); } else { RootsFrom32(t); }
  }

  lemma {:induction false} RootsBelow32(t: nat)
    requires t < 32
    ensures IsCubeRoot(0x1_0000_0000 * WholeCubeRoot(NthPrime(t)) + RoundConstant(t), NthPrime(t))
  {
  }

  lemma {:induction false} RootsFrom32(t: nat)
    requires 32 <= t < 64
    ensures IsCubeRoot(0x1_0000_0000 * WholeCubeRoot(NthPrime(t)) + RoundConstant(t), NthPrime(t))
  {
  }

  /** Word `t` of the initial state is the fraction of the square root of the prime with `t` primes below it. */
  lemma {:induction false} InitialWordIsRoot(t: nat) returns (p: nat, whole: nat)
    requires t < 8
    ensures |INITIAL_STATE| == 8 && INITIAL_STATE[t] < 0x1_0000_0000
    ensures Prime(p) && PrimesBelow(p) == t
    ensures IsSquareRoot(0x1_0000_0000 * whole + INITIAL_STATE[t], p)
  {
    p := NthPrime(t);
    whole := WholeSquareRoot(t);
    IsNthPrime(t);
    SquareRoots(t);
  }

  /** The integer part of the square root of one of the first eight primes. */
  function WholeSquareRoot(t: nat): nat {
    if t < 2 then 1 else if t < 4 then 2 else if t < 6 then 3 else 4
  }

  lemma {:induction false} SquareRoots(t: nat)
    requires t < 8 && |INITIAL_STATE| == 8
    ensures INITIAL_STATE[t] < 0x1_0000_0000
    ensures IsSquareRoot(0x1_0000_0000 * WholeSquareRoot(t) + INITIAL_STATE[t], NthPrime(t))
  {
  }

  /** The initial state holds those words in order. */
  lemma {:induction false} InitialWords(t: nat)
    requires t < 8
    ensures |INITIAL_STATE| == 8 && |WordsOf(InitialState())| == 8
    ensures Number(WordsOf(InitialState())[t]) == INITIAL_STATE[t]
  {
    hide Bits, Number, Pow2;
    SquareRoots(t);
    ThirtyTwo();
    Exact(32, INITIAL_STATE[t]);
    assert WordsOf(InitialState())[t] == Bits(32, INITIAL_STATE[t]);
  }
}
