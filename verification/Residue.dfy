/** Integers modulo a prime: congruence, inverses and quotients. */
module Residue {
  import M = Montgomery
  import opened NumberTheory

  /** `a` and `b` are congruent modulo `p`. */
  ghost predicate Eq(a: int, b: int, p: nat) {
    p > 0 && a % p == b % p
  }

  lemma {:induction false} EqBy(a: int, b: int, k: int, p: nat)
    requires p > 0 && a == b + k * p
    ensures Eq(a, b, p)
  {
    Shift(b, k, p);
  }

  lemma {:induction false} EqReduced(a: int, p: nat)
    requires p > 0
    ensures Eq(a % p, a, p)
  {
    M.ModUnique(a % p, 0, a % p, p);
  }

  lemma {:induction false} EqSum(a: int, a': int, b: int, b': int, p: nat)
    requires Eq(a, a', p) && Eq(b, b', p)
    ensures Eq(a + b, a' + b', p) && Eq(a - b, a' - b', p)
  {
    var k, l := a / p - a' / p, b / p - b' / p;
    Quotients(a, a', k, p);
    Quotients(b, b', l, p);
    M.PlusTimes(k, l, p);
    M.SubTimes(k, l, p);
    EqBy(a + b, a' + b', k + l, p);
    EqBy(a - b, a' - b', k - l, p);
  }

  lemma {:induction false} Quotients(a: int, b: int, k: int, p: nat)
    requires Eq(a, b, p) && k == a / p - b / p
    ensures a == b + k * p
  {
    M.SubTimes(a / p, b / p, p);
  }

  lemma {:induction false} EqProduct(a: int, a': int, b: int, b': int, p: nat)
    requires Eq(a, a', p) && Eq(b, b', p)
    ensures Eq(a * b, a' * b', p)
  {
    ReduceBoth(a, b, p);
    ReduceBoth(a', b', p);
  }

  /** Congruence to zero is divisibility. */
  lemma {:induction false} EqZero(a: int, p: nat)
    requires p > 0
    ensures Eq(a, 0, p) <==> a % p == 0
  {
    M.ModUnique(0, 0, 0, p);
  }

  lemma {:induction false} EqDifference(a: int, b: int, p: nat)
    requires p > 0
    ensures Eq(a, b, p) <==> (a - b) % p == 0
  {
    DifferenceDivides(a, b, p);
  }

  /** The inverse of a nonzero residue. */
  function Inverse(d: int, p: nat): nat
    requires p >= 2
  {
    Power(d % p, p - 2) % p
  }

  lemma {:induction false} InverseIs(d: int, p: nat)
    requires Prime(p) && !Eq(d, 0, p)
    ensures Eq(d * Inverse(d, p), 1, p) && Inverse(d, p) < p
  {
    var r: nat := d % p;
    EqZero(d, p);
    assert !Divides(p, r) by { M.ModUnique(r, 0, r, p); }
    Fermat(p, r);
    var power := Power(r, p - 2);
    assert Power(r, p - 1) == r * power;
    hide Power;
    InverseStep(d, r, power, p);
  }

  lemma {:induction false} InverseStep(d: int, r: nat, power: nat, p: nat)
    requires p >= 2 && r == d % p && (r * power) % p == 1
    ensures Eq(d * (power % p), 1, p)
  {
    M.ModUnique(1, 0, 1, p);
    EqReduced(d, p);
    EqReduced(power, p);
    EqProduct(d, r, power % p, power, p);
  }

  /** `n / d` as the residue with `quotient * d = n`. */
  function Quotient(n: int, d: int, p: nat): nat
    requires p >= 2
  {
    Inverse(d, p) * (n % p) % p
  }

  lemma {:induction false} QuotientIs(n: int, d: int, p: nat)
    requires Prime(p) && !Eq(d, 0, p)
    ensures Eq(Quotient(n, d, p) * d, n, p) && Quotient(n, d, p) < p
  {
    var i := Inverse(d, p);
    InverseIs(d, p);
    hide Inverse, Prime;
    EqReduced(i * (n % p), p);
    EqReduced(n, p);
    EqProduct(i, i, n % p, n, p);
    assert Eq(Quotient(n, d, p), i * n, p);
    EqProduct(Quotient(n, d, p), i * n, d, d, p);
    EqProduct(d * i, 1, n, n, p);
    Rearrange(i, n, d);
  }

  lemma {:induction false} Rearrange(i: int, n: int, d: int)
    ensures i * n * d == d * i * n && 1 * n == n
  {
  }

  /** A residue with `s * d = n` is the quotient. */
  lemma {:induction false} QuotientUnique(s: int, n: int, d: int, p: nat)
    requires Prime(p) && !Eq(d, 0, p) && Eq(s * d, n, p)
    ensures Eq(s, Quotient(n, d, p), p)
  {
    QuotientIs(n, d, p);
    EqZero(d, p);
    hide Quotient, Prime;
    Cancel(p, s, Quotient(n, d, p), d);
  }
}
