/** Double-width products and shifts, and Barrett reduction. */
module Barrett {
  import M = Montgomery
  import opened Powers

  const B: nat := M.B
  const R: nat := M.R

  type U128 = x: nat | x < 0x1_0000_0000_0000_0000_0000_0000_0000_0000

  // ---------------------------------------------------------------- words

  function OverflowingAdd(a: U128, b: U128): (U128, bool) {
    if a + b < R then (a + b, false) else (a + b - R, true)
  }

  /** `a << 64` and `a >> 64`, on 128-bit words. */
  function ShiftUp(a: U128): U128 {
    (a % B) * B
  }

  lemma {:induction false} ShiftUpValue(a: U128)
    ensures (a % B) * B < R && ShiftUp(a) == a * B - a / B * R
  {
    assert a == a / B * B + a % B;
  }

  function MulWide(a: U128, b: U128): (p: (U128, U128))
    ensures p.0 + R * p.1 == a * b
  {
    var (aLo, aHi) := (a % B, a / B);
    var (bLo, bHi) := (b % B, b / B);
    LimbProducts(a, b);
    var ll: U128 := aLo * bLo;
    var hh := aHi * bHi;
    var (mid, midCarry) := OverflowingAdd(aLo * bHi, aHi * bLo);
    ShiftUpValue(mid);
    var (lo, loCarry) := OverflowingAdd(ll, ShiftUp(mid));
    var hi := hh + mid / B + (if midCarry then B else 0) + (if loCarry then 1 else 0);
    assert lo + R * hi == a * b;
    HighFits(a, b, lo, hi);
    (lo, hi)
  }

  lemma {:induction false} LimbProducts(a: U128, b: U128)
    ensures a * b == (a % B) * (b % B) + B * ((a % B) * (b / B) + (a / B) * (b % B)) + R * ((a / B) * (b / B))
    ensures 0 <= (a % B) * (b % B) < R && 0 <= (a % B) * (b / B) < R
    ensures 0 <= (a / B) * (b % B) < R && 0 <= (a / B) * (b / B) < R
  {
    var a0, a1, b0, b1 := a % B, a / B, b % B, b / B;
    M.ProductBound(a0, b0);
    M.ProductBound(a0, b1);
    M.ProductBound(a1, b0);
    M.ProductBound(a1, b1);
    assert a == a0 + B * a1 && b == b0 + B * b1;
    FourProducts(a0, a1, b0, b1);
  }

  lemma {:induction false} FourProducts(a0: nat, a1: nat, b0: nat, b1: nat)
    ensures (a0 + B * a1) * (b0 + B * b1) == a0 * b0 + B * (a0 * b1 + a1 * b0) + R * (a1 * b1)
  {
  }

  lemma {:induction false} HighFits(a: U128, b: U128, lo: U128, hi: nat)
    requires lo + R * hi == a * b
    ensures hi < R
  {
    M.ProductMonotone(a, R - 1, b);
    M.ProductMonotone(b, R - 1, R - 1);
  }

  // ---------------------------------------------------------------- the double-width shift

  /** `x | y`. */
  function BitOr(x: nat, y: nat): nat {
    if x == 0 && y == 0 then 0
    else (if x % 2 == 1 || y % 2 == 1 then 1 else 0) + 2 * BitOr(x / 2, y / 2)
  }

  /** With no bit in common, `|` adds. */
  lemma {:induction false} OrDisjoint(x: nat, y: nat, k: nat)
    requires x < Pow2(k)
    ensures BitOr(x, y * Pow2(k)) == x + y * Pow2(k)
  {
    if k == 0 {
      OrZero(y);
    } else {
      var z := y * Pow2(k - 1);
      assert y * Pow2(k) == 2 * z by { M.Assoc(y, Pow2(k - 1), 2); }
      OrDisjoint(x / 2, y, k - 1);
    }
  }

  lemma {:induction false} OrZero(y: nat)
    ensures BitOr(0, y) == y
  {
    if y > 0 { OrZero(y / 2); }
  }

  /** `a >> n`. */
  function Shr(a: nat, n: nat): nat {
    M.NonNegative(a, Pow2(n));
    a / Pow2(n)
  }

  function ShrWide(lo: U128, hi: U128, n: nat): (r: U128)
    requires n < 128
    ensures r == (lo + R * hi) / Pow2(n) % R
  {
    if n == 0 then ShiftedByNone(lo, hi); lo
    else
      ShiftedParts(lo, hi, n);
      BitOr(Shr(lo, n), hi * Pow2(128 - n) % R)
  }

  lemma {:induction false} ShiftedByNone(lo: U128, hi: U128)
    ensures (lo + R * hi) / Pow2(0) % R == lo
  {
    assert Pow2(0) == 1 && (lo + R * hi) / 1 == lo + R * hi;
    M.ModUnique(lo + R * hi, hi, lo, R);
  }

  lemma {:induction false} ShiftedParts(lo: U128, hi: U128, n: nat)
    requires 0 < n < 128
    ensures BitOr(Shr(lo, n), hi * Pow2(128 - n) % R) == (lo + R * hi) / Pow2(n) % R < R
  {
    var p, c := Pow2(n), Pow2(128 - n);
    var l1, l0 := lo / p, lo % p;
    var h1, h0 := hi / p, hi % p;
    assert c * p == R by { Pow2Sum(128 - n, n); M.RIsPower(); }
    ShiftArithmetic(lo, hi, p, c, l1, l0, h1, h0);
    OrDisjoint(l1, h0, 128 - n);
    hide BitOr, Pow2;
    ShiftedRemainders(lo, hi, p, c, l1, l0, h1, h0);
  }

  lemma {:induction false} ShiftedRemainders(lo: nat, hi: nat, p: nat, c: nat, l1: nat, l0: nat, h1: nat, h0: nat)
    requires p > 0 && l0 < p && hi * c == h1 * R + h0 * c && 0 <= h0 * c
    requires lo + R * hi == (l1 + c * hi) * p + l0
    requires l1 + c * hi == h1 * R + (l1 + h0 * c) && l1 + h0 * c < R
    ensures hi * c % R == h0 * c && (lo + R * hi) / p % R == l1 + h0 * c
  {
    M.ModUnique(hi * c, h1, h0 * c, R);
    M.ModUnique(lo + R * hi, l1 + c * hi, l0, p);
    M.ModUnique(l1 + c * hi, h1, l1 + h0 * c, R);
  }

  lemma {:induction false} ShiftArithmetic(lo: nat, hi: nat, p: nat, c: nat, l1: nat, l0: nat, h1: nat, h0: nat)
    requires p > 0 && c * p == R && lo < R && lo == l1 * p + l0 && l0 < p && hi == h1 * p + h0 && h0 < p
    ensures hi * c == h1 * R + h0 * c && 0 <= h0 * c < R
    ensures l1 < c
    ensures lo + R * hi == (l1 + c * hi) * p + l0
    ensures l1 + c * hi == h1 * R + (l1 + h0 * c) && l1 + h0 * c < R
  {
    M.PlusTimes(h1 * p, h0, c);
    M.Reorder(h1, p, c);
    M.ProductMonotone(h0 + 1, p, c);
    M.PlusTimes(h0, 1, c);
    M.ProductMonotone(0, h0, c);
    if l1 >= c { M.ProductMonotone(c, l1, p); }
    M.PlusTimes(l1, c * hi, p);
    M.Reorder(c, hi, p);
    M.Assoc(c, p, hi);
  }

  // ---------------------------------------------------------------- the reciprocal

  /** `q` has `k` bits, and is in the range every modulus here has. */
  ghost predicate HasBits(q: nat, k: nat) {
    2 <= q < Pow2(126) && k >= 2 && Pow2(k - 1) <= q < Pow2(k)
  }

  lemma {:induction false} BitsBound(q: nat, k: nat)
    requires HasBits(q, k)
    ensures q >= 2 && 2 <= k <= 126 && 4 * Pow2(126) == R && Pow2(k) <= Pow2(126)
  {
    if k - 1 >= 126 { Pow2Monotone(126, k - 1); }
    M.RIsPower();
    assert Pow2(128) == 2 * Pow2(127) && Pow2(127) == 2 * Pow2(126);
    Pow2Monotone(k, 126);
  }

  /** After `steps` bits of `2^(2k)`, from the top: their quotient and remainder by `q`. */
  ghost predicate Dividing(q: nat, steps: nat, quo: nat, rem: nat) {
    rem < q && quo * q + rem == if steps == 0 then 0 else Pow2(steps - 1)
  }

  /** `floor(2^(2k) / q)` by binary long division. */
  method BarrettMu(q: U128, k: nat) returns (mu: U128)
    requires HasBits(q, k)
    ensures IsReciprocal(mu, q, k)
  {
    hide Dividing, IsReciprocal;
    var rem: U128, quo: U128, i: nat := 0, 0, 2 * k;
    Undivided(q);
    while true
      invariant i <= 2 * k && rem < R / 4 && Dividing(q, 2 * k - i, quo, rem)
      decreases i
    {
      LongDivisionStep(q, k, i, quo, rem);
      rem := 2 * rem + if i == 2 * k then 1 else 0;
      var fits := rem >= q;
      if fits { rem := rem - q; }
      quo := (2 * quo) % R + if fits then 1 else 0;
      if i == 0 {
        Divided(q, k, quo, rem);
        return quo;
      }
      i := i - 1;
    }
  }

  ghost predicate IsReciprocal(mu: nat, q: nat, k: nat) {
    q > 0 && mu == Pow2(2 * k) / q && mu <= Pow2(k + 1)
  }

  lemma {:induction false} Undivided(q: nat)
    requires q > 0
    ensures Dividing(q, 0, 0, 0)
  {
  }

  lemma {:induction false} Divided(q: nat, k: nat, quo: nat, rem: nat)
    requires HasBits(q, k) && Dividing(q, 2 * k + 1, quo, rem)
    ensures IsReciprocal(quo, q, k)
  {
    hide Pow2;
    M.ModUnique(Pow2(2 * k), quo, rem, q);
    ReciprocalBound(q, k, quo);
  }

  lemma {:induction false} LongDivisionStep(q: nat, k: nat, i: nat, quo: nat, rem: nat)
    requires HasBits(q, k) && i <= 2 * k && Dividing(q, 2 * k - i, quo, rem)
    ensures var up := 2 * rem + if i == 2 * k then 1 else 0;
      var next := 2 * quo + if up >= q then 1 else 0;
      && up < R / 2 && 2 * quo < R && next < R
      && (if up >= q then up - q else up) < R / 4
      && Dividing(q, 2 * k - i + 1, next, if up >= q then up - q else up)
  {
    var up := 2 * rem + if i == 2 * k then 1 else 0;
    var next := 2 * quo + if up >= q then 1 else 0;
    var rest := if up >= q then up - q else up;
    DoubledQuotient(q, quo, if up >= q then 1 else 0);
    if i == 2 * k { NoQuotient(q, quo, rem); }
    assert next * q + rest == Pow2(2 * k - i);
    hide Pow2, Dividing;
    BitsBound(q, k);
    Pow2Monotone(2 * k - i, 2 * k);
    ReciprocalBound(q, k, next);
  }

  lemma {:induction false} NoQuotient(q: nat, quo: nat, rem: nat)
    requires q > 0 && quo * q + rem == 0
    ensures quo == 0 && rem == 0
  {
  }

  lemma {:induction false} DoubledQuotient(q: nat, quo: nat, bit: nat)
    ensures (2 * quo + bit) * q == 2 * (quo * q) + bit * q
  {
  }

  lemma {:induction false} ReciprocalBound(q: nat, k: nat, quo: nat)
    requires HasBits(q, k) && quo * q <= Pow2(2 * k)
    ensures quo <= Pow2(k + 1) < R
  {
    BitsBound(q, k);
    Pow2Sum(k + 1, k - 1);
    assert Pow2(k + 1) == 2 * Pow2(k);
    hide Pow2;
    BoundedFactor(quo, q, Pow2(k + 1), Pow2(k - 1));
  }

  lemma {:induction false} BoundedFactor(quo: nat, q: nat, y: nat, x: nat)
    requires 0 < x <= q && quo * q <= y * x
    ensures quo <= y
  {
    var next: nat := y + 1;
    M.ProductMonotone(x, q, next);
    M.PlusTimes(y, 1, x);
    BothSides(next, x, q);
    if quo > y { M.ProductMonotone(next, quo, q); }
  }

  lemma {:induction false} BothSides(a: int, x: int, q: int)
    ensures a * x == x * a && a * q == q * a
  {
  }

  // ---------------------------------------------------------------- the reduction

  /** The quotient estimate is at most two too small, for every numerator below `2^(2k)`. */
  lemma {:induction false} EstimateBounds(v: nat, q: nat, k: nat, mu: nat, q1: nat, q3: nat)
    requires HasBits(q, k) && v < Pow2(2 * k) && IsReciprocal(mu, q, k)
    requires q1 == v / Pow2(k - 1) && 0 <= q1 * mu && q3 == q1 * mu / Pow2(k + 1)
    ensures 0 <= v - q3 * q < 3 * q
    ensures v / q - 2 <= q3 <= v / q
  {
    Pow2Sum(k - 1, k + 1);
    hide Pow2;
    EstimateGap(v, q, Pow2(k - 1), Pow2(k + 1), mu, q1, q3);
    QuotientNear(v, q, q3, v - q3 * q);
  }

  lemma {:induction false} EstimateGap(v: nat, q: nat, x: nat, y: nat, mu: nat, q1: nat, q3: nat)
    requires 0 < x <= q && y > 0 && 0 <= v < x * y && mu == x * y / q
    requires q1 == v / x && 0 <= q1 * mu && q3 == q1 * mu / y
    ensures 0 <= v - q3 * q < 3 * q
  {
    var v0, m0, t := v % x, x * y % q, q1 * mu % y;
    QuotientAndRemainder(v, x, q1);
    QuotientAndRemainder(x * y, q, mu);
    QuotientAndRemainder(q1 * mu, y, q3);
    assert q1 < y by { QuotientBelow(v, x, y, q1); }
    assert 0 <= (v - q3 * q) * y < 3 * (q * y) by {
      TimesY(v, q, x, y, q1, mu, q3, v0, m0, t);
      ErrorBound(q, x, y, q1, v0, m0, t);
    }
    GapBound(v - q3 * q, q, y);
  }

  lemma {:induction false} QuotientAndRemainder(a: nat, m: nat, quotient: nat)
    requires m > 0 && quotient == a / m
    ensures a == quotient * m + a % m && a % m < m
  {
  }

  lemma {:induction false} QuotientBelow(v: nat, x: nat, y: nat, q1: nat)
    requires x > 0 && v < x * y && q1 == v / x
    ensures q1 < y
  {
    assert v == q1 * x + v % x;
    if q1 >= y { M.ProductMonotone(y, q1, x); }
  }

  lemma {:induction false} TimesY(
    v: int, q: int, x: int, y: int, q1: int, mu: int, q3: int, v0: int, m0: int, t: int
  )
    requires v == q1 * x + v0 && x * y == mu * q + m0 && q1 * mu == q3 * y + t
    ensures (v - q3 * q) * y == v0 * y + q1 * m0 + t * q
  {
    assert v * y == q1 * (x * y) + v0 * y by { M.PlusTimes(q1 * x, v0, y); M.Assoc(q1, x, y); }
    assert q1 * (x * y) == q1 * mu * q + q1 * m0 by { Distribute(q1, mu * q, m0); M.Assoc(q1, mu, q); }
    assert q1 * mu * q == q3 * y * q + t * q by { M.PlusTimes(q3 * y, t, q); }
    assert (v - q3 * q) * y == v * y - q3 * q * y by { M.SubTimes(v, q3 * q, y); }
    M.Reorder(q3, q, y);
    M.Reorder(q3, y, q);
    M.Assoc(q3, q, y);
  }

  lemma {:induction false} Distribute(a: int, b: int, c: int)
    ensures a * (b + c) == a * b + a * c
  {
  }

  lemma {:induction false} ErrorBound(q: nat, x: nat, y: nat, q1: nat, v0: nat, m0: nat, t: nat)
    requires x <= q && v0 < x && m0 < q && q1 < y && t < y
    ensures 0 <= v0 * y + q1 * m0 + t * q < 3 * (q * y)
  {
    ProductWithin(v0, y, q, y);
    ProductWithin(m0, q1, q, y);
    Commute(m0, q1);
    ProductWithin(q, t + 1, q, y);
    ProductWithin(t, q, t, q);
    M.PlusTimes(t, 1, q);
    Commute(q, t + 1);
    ThreeBelow(v0 * y, q1 * m0, t * q, q * y);
  }

  lemma {:induction false} ThreeBelow(a: int, b: int, c: int, n: int)
    requires 0 <= a <= n && 0 <= b <= n && 0 <= c < n
    ensures 0 <= a + b + c < 3 * n
  {
  }

  lemma {:induction false} ProductWithin(a: nat, b: nat, c: nat, d: nat)
    requires a <= c && b <= d
    ensures 0 <= a * b <= c * d
  {
    M.ProductMonotone(0, a, b);
    M.ProductMonotone(a, c, b);
    M.ProductMonotone(b, d, c);
    Commute(b, c);
    Commute(d, c);
  }

  lemma {:induction false} Commute(x: int, y: int)
    ensures x * y == y * x
  {
  }

  lemma {:induction false} GapBound(gap: int, q: nat, y: nat)
    requires y > 0 && 0 <= gap * y < 3 * (q * y)
    ensures 0 <= gap < 3 * q
  {
    if gap >= 3 * q { M.ProductMonotone(3 * q, gap, y); M.Assoc(3, q, y); }
    if gap < 0 { M.ProductMonotone(1, -gap, y); M.NegTimes(gap, y); }
  }

  lemma {:induction false} QuotientNear(v: nat, q: nat, q3: nat, gap: nat)
    requires q > 0 && v == q3 * q + gap && gap < 3 * q
    ensures v / q - 2 <= q3 <= v / q
  {
    var extra := if gap < q then 0 else if gap < 2 * q then 1 else 2;
    M.PlusTimes(q3, extra, q);
    assert extra * q == if extra == 0 then 0 else if extra == 1 then q else 2 * q;
    M.ModUnique(v, q3 + extra, gap - extra * q, q);
  }

  /** `(lo, hi) mod q`: estimate the quotient, subtract, correct at most twice. */
  method BarrettReduce(lo: U128, hi: U128, q: U128, mu: U128, k: nat) returns (r: U128)
    requires HasBits(q, k) && IsReciprocal(mu, q, k) && lo + R * hi < Pow2(2 * k)
    ensures r == (lo + R * hi) % q
  {
    hide HasBits, IsReciprocal, Pow2;
    BitsBound(q, k);
    var q1 := ShrWide(lo, hi, k - 1);
    var q2 := MulWide(q1, mu);
    var q3 := ShrWide(q2.0, q2.1, k + 1);
    QuotientsFit(lo, hi, q, mu, k, q1, q2.0 + R * q2.1, q3);
    ghost var v := lo + R * hi;
    ghost var gap := v - q3 * q;
    var product := MulWide(q3, q);
    WrappedDifference(lo, hi, product.0, product.1, gap);
    r := (lo - product.0) % R;
    assert r == gap < 3 * q;
    if r >= q { r := r - q; }
    if r >= q { r := r - q; }
    Corrected(v, q, q3, gap, r);
  }

  lemma {:induction false} QuotientsFit(lo: U128, hi: U128, q: nat, mu: nat, k: nat, q1: nat, q2: nat, q3: nat)
    requires HasBits(q, k) && IsReciprocal(mu, q, k) && lo + R * hi < Pow2(2 * k)
    requires q1 == (lo + R * hi) / Pow2(k - 1) % R && q2 == q1 * mu && q3 == q2 / Pow2(k + 1) % R
    ensures 0 <= lo + R * hi - q3 * q < 3 * q && 3 * q < R
  {
    var v := lo + R * hi;
    BitsBound(q, k);
    Pow2Sum(k - 1, k + 1);
    assert Pow2(k + 1) == 2 * Pow2(k);
    hide Pow2;
    M.NonNegative(v, Pow2(k - 1));
    QuotientBelow(v, Pow2(k - 1), Pow2(k + 1), v / Pow2(k - 1));
    Below(v / Pow2(k - 1));
    ReducedProduct(q1, mu, Pow2(k + 1));
    Below(q2 / Pow2(k + 1));
    EstimateBounds(v, q, k, mu, q1, q3);
  }

  lemma {:induction false} Below(x: nat)
    ensures x < R ==> x % R == x
  {
  }

  lemma {:induction false} ReducedProduct(q1: nat, mu: nat, y: nat)
    requires q1 < y && mu <= y && 0 < y <= R / 2
    ensures 0 <= q1 * mu && 0 <= q1 * mu / y < R
  {
    M.ProductMonotone(0, q1, mu);
    M.ProductMonotone(q1, y, mu);
    M.ProductMonotone(mu, y, y);
    var d := q1 * mu / y;
    assert q1 * mu == d * y + q1 * mu % y;
    M.NonNegative(q1 * mu, y);
    if d > y { M.ProductMonotone(y + 1, d, y); M.PlusTimes(y, 1, y); }
  }

  /** The difference taken modulo `2^128` is the true one. */
  lemma {:induction false} WrappedDifference(lo: U128, hi: U128, low: U128, high: U128, gap: nat)
    requires lo + R * hi - (low + R * high) == gap < R
    ensures (lo - low) % R == gap
  {
    M.SubTimes(high, hi, R);
    M.ModUnique(lo - low, high - hi, gap, R);
  }

  lemma {:induction false} Corrected(v: nat, q: nat, q3: nat, gap: nat, r: nat)
    requires q > 0 && v == q3 * q + gap && gap < 3 * q
    requires r == if gap < q then gap else if gap < 2 * q then gap - q else gap - 2 * q
    ensures r == v % q
  {
    var extra := if gap < q then 0 else if gap < 2 * q then 1 else 2;
    M.PlusTimes(q3, extra, q);
    assert extra * q == if extra == 0 then 0 else if extra == 1 then q else 2 * q;
    M.ModUnique(v, q3 + extra, r, q);
  }
}
