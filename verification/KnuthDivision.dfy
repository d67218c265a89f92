/** Long division by a normalized divisor: the estimated quotient digit, the subtraction with an offset
    carry, and the rare correction. */
module KnuthDivision {
  import M = Montgomery
  import opened Limbs

  // ---------------------------------------------------------------- the estimate

  /** The estimate of a quotient digit: the largest limb whose product with the divisor's top two limbs
      stays within the dividend's top three. */
  ghost predicate IsEstimate(e: int, top3: int, top2: int) {
    0 <= e < B && e * top2 <= top3 && (e == B - 1 || top3 < (e + 1) * top2)
  }

  method EstimateDigit(extraHigh: Word, high: Word, next: Word, divisorHigh: Word, divisorNext: Word)
      returns (estimate: Word)
    requires divisorHigh > 0 && extraHigh <= divisorHigh
    ensures IsEstimate(estimate, (extraHigh * B + high) * B + next, divisorHigh * B + divisorNext)
  {
    var rest: nat;
    ghost var top := extraHigh * B + high;
    ghost var top3, top2 := top * B + next, divisorHigh * B + divisorNext;
    if extraHigh < divisorHigh {
      var numerator := extraHigh * B + high;
      EstimateFits(extraHigh, high, divisorHigh);
      estimate, rest := numerator / divisorHigh, numerator % divisorHigh;
      AboveEstimate(estimate + 1, numerator, next, divisorHigh, divisorNext);
    } else {
      estimate, rest := B - 1, extraHigh + high;
      LargestEstimate(divisorHigh, high);
    }
    while rest < B && rest * B + next < estimate * divisorNext
      invariant Estimating(estimate, rest, top, divisorHigh) && (estimate == B - 1 || top3 < (estimate + 1) * top2)
      decreases estimate
    {
      hide Estimating;
      EstimateDown(estimate, rest, top, next, divisorHigh, divisorNext);
      estimate, rest := estimate - 1, rest + divisorHigh;
    }
    NotTooLarge(estimate, rest, top, next, divisorHigh, divisorNext);
  }

  ghost predicate Estimating(estimate: int, rest: int, top: int, divisorHigh: int) {
    estimate * divisorHigh + rest == top
  }

  lemma {:induction false} LargestEstimate(d: nat, high: nat)
    ensures (B - 1) * d + (d + high) == d * B + high
  {
  }

  lemma {:induction false} EstimateDown(e: nat, rest: nat, top: nat, next: Word, dh: nat, dn: nat)
    requires Estimating(e, rest, top, dh) && rest * B + next < e * dn
    ensures e > 0 && Estimating(e - 1, rest + dh, top, dh)
    ensures top * B + next < e * (dh * B + dn)
  {
    EstimatePositive(e, dn, rest * B + next);
    TooLarge(e, rest, top, next, dh, dn);
    M.PlusTimes(e - 1, 1, dh);
  }

  lemma {:induction false} EstimateFits(extraHigh: Word, high: Word, d: Word)
    requires extraHigh < d
    ensures 0 <= (extraHigh * B + high) / d < B
    ensures (extraHigh * B + high) / d * d + (extraHigh * B + high) % d == extraHigh * B + high
    ensures extraHigh * B + high < ((extraHigh * B + high) / d + 1) * d
  {
    var n := extraHigh * B + high;
    var q := n / d;
    M.NonNegative(n, d);
    assert n == q * d + n % d;
    if q >= B { M.ProductMonotone(B, q, d); }
    M.PlusTimes(q, 1, d);
  }

  /** A multiple above the top two limbs is above the top three. */
  lemma {:induction false} AboveEstimate(e: nat, top: nat, next: Word, dh: Word, dn: Word)
    requires top < e * dh
    ensures top * B + next < e * (dh * B + dn)
  {
    M.Assoc(e, dh, B);
    assert e * (dh * B + dn) == e * dh * B + e * dn by { Spread3(e, dh * B, dn, 0); }
    M.ProductMonotone(0, e, dn);
    M.ProductMonotone(top + 1, e * dh, B);
  }

  lemma {:induction false} EstimatePositive(e: nat, dn: nat, x: nat)
    requires x < e * dn
    ensures e > 0
  {
  }

  lemma {:induction false} TooLarge(e: nat, rest: nat, top: nat, next: Word, dh: nat, dn: nat)
    requires e * dh + rest == top && rest * B + next < e * dn
    ensures top * B + next < e * (dh * B + dn)
  {
    TopTimes(e, rest, dh, dn);
  }

  lemma {:induction false} TopTimes(e: nat, rest: int, dh: nat, dn: nat)
    ensures (e * dh + rest) * B == e * (dh * B + dn) - e * dn + rest * B
  {
    M.PlusTimes(e * dh, rest, B);
    M.Assoc(e, dh, B);
    Spread3(e, dh * B, dn, 0);
  }

  lemma {:induction false} NotTooLarge(e: Word, rest: nat, top: nat, next: Word, dh: nat, dn: Word)
    requires e * dh + rest == top && (rest >= B || rest * B + next >= e * dn)
    ensures e * (dh * B + dn) <= top * B + next
  {
    TopTimes(e, rest, dh, dn);
    M.ProductBound(e, dn);
    if rest >= B { M.ProductMonotone(B, rest, B); }
  }

  // ---------------------------------------------------------------- the digit

  /** The estimate is the quotient digit or one more; with no further limbs it is the digit itself. */
  lemma {:induction false} EstimateIsClose(e: nat, u: nat, v: nat, top3: nat, top2: nat, low3: nat, low2: nat, w: nat)
    requires IsEstimate(e, top3, top2) && top2 >= B
    requires w > 0 && u == top3 * w + low3 && low3 < w && v == top2 * w + low2 && low2 < w && u < v * B
    ensures u < (e + 1) * v && (e - 1) * v <= u
    ensures low2 == 0 ==> e * v <= u
  {
    BelowNext(e, u, v, top3, top2, low3, low2, w);
    NotFarAbove(e, u, v, top3, top2, low3, low2, w);
  }

  lemma {:induction false} BelowNext(e: nat, u: nat, v: nat, top3: nat, top2: nat, low3: nat, low2: nat, w: nat)
    requires IsEstimate(e, top3, top2)
    requires w > 0 && u == top3 * w + low3 && low3 < w && v == top2 * w + low2 && u < v * B
    ensures u < (e + 1) * v
  {
    if e < B - 1 {
      M.ProductMonotone(top3 + 1, (e + 1) * top2, w);
      M.PlusTimes(top3, 1, w);
      M.Assoc(e + 1, top2, w);
      Spread3(e + 1, top2 * w, low2, 0);
      M.ProductMonotone(0, e + 1, low2);
    }
  }

  lemma {:induction false} NotFarAbove(e: nat, u: nat, v: nat, top3: nat, top2: nat, low3: nat, low2: nat, w: nat)
    requires IsEstimate(e, top3, top2) && top2 >= B
    requires w > 0 && u == top3 * w + low3 && v == top2 * w + low2 && low2 < w
    ensures (e - 1) * v <= u
    ensures low2 == 0 ==> e * v <= u
  {
    M.ProductMonotone(e * top2, top3, w);
    M.Assoc(e, top2, w);
    Spread3(e, top2 * w, low2, 0);
    M.SubTimes(e, 1, v);
    M.ProductMonotone(low2, w, e);
    M.ProductMonotone(e, top2, w);
  }

  // ---------------------------------------------------------------- subtraction with an offset carry

  /** One limb of `dividend - estimate * divisor`, with the borrow kept as `2^64 - 1` less it: nothing
      wraps in 128 bits. */
  function OffsetStep(word: Word, divisor: Word, estimate: Word, offsetCarry: Word): (r: (Word, Word))
    ensures var sum := (B - 1) * B + word - (B - 1) + offsetCarry - divisor * estimate;
      0 <= sum < B * B && r.0 == sum % B && r.1 == sum / B && sum == r.1 * B + r.0
  {
    M.ProductBound(divisor, estimate);
    var sum := (B - 1) * B + word - (B - 1) + offsetCarry - divisor * estimate;
    (sum % B, sum / B)
  }

  /** The dividend's limbs from `j` on less the estimated multiple of the divisor; what is returned is
      the amount borrowed from above. */
  method SubtractMultiple(a: array<Word>, j: nat, divisor: seq<Word>, estimate: Word) returns (borrow: Word)
    requires j + |divisor| <= a.Length
    modifies a
    ensures forall i: nat :: i < a.Length && !(j <= i < j + |divisor|) ==> a[i] == old(a[i])
    ensures Value(a[j..j + |divisor|]) - borrow * Base(|divisor|)
      == Value(old(a[j..j + |divisor|])) - estimate * Value(divisor)
  {
    hide Value, Base, OffsetStep;
    ghost var n, before: seq<Word> := |divisor|, a[j..j + |divisor|];
    var offsetCarry: Word := B - 1;
    NoLimbs();
    assert a[j..j] == [] && before[..0] == [] && divisor[..0] == [];
    for i := 0 to |divisor|
      invariant forall k: nat :: k < a.Length && !(j <= k < j + i) ==> a[k] == old(a[k])
      invariant Value(a[j..j + i]) - (B - 1 - offsetCarry) * Base(i) == Value(before[..i]) - estimate * Value(divisor[..i])
    {
      assert a[j + i] == before[i];
      ghost var low: seq<Word> := a[j..j + i];
      ghost var was := offsetCarry;
      var (word, next) := OffsetStep(a[j + i], divisor[i], estimate, offsetCarry);
      OffsetMeans(a[j + i], divisor[i], estimate, offsetCarry);
      a[j + i], offsetCarry := word, next;
      assert a[j..j + (i + 1)] == low + [word];
      ValueSnoc(low, word);
      NextLimb(before, i);
      NextLimb(divisor, i);
      BaseNext(i);
      OffsetOver(Base(i), Value(low), Value(before[..i]), Value(divisor[..i]), estimate, word, before[i], divisor[i],
        B - 1 - was, B - 1 - next);
    }
    assert before[..|divisor|] == before && divisor[..|divisor|] == divisor;
    borrow := B - 1 - offsetCarry;
  }

  /** In terms of borrows: `word - borrow - divisor * estimate`. */
  lemma {:induction false} OffsetMeans(word: Word, divisor: Word, estimate: Word, offsetCarry: Word)
    ensures var r := OffsetStep(word, divisor, estimate, offsetCarry);
      r.0 - (B - 1 - r.1) * B == word - (B - 1 - offsetCarry) - divisor * estimate
  {
  }

  lemma {:induction false} OffsetOver(
    w: nat, low: int, before: int, v: int, e: int, word: int, b: int, d: int, borrow: int, next: int
  )
    requires low - borrow * w == before - e * v && word - next * B == b - borrow - d * e
    ensures low + w * word - next * (B * w) == before + w * b - e * (v + w * d)
  {
    assert w * (word - next * B) == w * (b - borrow - d * e);
    Spread3(w, word, -(next * B), 0);
    Spread3(w, b, -borrow, -(d * e));
    assert w * (-(next * B)) == -(next * (B * w));
    assert w * (-borrow) == -(borrow * w);
    assert w * (-(d * e)) == -(e * (w * d)) by { Rotate(w, d, e); }
    Spread3(e, v, w * d, 0);
  }

  lemma {:induction false} Rotate(w: int, d: int, e: int)
    ensures w * (-(d * e)) == -(e * (w * d))
  {
    M.Assoc(w, d, e);
  }

  /** Adds the divisor back onto the limbs from `j` on. */
  method AddBack(a: array<Word>, j: nat, divisor: seq<Word>) returns (carry: bool)
    requires j + |divisor| <= a.Length
    modifies a
    ensures forall i: nat :: i < a.Length && !(j <= i < j + |divisor|) ==> a[i] == old(a[i])
    ensures Value(a[j..j + |divisor|]) + (if carry then Base(|divisor|) else 0)
      == Value(old(a[j..j + |divisor|])) + Value(divisor)
  {
    hide Value, Base;
    ghost var before: seq<Word> := a[j..j + |divisor|];
    carry := false;
    NoLimbs();
    assert a[j..j] == [] && before[..0] == [] && divisor[..0] == [];
    for i := 0 to |divisor|
      invariant forall k: nat :: k < a.Length && !(j <= k < j + i) ==> a[k] == old(a[k])
      invariant Value(a[j..j + i]) + (if carry then Base(i) else 0) == Value(before[..i]) + Value(divisor[..i])
    {
      assert a[j + i] == before[i];
      ghost var low: seq<Word> := a[j..j + i];
      ghost var was := carry;
      var (word, next) := AddLimb(a[j + i], divisor[i], carry);
      CarryOver(Base(i), a[j + i], divisor[i], carry, word, next);
      a[j + i], carry := word, next;
      assert a[j..j + (i + 1)] == low + [word];
      ValueSnoc(low, word);
      NextLimb(before, i);
      NextLimb(divisor, i);
      BaseNext(i);
    }
    assert before[..|divisor|] == before && divisor[..|divisor|] == divisor;
  }

  // ---------------------------------------------------------------- one quotient digit

  /** A divisor whose top bit is set. */
  ghost predicate Normalized(divisor: seq<Word>) {
    |divisor| >= 2 && divisor[|divisor| - 1] >= B / 2
  }

  /** The window of the dividend with the limb above it. */
  ghost function Window(a: seq<Word>, extraHigh: Word, j: nat, n: nat): nat
    requires j + n <= |a|
  {
    Value(a[j..j + n]) + extraHigh * Base(n)
  }

  /** What an estimate of `u / v` may be: the digit, or one more, but not with a two-limb divisor. */
  ghost predicate IsClose(e: int, u: int, v: int, exact: bool) {
    u < (e + 1) * v && (e - 1) * v <= u && (exact ==> e * v <= u)
  }

  method EstimateWindow(a: array<Word>, j: nat, divisor: seq<Word>, extraHigh: Word) returns (estimate: Word)
    requires Normalized(divisor) && j + |divisor| <= a.Length
    requires Window(a[..], extraHigh, j, |divisor|) < Value(divisor) * B
    ensures IsClose(estimate, Window(a[..], extraHigh, j, |divisor|), Value(divisor), |divisor| == 2)
  {
    hide Value, Base, IsEstimate, IsClose;
    var n := |divisor|;
    ghost var window: seq<Word> := a[j..j + n];
    assert a[..][j..j + n] == window;
    TopLimb(window, divisor, extraHigh);
    estimate := EstimateDigit(extraHigh, a[j + n - 1], a[j + n - 2], divisor[n - 1], divisor[n - 2]);
    DigitIsClose(window, divisor, extraHigh, estimate);
  }

  /** Divides the window by the divisor in place: the digit is returned and the remainder left. With a
      two-limb divisor the divisor never has to be added back. */
  method DivideWindow(a: array<Word>, j: nat, divisor: seq<Word>, extraHigh: Word)
      returns (digit: Word, ghost addedBack: bool)
    requires Normalized(divisor) && j + |divisor| <= a.Length
    requires Window(a[..], extraHigh, j, |divisor|) < Value(divisor) * B
    modifies a
    ensures forall i: nat :: i < a.Length && !(j <= i < j + |divisor|) ==> a[i] == old(a[i])
    ensures Value(a[j..j + |divisor|]) < Value(divisor)
    ensures Window(old(a[..]), extraHigh, j, |divisor|) == digit * Value(divisor) + Value(a[j..j + |divisor|])
    ensures |divisor| == 2 ==> !addedBack
  {
    hide Value, Base, IsClose, Normalized;
    var n := |divisor|;
    ghost var u, v := Window(a[..], extraHigh, j, n), Value(divisor);
    ghost var window: seq<Word> := a[j..j + n];
    assert a[..][j..j + n] == window;
    var estimate := EstimateWindow(a, j, divisor, extraHigh);
    var borrow := SubtractMultiple(a, j, divisor, estimate);
    ValueBelow(a[j..j + n]);
    ValueBelow(divisor);
    CloseGap(estimate, u, v, n == 2);
    ghost var multiple: nat := estimate * v;
    ghost var gap: int := (u as int) - multiple;
    BorrowDecides(u, v, multiple, Value(window), Value(a[j..j + n]), extraHigh, borrow, Base(n));
    addedBack := borrow > extraHigh;
    digit := CorrectDigit(a, j, divisor, extraHigh, estimate, borrow, gap);
  }

  /** When the subtraction borrowed too much, one divisor goes back and the digit goes down. */
  method CorrectDigit(
    a: array<Word>, j: nat, divisor: seq<Word>, extraHigh: Word, estimate: Word, borrow: Word, ghost gap: int
  ) returns (digit: Word)
    requires j + |divisor| <= a.Length && 0 - Value(divisor) <= gap < Value(divisor)
    requires Value(a[j..j + |divisor|]) == if gap >= 0 then gap else gap + Base(|divisor|)
    requires (borrow > extraHigh <==> gap < 0) && (gap < 0 ==> estimate > 0)
    modifies a
    ensures forall i: nat :: i < a.Length && !(j <= i < j + |divisor|) ==> a[i] == old(a[i])
    ensures gap >= 0 ==> digit == estimate && Value(a[j..j + |divisor|]) == gap
    ensures gap < 0 ==> digit == estimate - 1 && Value(a[j..j + |divisor|]) == gap + Value(divisor)
  {
    hide Value, Base;
    digit := estimate;
    ValueBelow(divisor);
    if borrow > extraHigh {
      digit := estimate - 1;
      var carry := AddBack(a, j, divisor);
      ValueBelow(a[j..j + |divisor|]);
      assert carry;
    }
  }

  lemma {:induction false} TopLimb(window: seq<Word>, divisor: seq<Word>, extraHigh: Word)
    requires Normalized(divisor) && |window| == |divisor|
    requires Value(window) + extraHigh * Base(|divisor|) < Value(divisor) * B
    ensures extraHigh <= divisor[|divisor| - 1] && divisor[|divisor| - 1] > 0
  {
    var n := |divisor|;
    hide Value, Base;
    NextLimb(divisor, n - 1);
    assert divisor[..n] == divisor;
    ValueBelow(divisor[..n - 1]);
    BaseNext(n - 1);
    TopLimbOrder(Value(window), extraHigh, Base(n - 1), Value(divisor[..n - 1]), divisor[n - 1]);
  }

  lemma {:induction false} TopLimbOrder(x: nat, extraHigh: nat, w: nat, low: nat, top: nat)
    requires low < w && x + extraHigh * (B * w) < (low + w * top) * B
    ensures extraHigh <= top
  {
    if extraHigh >= top + 1 {
      M.ProductMonotone(top + 1, extraHigh, B * w);
      M.PlusTimes(top, 1, B * w);
      M.PlusTimes(low, w * top, B);
      M.Reorder(w, top, B);
    }
  }

  /** The top three limbs of a window, with the limb above. */
  ghost function TopThree(window: seq<Word>, extraHigh: nat): nat
    requires |window| >= 2
  {
    (extraHigh * B + window[|window| - 1]) * B + window[|window| - 2]
  }

  lemma {:induction false} SplitTop(window: seq<Word>, extraHigh: nat)
    requires |window| >= 2
    ensures var m := |window| - 2;
      && Value(window[..m]) < Base(m) && (m == 0 ==> Value(window[..m]) == 0)
      && Value(window) + extraHigh * Base(|window|) == TopThree(window, extraHigh) * Base(m) + Value(window[..m])
  {
    var m: nat := |window| - 2;
    TopTwo(window);
    ValueBelow(window[..m]);
    BaseNext(m);
    BaseNext(m + 1);
    assert Base(m + 2) == B * (B * Base(m));
    hide Value, Base;
    FourFactors(extraHigh, Base(m));
    Collect(extraHigh, window[m + 1], window[m], Base(m));
  }

  /** The estimate of a window is its quotient digit or one more, and exact for a two-limb divisor. */
  lemma {:induction false} DigitIsClose(window: seq<Word>, divisor: seq<Word>, extraHigh: Word, e: Word)
    requires Normalized(divisor) && |window| == |divisor|
    requires IsEstimate(e, TopThree(window, extraHigh), divisor[|divisor| - 1] * B + divisor[|divisor| - 2])
    requires Value(window) + extraHigh * Base(|divisor|) < Value(divisor) * B
    ensures IsClose(e, Value(window) + extraHigh * Base(|divisor|), Value(divisor), |divisor| == 2)
  {
    hide Value, Base, IsEstimate;
    var m: nat := |divisor| - 2;
    SplitTop(window, extraHigh);
    SplitTop(divisor, 0);
    assert TopThree(divisor, 0) == divisor[m + 1] * B + divisor[m];
    assert TopThree(divisor, 0) >= B;
    hide TopThree;
    EstimateIsClose(e, Value(window) + extraHigh * Base(m + 2), Value(divisor), TopThree(window, extraHigh),
      TopThree(divisor, 0), Value(window[..m]), Value(divisor[..m]), Base(m));
  }

  lemma {:induction false} FourFactors(x: int, w: int)
    ensures x * (B * (B * w)) == x * B * B * w
  {
  }

  lemma {:induction false} Collect(x: int, y: int, z: int, w: int)
    ensures ((x * B + y) * B + z) * w == x * B * B * w + w * B * y + w * z
  {
  }

  lemma {:induction false} TopTwo(a: seq<Word>)
    requires |a| >= 2
    ensures var m := |a| - 2; Value(a) == Value(a[..m]) + Base(m) * B * a[m + 1] + Base(m) * a[m]
  {
    var m := |a| - 2;
    NextLimb(a, m);
    NextLimb(a, m + 1);
    assert a[..m + 2] == a;
    BaseNext(m);
  }

  /** Without a borrow beyond the limb above, the digit is exact; otherwise one too large. */
  lemma {:induction false} BorrowDecides(
    u: nat, v: nat, ev: nat, before: nat, after: nat, extraHigh: nat, borrow: nat, w: nat
  )
    requires u == before + extraHigh * w && after - borrow * w == before - ev && after < w
    requires 0 - v <= u - ev < v <= w
    ensures u >= ev ==> borrow == extraHigh && after == u - ev
    ensures u < ev ==> borrow == extraHigh + 1 && after == u - ev + w
  {
    assert u - ev == after + (extraHigh - borrow) * w by { M.SubTimes(extraHigh, borrow, w); }
    SmallGap(u - ev, v, after, extraHigh - borrow, w);
  }

  lemma {:induction false} CloseGap(e: nat, u: nat, v: nat, exact: bool)
    requires IsClose(e, u, v, exact)
    ensures 0 <= e * v && 0 - v <= u - e * v < v && (exact ==> u >= e * v)
    ensures (e - 1) * v == e * v - v && (u < e * v ==> e > 0)
  {
    M.PlusTimes(e, 1, v);
    M.SubTimes(e, 1, v);
    M.ProductMonotone(0, e, v);
  }

  lemma {:induction false} SmallGap(r: int, v: nat, after: nat, gap: int, w: nat)
    requires 0 - v <= r < v <= w && r == after + gap * w && after < w
    ensures r >= 0 ==> gap == 0 && after == r
    ensures r < 0 ==> gap == -1 && after == r + w
  {
    if gap >= 1 { M.ProductMonotone(1, gap, w); }
    if gap <= -2 { M.ProductMonotone(2, -gap, w); M.NegTimes(gap, w); }
    assert gap == 0 ==> gap * w == 0;
    assert gap == -1 ==> gap * w == 0 - w;
  }

  // ---------------------------------------------------------------- the division

  /** The number of limbs up to the highest nonzero one. */
  method SignificantLimbs(limbs: seq<Word>) returns (n: nat)
    ensures n <= |limbs| && Value(limbs[..n]) == Value(limbs) && (n > 0 ==> limbs[n - 1] != 0)
    ensures forall i: nat :: n <= i < |limbs| ==> limbs[i] == 0
  {
    hide Value, Base;
    n := |limbs|;
    assert limbs[..n] == limbs;
    while n > 0 && limbs[n - 1] == 0
      invariant 0 <= n <= |limbs| && Value(limbs[..n]) == Value(limbs)
      invariant forall i: nat :: n <= i < |limbs| ==> limbs[i] == 0
    {
      NextLimb(limbs, n - 1);
      n := n - 1;
    }
  }

  /** The remainder so far: three limbs of the dividend and the one above them. */
  ghost function Rest(a: seq<Word>, extraHigh: Word, j: nat): nat
    requires j + 3 <= |a|
  {
    Value(a[j..j + 3]) + extraHigh * Base(3)
  }

  /** The limbs from `j` on are divided: their remainder is below the divisor and their digits found. */
  ghost predicate Divided(original: nat, a: seq<Word>, extraHigh: Word, quotient: seq<Word>, j: nat, v: nat) {
    && j + 3 <= |a| && j <= |quotient| && Rest(a, extraHigh, j) < v
    && original == Value(a[..j]) + Base(j) * (Rest(a, extraHigh, j) + Value(quotient[j..]) * v)
  }

  /** Quotient and remainder by a normalized four-limb divisor. */
  method DivRem(dividend: seq<Word>, divisor: seq<Word>) returns (quotient: seq<Word>, remainder: seq<Word>)
    requires |dividend| >= 4 && |divisor| == 4 && Normalized(divisor)
    ensures |quotient| == |dividend| && |remainder| == 4 && Value(remainder) < Value(divisor)
    ensures Value(dividend) == Value(quotient) * Value(divisor) + Value(remainder)
  {
    hide Value, Base, Normalized, Divided;
    var len := SignificantLimbs(dividend);
    quotient := seq(|dividend|, _ => 0);
    ZeroLimbs(|dividend|);
    if len <= 4 {
      remainder := dividend[..4];
      ShortDividend(dividend, len);
      var less := LessThan(remainder, divisor);
      if less { return; }
      LongEnough(dividend, len, divisor);
    }
    var a := new Word[|dividend|](i requires 0 <= i < |dividend| => dividend[i]);
    assert a[..] == dividend;
    var extraHigh: Word := 0;
    var j: nat := len - 3;
    StartDivided(dividend, divisor, len);
    while j > 0
      invariant j <= len - 3 && a.Length == |dividend| == |quotient|
      invariant Divided(Value(dividend), a[..], extraHigh, quotient, j, Value(divisor))
    {
      j := j - 1;
      ghost var before: seq<Word> := a[..];
      WindowSmall(Value(dividend), before, extraHigh, quotient, j, divisor);
      var digit, _ := DivideWindow(a, j, divisor, extraHigh);
      NextDivided(Value(dividend), before, a[..], extraHigh, quotient, digit, j, divisor);
      quotient := quotient[j := digit];
      extraHigh := a[j + 3];
    }
    remainder := [a[0], a[1], a[2], extraHigh];
    assert a[..][0..3] == [a[0], a[1], a[2]];
    EndDivided(Value(dividend), a[..], extraHigh, quotient, Value(divisor));
  }

  lemma {:induction false} ZeroLimbs(n: nat)
    ensures Value(seq(n, _ => 0)) == 0
  {
    if n > 0 {
      ZeroLimbs(n - 1);
      assert seq(n, _ => 0)[1..] == seq(n - 1, _ => 0 as Word);
    }
  }

  lemma {:induction false} ShortDividend(dividend: seq<Word>, len: nat)
    requires |dividend| >= 4 && len <= 4 && Value(dividend[..len]) == Value(dividend)
    requires forall i: nat :: len <= i < |dividend| ==> dividend[i] == 0
    ensures Value(dividend[..4]) == Value(dividend)
    decreases 4 - len
  {
    hide Value, Base;
    if len < 4 {
      NextLimb(dividend, len);
      ShortDividend(dividend, len + 1);
    }
  }

  lemma {:induction false} NormalizedSize(divisor: seq<Word>)
    requires Normalized(divisor) && |divisor| == 4
    ensures Base(3) <= Value(divisor) && Base(4) == B * Base(3)
  {
    hide Value, Base;
    NextLimb(divisor, 3);
    assert divisor[..4] == divisor;
    BaseNext(3);
    M.ProductMonotone(1, divisor[3], Base(3));
  }

  /** A dividend not below the divisor has at least four limbs. */
  lemma {:induction false} LongEnough(dividend: seq<Word>, len: nat, divisor: seq<Word>)
    requires Normalized(divisor) && |divisor| == 4 && len <= |dividend| && Value(dividend[..len]) == Value(dividend)
    requires Value(dividend) >= Value(divisor)
    ensures len >= 4
  {
    NormalizedSize(divisor);
    hide Value, Base;
    ValueBelow(dividend[..len]);
    if len <= 3 { BaseMonotone(len, 3); }
  }

  lemma {:induction false} BaseMonotone(m: nat, n: nat)
    requires m <= n
    ensures Base(m) <= Base(n)
    decreases n
  {
    if m < n { BaseMonotone(m, n - 1); }
  }

  lemma {:induction false} StartDivided(dividend: seq<Word>, divisor: seq<Word>, len: nat)
    requires Normalized(divisor) && |divisor| == 4 && 4 <= len <= |dividend| && Value(dividend[..len]) == Value(dividend)
    ensures Divided(Value(dividend), dividend, 0, seq(|dividend|, _ => 0), len - 3, Value(divisor))
  {
    NormalizedSize(divisor);
    hide Value, Base;
    var j: nat := len - 3;
    var zeros: seq<Word> := seq(|dividend|, _ => 0);
    assert zeros[j..] == seq(|dividend| - j, _ => 0);
    ZeroLimbs(|dividend| - j);
    assert dividend[..len] == dividend[..j] + dividend[j..j + 3];
    ValueConcat(dividend[..j], dividend[j..j + 3]);
    ValueBelow(dividend[j..j + 3]);
  }

  /** One more limb below the remainder makes a window under the divisor's next multiple. */
  lemma {:induction false} WindowIs(a: seq<Word>, extraHigh: Word, j: nat)
    requires j + 4 <= |a|
    ensures Window(a, extraHigh, j, 4) == a[j] + B * Rest(a, extraHigh, j + 1)
  {
    assert a[j..j + 4][1..] == a[j + 1..j + 4];
    assert Value(a[j..j + 4]) == a[j] + B * Value(a[j + 1..j + 4]);
    BaseNext(3);
    hide Value, Base;
    M.Reorder(extraHigh, B, Base(3));
  }

  lemma {:induction false} WindowSmall(
    original: nat, a: seq<Word>, extraHigh: Word, quotient: seq<Word>, j: nat, divisor: seq<Word>
  )
    requires Divided(original, a, extraHigh, quotient, j + 1, Value(divisor))
    ensures j + 4 <= |a| && Window(a, extraHigh, j, 4) < Value(divisor) * B
  {
    hide Value, Base;
    WindowIs(a, extraHigh, j);
    hide Window, Rest;
    M.ProductMonotone(Rest(a, extraHigh, j + 1) + 1, Value(divisor), B);
  }

  lemma {:induction false} NextDivided(
    original: nat, before: seq<Word>, after: seq<Word>, extraHigh: Word, quotient: seq<Word>, digit: Word, j: nat,
    divisor: seq<Word>
  )
    requires Divided(original, before, extraHigh, quotient, j + 1, Value(divisor)) && |after| == |before|
    requires forall i: nat :: i < |after| && !(j <= i < j + 4) ==> after[i] == before[i]
    requires Value(after[j..j + 4]) < Value(divisor)
    requires Window(before, extraHigh, j, 4) == digit * Value(divisor) + Value(after[j..j + 4])
    ensures Divided(original, after, after[j + 3], quotient[j := digit], j, Value(divisor))
  {
    var next, q := quotient[j := digit], Value(quotient[j + 1..]);
    assert next[j..] == [digit] + quotient[j + 1..];
    assert Value(next[j..]) == digit + B * q by { assert next[j..][1..] == quotient[j + 1..]; }
    assert before[..j] == after[..j];
    WindowIs(before, extraHigh, j);
    NextLimb(before, j);
    BaseNext(j);
    hide Value, Base;
    NextRest(after, j);
    Regrouped(original, Value(before[..j]), Base(j), before[j], Rest(before, extraHigh, j + 1), q, Value(divisor), digit,
      Value(after[j..j + 4]));
  }

  lemma {:induction false} NextRest(a: seq<Word>, j: nat)
    requires j + 4 <= |a|
    ensures Rest(a, a[j + 3], j) == Value(a[j..j + 4])
  {
    hide Value, Base;
    NextLimb(a[j..j + 4], 3);
    assert a[j..j + 4][..4] == a[j..j + 4] && a[j..j + 4][..3] == a[j..j + 3];
  }

  lemma {:induction false} Regrouped(
    original: int, low: int, w: int, limb: int, rest: int, q: int, v: int, digit: int, r: int
  )
    requires original == low + w * limb + B * w * (rest + q * v) && limb + B * rest == digit * v + r
    ensures original == low + w * (r + (digit + B * q) * v)
  {
    assert (digit + B * q) * v == digit * v + B * (q * v) by { M.PlusTimes(digit, B * q, v); M.Assoc(B, q, v); }
    assert B * w * (rest + q * v) == w * (B * rest + B * (q * v)) by { Scaled(w, rest + q * v); }
    Spread3(w, limb, B * rest + B * (q * v), 0);
  }

  lemma {:induction false} Scaled(w: int, x: int)
    ensures B * w * x == w * (B * x)
  {
  }

  lemma {:induction false} EndDivided(original: nat, a: seq<Word>, extraHigh: Word, quotient: seq<Word>, v: nat)
    requires Divided(original, a, extraHigh, quotient, 0, v)
    ensures |a| >= 3
    ensures var remainder := [a[0], a[1], a[2], extraHigh];
      Value(remainder) < v && original == Value(quotient) * v + Value(remainder)
  {
    var remainder := [a[0], a[1], a[2], extraHigh];
    assert a[0..3] == remainder[..3];
    NextLimb(remainder, 3);
    assert remainder[..4] == remainder && quotient[0..] == quotient;
    assert Value(a[..0]) == 0 && Base(0) == 1;
    hide Value, Base;
  }
}
