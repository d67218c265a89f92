/** Little-endian limbs of 64 bits, and the carry chains over them. */
module Limbs {
  import M = Montgomery

  const B: nat := 0x1_0000_0000_0000_0000

  type Word = x: nat | x < 0x1_0000_0000_0000_0000

  /** `B^n`. */
  function Base(n: nat): (r: nat)
    ensures r > 0
  {
    if n == 0 then 1 else B * Base(n - 1)
  }

  lemma {:induction false} BaseSum(m: nat, n: nat)
    ensures Base(m + n) == Base(m) * Base(n)
  {
    if m > 0 {
      BaseSum(m - 1, n);
      M.Assoc(B, Base(m - 1), Base(n));
    }
  }

  function Value(limbs: seq<Word>): nat {
    if |limbs| == 0 then 0 else limbs[0] + B * Value(limbs[1..])
  }

  lemma {:induction false} ValueBelow(limbs: seq<Word>)
    ensures Value(limbs) < Base(|limbs|)
  {
    if |limbs| > 0 { ValueBelow(limbs[1..]); }
  }

  lemma {:induction false} ValueConcat(low: seq<Word>, high: seq<Word>)
    ensures Value(low + high) == Value(low) + Base(|low|) * Value(high)
    decreases |low|
  {
    if |low| == 0 {
      assert low + high == high;
    } else {
      ValueConcat(low[1..], high);
      assert (low + high)[1..] == low[1..] + high;
      M.Assoc(B, Base(|low| - 1), Value(high));
    }
  }

  /** A top limb weighs `B^n`. */
  lemma {:induction false} ValueSnoc(low: seq<Word>, top: Word)
    ensures Value(low + [top]) == Value(low) + Base(|low|) * top
  {
    ValueConcat(low, [top]);
    assert [top][1..] == [];
    assert Value([top]) == top;
  }

  lemma {:induction false} ValueDetermines(a: seq<Word>, b: seq<Word>)
    requires |a| == |b| && Value(a) == Value(b)
    ensures a == b
  {
    if |a| > 0 {
      assert a[0] == b[0] && Value(a[1..]) == Value(b[1..]) by {
        M.ModUnique(Value(a), Value(a[1..]), a[0], B);
        M.ModUnique(Value(b), Value(b[1..]), b[0], B);
      }
      ValueDetermines(a[1..], b[1..]);
      assert a == [a[0]] + a[1..] && b == [b[0]] + b[1..];
    }
  }

  // ---------------------------------------------------------------- carries and borrows

  /** `a + b + carry` on one limb: the wrapped sum and the next carry. */
  function AddLimb(a: Word, b: Word, carry: bool): (r: (Word, bool))
    ensures r.0 + (if r.1 then B else 0) == a + b + (if carry then 1 else 0)
  {
    var (sum, first) := if a + b < B then (a + b, false) else (a + b - B, true);
    var c := if carry then 1 else 0;
    var (sum', second) := if sum + c < B then (sum + c, false) else (sum + c - B, true);
    (sum', first || second)
  }

  function SubLimb(a: Word, b: Word, borrow: bool): (r: (Word, bool))
    ensures r.0 - (if r.1 then B else 0) == a - b - (if borrow then 1 else 0)
  {
    var (diff, first) := if a >= b then (a - b, false) else (a - b + B, true);
    var c := if borrow then 1 else 0;
    var (diff', second) := if diff >= c then (diff - c, false) else (diff - c + B, true);
    (diff', first || second)
  }

  /** The sum of equally long limbs and the final carry. */
  method AddWords(a: seq<Word>, b: seq<Word>) returns (sum: seq<Word>, carry: bool)
    requires |a| == |b|
    ensures |sum| == |a| && Value(sum) + (if carry then Base(|a|) else 0) == Value(a) + Value(b)
  {
    hide Value, Base;
    sum, carry := [], false;
    NoLimbs();
    for i := 0 to |a|
      invariant |sum| == i
      invariant Value(sum) + (if carry then Base(i) else 0) == Value(a[..i]) + Value(b[..i])
    {
      var (word, next) := AddLimb(a[i], b[i], carry);
      NextLimb(a, i);
      NextLimb(b, i);
      ValueSnoc(sum, word);
      CarryOver(Base(i), a[i], b[i], carry, word, next);
      sum, carry := sum + [word], next;
      BaseNext(i);
    }
    assert a[..|a|] == a && b[..|b|] == b;
  }

  method SubtractWords(a: seq<Word>, b: seq<Word>) returns (difference: seq<Word>, borrow: bool)
    requires |a| == |b|
    ensures |difference| == |a| && Value(difference) - (if borrow then Base(|a|) else 0) == Value(a) - Value(b)
  {
    hide Value, Base;
    difference, borrow := [], false;
    NoLimbs();
    for i := 0 to |a|
      invariant |difference| == i
      invariant Value(difference) - (if borrow then Base(i) else 0) == Value(a[..i]) - Value(b[..i])
    {
      var (word, next) := SubLimb(a[i], b[i], borrow);
      NextLimb(a, i);
      NextLimb(b, i);
      ValueSnoc(difference, word);
      BorrowOver(Base(i), a[i], b[i], borrow, word, next);
      difference, borrow := difference + [word], next;
      BaseNext(i);
    }
    assert a[..|a|] == a && b[..|b|] == b;
  }

  lemma {:induction false} NoLimbs()
    ensures Value([]) == 0 && Base(0) == 1
  {
  }

  lemma {:induction false} BaseNext(i: nat)
    ensures Base(i + 1) == B * Base(i)
  {
  }

  lemma {:induction false} NextLimb(a: seq<Word>, i: nat)
    requires i < |a|
    ensures Value(a[..i + 1]) == Value(a[..i]) + Base(i) * a[i]
  {
    assert a[..i + 1] == a[..i] + [a[i]];
    ValueSnoc(a[..i], a[i]);
  }

  lemma {:induction false} CarryOver(w: nat, a: int, b: int, carry: bool, word: int, next: bool)
    requires word + (if next then B else 0) == a + b + (if carry then 1 else 0)
    ensures w * word + (if next then B * w else 0) == w * a + w * b + (if carry then w else 0)
  {
    var c, n := if carry then 1 else 0, if next then 1 else 0;
    assert w * (word + B * n) == w * (a + b + c);
    Spread3(w, a, b, c);
    Spread3(w, word, B * n, 0);
    assert w * (B * n) == if next then B * w else 0;
  }

  lemma {:induction false} BorrowOver(w: nat, a: int, b: int, borrow: bool, word: int, next: bool)
    requires word - (if next then B else 0) == a - b - (if borrow then 1 else 0)
    ensures w * word - (if next then B * w else 0) == w * a - w * b - (if borrow then w else 0)
  {
    var c, n := if borrow then 1 else 0, if next then 1 else 0;
    assert w * (word - B * n) == w * (a - b - c);
    Spread3(w, a, -b, -c);
    Spread3(w, word, -(B * n), 0);
    assert w * (-b) == -(w * b) && w * (-c) == -(if borrow then w else 0);
    assert w * (-(B * n)) == -(if next then B * w else 0);
  }

  lemma {:induction false} Spread3(w: int, a: int, b: int, c: int)
    ensures w * (a + b + c) == w * a + w * b + w * c
  {
  }

  /** Comparison from the top limb down. */
  method LessThan(a: seq<Word>, b: seq<Word>) returns (less: bool)
    requires |a| == |b|
    ensures less <==> Value(a) < Value(b)
  {
    hide Value, Base;
    var i := |a|;
    while i > 0
      invariant 0 <= i <= |a| && a[i..] == b[i..]
    {
      i := i - 1;
      if a[i] != b[i] {
        TopDecides(a, b, i);
        return a[i] < b[i];
      }
      assert a[i..] == [a[i]] + a[i + 1..] && b[i..] == [b[i]] + b[i + 1..];
    }
    assert a[0..] == a && b[0..] == b;
    return false;
  }

  /** The highest limb in which two values differ decides their order. */
  lemma {:induction false} TopDecides(a: seq<Word>, b: seq<Word>, i: nat)
    requires |a| == |b| && i < |a| && a[i + 1..] == b[i + 1..] && a[i] != b[i]
    ensures a[i] < b[i] <==> Value(a) < Value(b)
  {
    hide Value, Base;
    assert a == a[..i + 1] + a[i + 1..] && b == b[..i + 1] + b[i + 1..];
    ValueConcat(a[..i + 1], a[i + 1..]);
    ValueConcat(b[..i + 1], b[i + 1..]);
    NextLimb(a, i);
    NextLimb(b, i);
    ValueBelow(a[..i]);
    ValueBelow(b[..i]);
    TopOrder(Base(i), Value(a[..i]), Value(b[..i]), a[i], b[i]);
  }

  lemma {:induction false} TopOrder(w: nat, x: nat, y: nat, a: nat, b: nat)
    requires x < w && y < w && a != b
    ensures a < b <==> x + w * a < y + w * b
  {
    if a < b { M.ProductMonotone(a + 1, b, w); M.PlusTimes(a, 1, w); }
    else { M.ProductMonotone(b + 1, a, w); M.PlusTimes(b, 1, w); }
  }
}
