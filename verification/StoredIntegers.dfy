/** Signed integers in two's-complement limbs and their residues modulo a runtime modulus. */
module StoredIntegers {
  import M = Montgomery
  import opened Limbs
  import opened KnuthDivision

  // ---------------------------------------------------------------- two's complement

  predicate Negative(words: seq<Word>) {
    |words| > 0 && words[|words| - 1] >= B / 2
  }

  /** The signed value of two's-complement limbs; no limbs are zero. */
  function Signed(words: seq<Word>): int {
    Value(words) - if Negative(words) then Base(|words|) else 0
  }

  /** No redundant sign limb, and zero has no limbs. */
  predicate Canonical(words: seq<Word>) {
    if |words| == 0 then true
    else if |words| == 1 then words[0] != 0
    else !Redundant(words[|words| - 1], words[|words| - 2])
  }

  /** A top limb that only repeats the sign of the one below. */
  predicate Redundant(top: Word, next: Word) {
    (top == 0 && next < B / 2) || (top == B - 1 && next >= B / 2)
  }

  lemma {:induction false} DropTop(words: seq<Word>)
    requires |words| >= 2 && Redundant(words[|words| - 1], words[|words| - 2])
    ensures Signed(words[..|words| - 1]) == Signed(words)
  {
    hide Value, Base;
    var n: nat := |words| - 1;
    NextLimb(words, n);
    assert words[..n + 1] == words;
    BaseNext(n);
    M.SubTimes(B, 1, Base(n));
  }

  /** Drops the redundant sign limbs of a fixed-width integer, keeping its value. */
  method FromInteger(value: seq<Word>) returns (words: seq<Word>)
    requires |value| > 0
    ensures Signed(words) == Signed(value) && Canonical(words)
  {
    hide Signed, Value, Base;
    var zero := IsZero(value);
    if zero {
      ZeroSigned(value);
      return [];
    }
    var len: nat := |value|;
    assert value[..len] == value;
    while len > 1 && Redundant(value[len - 1], value[len - 2])
      invariant 1 <= len <= |value| && Signed(value[..len]) == Signed(value)
    {
      DropTop(value[..len]);
      assert value[..len][..len - 1] == value[..len - 1];
      len := len - 1;
    }
    words := value[..len];
    NonzeroSigned(value);
    if len == 1 && words[0] == 0 { ZeroSigned(words); }
  }

  method IsZero(value: seq<Word>) returns (zero: bool)
    ensures zero <==> forall i: nat :: i < |value| ==> value[i] == 0
  {
    for i := 0 to |value|
      invariant forall k: nat :: k < i ==> value[k] == 0
    {
      if value[i] != 0 { return false; }
    }
    return true;
  }

  lemma {:induction false} ZeroSigned(words: seq<Word>)
    requires forall i: nat :: i < |words| ==> words[i] == 0
    ensures Signed(words) == 0 && Signed([]) == 0
  {
    ZeroValue(words);
  }

  lemma {:induction false} ZeroValue(words: seq<Word>)
    ensures Value(words) == 0 <==> forall i: nat :: i < |words| ==> words[i] == 0
  {
    if |words| > 0 {
      ZeroValue(words[1..]);
      assert words == [words[0]] + words[1..];
    }
  }

  lemma {:induction false} NonzeroSigned(words: seq<Word>)
    ensures Signed(words) == 0 <==> forall i: nat :: i < |words| ==> words[i] == 0
  {
    ValueBelow(words);
    ZeroValue(words);
    hide Value, Base;
  }

  /** Canonical limbs are determined by the value they stand for. */
  lemma {:induction false} CanonicalUnique(a: seq<Word>, b: seq<Word>)
    requires Canonical(a) && Canonical(b) && Signed(a) == Signed(b)
    ensures a == b
  {
    hide Value, Base;
    if |a| < |b| { LongerDiffers(a, b); }
    else if |b| < |a| { LongerDiffers(b, a); }
    else {
      ValueBelow(a);
      ValueBelow(b);
      SameLength(a, b);
    }
  }

  lemma {:induction false} SameLength(a: seq<Word>, b: seq<Word>)
    requires |a| == |b| && Signed(a) == Signed(b) && Value(a) < Base(|a|) && Value(b) < Base(|b|)
    ensures a == b
  {
    ValueDetermines(a, b) by { hide Value, Base; }
  }

  /** `n` limbs hold the signed values between half of `B^n` below and above zero. */
  lemma {:induction false} SignedRange(a: seq<Word>)
    requires |a| > 0
    ensures 0 - Base(|a|) <= 2 * Signed(a) < Base(|a|)
  {
    hide Value, Base;
    var n: nat := |a| - 1;
    NextLimb(a, n);
    assert a[..n + 1] == a;
    ValueBelow(a[..n]);
    BaseNext(n);
    HalfTop(Base(n), a[n], Value(a[..n]));
  }

  lemma {:induction false} HalfTop(w: nat, top: Word, low: nat)
    requires low < w
    ensures top >= B / 2 ==> 2 * (low + w * top) >= B * w
    ensures top < B / 2 ==> 2 * (low + w * top) < B * w
    ensures low + w * top < B * w
  {
    if top >= B / 2 { M.ProductMonotone(B / 2, top, w); } else { M.ProductMonotone(top + 1, B / 2, w); M.PlusTimes(top, 1, w); }
    M.ProductMonotone(top + 1, B, w);
    M.PlusTimes(top, 1, w);
  }

  /** Canonical limbs longer than `n` hold a value that `n` limbs cannot. */
  lemma {:induction false} CanonicalLarge(b: seq<Word>, n: nat)
    requires Canonical(b) && |b| > n > 0
    ensures !(0 - Base(n) <= 2 * Signed(b) < Base(n))
  {
    hide Value, Base;
    var k: nat := |b| - 1;
    var j: nat := k - 1;
    assert b[..k + 1] == b && b[..j + 1] == b[..k];
    NextLimb(b, k);
    NextLimb(b, j);
    ValueBelow(b[..j]);
    BaseNext(k);
    BaseNext(j);
    BaseMonotone(n, k);
    LargeTop(Base(j), Value(b[..j]), b[j], b[k]);
  }

  lemma {:induction false} LargeTop(w: nat, low: nat, next: Word, top: Word)
    requires low < w && !Redundant(top, next)
    ensures var v := low + w * next + B * w * top;
      if top >= B / 2 then 2 * (v - B * (B * w)) < 0 - B * w else 2 * v >= B * w
  {
    var u := low + w * next;
    HalfTop(w, next, low);
    if top >= B / 2 {
      if top < B - 1 { M.ProductMonotone(top, B - 2, B * w); M.SubTimes(B, 2, B * w); }
      else { M.SubTimes(B, 1, B * w); }
    } else if top > 0 {
      M.ProductMonotone(1, top, B * w);
    }
  }

  lemma {:induction false} LongerDiffers(a: seq<Word>, b: seq<Word>)
    requires Canonical(a) && Canonical(b) && |a| < |b|
    ensures Signed(a) != Signed(b)
  {
    hide Value, Base;
    if |a| == 0 {
      NonzeroSigned(b);
      ZeroSigned(a);
      CanonicalNonzero(b);
    } else {
      SignedRange(a);
      CanonicalLarge(b, |a|);
    }
  }

  lemma {:induction false} CanonicalNonzero(b: seq<Word>)
    requires Canonical(b) && |b| > 0
    ensures !(forall i: nat :: i < |b| ==> b[i] == 0)
  {
    if |b| >= 2 { assert b[|b| - 1] != 0 || b[|b| - 2] != 0; }
  }
}
