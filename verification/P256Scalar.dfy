/** Windowed joint scalar multiplication in the circuit, over a curve whose points form a group. */
module P256Scalar {
  import opened Powers
  import opened Assignments
  import opened Residue
  import opened P256Field
  import opened P256Gadgets
  import opened P256Curve

  // ---------------------------------------------------------------- the group

  ghost predicate Closed(p: nat, b: int, s: Affine, t: Affine)
    requires p >= 2
  {
    OnCurve(p, b, s) && OnCurve(p, b, t) ==> OnCurve(p, b, EcAdd(p, s, t))
  }

  ghost predicate Commutes(p: nat, b: int, s: Affine, t: Affine)
    requires p >= 2
  {
    OnCurve(p, b, s) && OnCurve(p, b, t) ==> EcAdd(p, s, t) == EcAdd(p, t, s)
  }

  ghost predicate Associates(p: nat, b: int, s: Affine, t: Affine, u: Affine)
    requires p >= 2
  {
    OnCurve(p, b, s) && OnCurve(p, b, t) && OnCurve(p, b, u) ==>
      EcAdd(p, EcAdd(p, s, t), u) == EcAdd(p, s, EcAdd(p, t, u))
  }

  ghost predicate NoTwoTorsion(p: nat, b: int, s: Affine) {
    OnCurve(p, b, s) && s.Finite? ==> !Eq(2 * s.y, 0, p)
  }

  /** The hypothesis on the curve: its points are an abelian group under the sum, none of order two. */
  ghost predicate CurveGroup(p: nat, b: int) {
    && p >= 2
    && (forall s, t :: Closed(p, b, s, t))
    && (forall s, t :: Commutes(p, b, s, t))
    && (forall s, t, u :: Associates(p, b, s, t, u))
    && (forall s :: NoTwoTorsion(p, b, s))
  }

  ghost function Multiple(p: nat, n: nat, s: Affine): Affine
    requires p >= 2
  {
    if n == 0 then Infinity else EcAdd(p, Multiple(p, n - 1, s), s)
  }

  lemma {:induction false} MultipleOnCurve(p: nat, b: int, n: nat, s: Affine)
    requires CurveGroup(p, b) && OnCurve(p, b, s)
    ensures OnCurve(p, b, Multiple(p, n, s))
  {
    hide OnCurve, EcAdd;
    if n == 0 {
      InfinityOnCurve(p, b);
    } else {
      MultipleOnCurve(p, b, n - 1, s);
      assert Closed(p, b, Multiple(p, n - 1, s), s);
    }
  }

  lemma {:induction false} InfinityOnCurve(p: nat, b: int)
    ensures OnCurve(p, b, Infinity)
  {
  }

  lemma {:induction false} AddInfinity(p: nat, s: Affine)
    requires p >= 2
    ensures EcAdd(p, s, Infinity) == s && EcAdd(p, Infinity, s) == s
  {
  }

  lemma {:induction false} MultipleSum(p: nat, b: int, m: nat, n: nat, s: Affine)
    requires CurveGroup(p, b) && OnCurve(p, b, s)
    ensures Multiple(p, m + n, s) == EcAdd(p, Multiple(p, m, s), Multiple(p, n, s))
    decreases n
  {
    hide OnCurve, EcAdd;
    if n == 0 {
      AddInfinity(p, Multiple(p, m, s));
    } else {
      MultipleSum(p, b, m, n - 1, s);
      MultipleOnCurve(p, b, m, s);
      MultipleOnCurve(p, b, n - 1, s);
      assert Associates(p, b, Multiple(p, m, s), Multiple(p, n - 1, s), s);
    }
  }

  /** `m G + n Q`. */
  ghost function Comb(p: nat, m: nat, g: Affine, n: nat, q: Affine): Affine
    requires p >= 2
  {
    EcAdd(p, Multiple(p, m, g), Multiple(p, n, q))
  }

  lemma {:induction false} CombOnCurve(p: nat, b: int, m: nat, g: Affine, n: nat, q: Affine)
    requires CurveGroup(p, b) && OnCurve(p, b, g) && OnCurve(p, b, q)
    ensures OnCurve(p, b, Comb(p, m, g, n, q))
  {
    hide OnCurve, EcAdd, Multiple;
    MultipleOnCurve(p, b, m, g);
    MultipleOnCurve(p, b, n, q);
    assert Closed(p, b, Multiple(p, m, g), Multiple(p, n, q));
  }

  /** Sums of combinations add the multipliers. */
  lemma {:induction false} CombSum(p: nat, b: int, m: nat, n: nat, m': nat, n': nat, g: Affine, q: Affine)
    requires CurveGroup(p, b) && OnCurve(p, b, g) && OnCurve(p, b, q)
    ensures EcAdd(p, Comb(p, m, g, n, q), Comb(p, m', g, n', q)) == Comb(p, m + m', g, n + n', q)
  {
    hide OnCurve, EcAdd, Multiple;
    var a, c, a', c' := Multiple(p, m, g), Multiple(p, n, q), Multiple(p, m', g), Multiple(p, n', q);
    MultipleOnCurve(p, b, m, g);
    MultipleOnCurve(p, b, n, q);
    MultipleOnCurve(p, b, m', g);
    MultipleOnCurve(p, b, n', q);
    MultipleSum(p, b, m, m', g);
    MultipleSum(p, b, n, n', q);
    Interchange(p, b, a, c, a', c');
  }

  /** `(a + c) + (a' + c') = (a + a') + (c + c')`. */
  lemma {:induction false} Interchange(p: nat, b: int, a: Affine, c: Affine, a': Affine, c': Affine)
    requires CurveGroup(p, b) && OnCurve(p, b, a) && OnCurve(p, b, c) && OnCurve(p, b, a') && OnCurve(p, b, c')
    ensures EcAdd(p, EcAdd(p, a, c), EcAdd(p, a', c')) == EcAdd(p, EcAdd(p, a, a'), EcAdd(p, c, c'))
  {
    hide OnCurve, EcAdd;
    assert Closed(p, b, a', c') && Closed(p, b, c, c') && Closed(p, b, a', c) && Closed(p, b, c, a');
    assert Associates(p, b, a, c, EcAdd(p, a', c'));
    assert Associates(p, b, c, a', c');
    assert Commutes(p, b, c, a');
    assert Associates(p, b, a', c, c');
    assert Associates(p, b, a, a', EcAdd(p, c, c'));
  }

  lemma {:induction false} CombZero(p: nat, m: nat, g: Affine, n: nat, q: Affine)
    requires p >= 2
    ensures Comb(p, m, g, 0, q) == Multiple(p, m, g) && Comb(p, 0, g, n, q) == Multiple(p, n, q)
    ensures Comb(p, 0, g, 0, q) == Infinity
  {
    AddInfinity(p, Multiple(p, m, g));
    AddInfinity(p, Multiple(p, n, q));
  }

  // ---------------------------------------------------------------- one-hot digits

  ghost predicate OneHot(digit: int, indicators: seq<int>) {
    && 0 <= digit < |indicators|
    && forall i: nat :: i < |indicators| ==> indicators[i] == if i == digit then 1 else 0
  }

  function SumOf(values: seq<int>): int {
    if |values| == 0 then 0 else SumOf(values[..|values| - 1]) + values[|values| - 1]
  }

  /** `sum values[i] weights[i]`. */
  function Weighted(values: seq<int>, weights: seq<int>): int
    requires |values| <= |weights|
  {
    if |values| == 0 then 0
    else Weighted(values[..|values| - 1], weights) + values[|values| - 1] * weights[|values| - 1]
  }

  ghost predicate AllBits(values: seq<int>) {
    forall i: nat :: i < |values| ==> IsBit(values[i])
  }

  lemma {:induction false} BitSumZero(values: seq<int>)
    requires AllBits(values)
    ensures SumOf(values) >= 0 && (SumOf(values) == 0 ==> forall i: nat :: i < |values| ==> values[i] == 0)
  {
    if |values| > 0 { BitSumZero(values[..|values| - 1]); }
  }

  lemma {:induction false} ZeroWeighted(values: seq<int>, weights: seq<int>)
    requires |values| <= |weights| && forall i: nat :: i < |values| ==> values[i] == 0
    ensures Weighted(values, weights) == 0 && SumOf(values) == 0
  {
    if |values| > 0 { ZeroWeighted(values[..|values| - 1], weights); }
  }

  /** Bits that add up to one pick out one weight. */
  lemma {:induction false} OneBitSet(values: seq<int>, weights: seq<int>) returns (i: nat)
    requires AllBits(values) && |values| <= |weights| && SumOf(values) == 1
    ensures i < |values| && OneHot(i, values) && Weighted(values, weights) == weights[i]
  {
    var n := |values| - 1;
    if values[n] == 1 {
      i := n;
      BitSumZero(values[..n]);
      ZeroWeighted(values[..n], weights);
    } else {
      i := OneBitSet(values[..n], weights);
    }
  }

  lemma {:induction false} OneHotSums(digit: int, indicators: seq<int>, weights: seq<int>)
    requires OneHot(digit, indicators) && |indicators| <= |weights|
    ensures SumOf(indicators) == 1 && Weighted(indicators, weights) == weights[digit]
  {
    var n := |indicators| - 1;
    if digit == n { ZeroWeighted(indicators[..n], weights); } else { OneHotSums(digit, indicators[..n], weights); }
  }

  function Indices(n: nat): (s: seq<int>)
    ensures |s| == n && forall i: nat :: i < n ==> s[i] == i
  {
    seq(n, i => i)
  }

  ghost function IndicatorHint(digit: int, n: nat): Hinted {
    if digit < 0 then Fails else Gives(seq(n, i => i == digit))
  }

  function Lift(bits: seq<bool>): (values: seq<int>)
    ensures |values| == |bits| && forall i: nat :: i < |bits| ==> values[i] == if bits[i] then 1 else 0
  {
    seq(|bits|, i requires 0 <= i < |bits| => if bits[i] then 1 else 0)
  }

  /** `n` indicator bits of a digit. */
  method Indicators(c: Circuit, n: nat, digit: int) returns (indicators: seq<int>)
    modifies c
    ensures Emits(c, n, 2)
    ensures |indicators| == n && AllBits(indicators) && Extends(c)
    ensures c.satisfied ==> OneHot(digit, indicators)
    ensures 0 <= digit < n ==> Completes(c)
  {
    hide SumOf, Weighted;
    var bits := c.Hint(n, IndicatorHint(digit, n));
    indicators := Lift(bits);
    c.AssertZero(SumOf(indicators) - 1);
    c.AssertZero(Weighted(indicators, Indices(n)) - digit);
    if c.satisfied { var i := OneBitSet(indicators, Indices(n)); }
    if 0 <= digit < n && bits == seq(n, i => i == digit) { OneHotSums(digit, indicators, Indices(n)); }
  }

  /** The table entry of a digit, as a 256-bit word. */
  method LookupRep(c: Circuit, p: nat, digit: int, indicators: seq<int>, values: seq<Rep>) returns (r: Rep)
    requires |indicators| == |values|
    modifies c
    ensures Emits(c, 256, |values|)
    ensures IsWord(r, p) && Extends(c)
    ensures c.satisfied && OneHot(digit, indicators) ==> r.value == values[digit].value
    ensures OneHot(digit, indicators) && 0 <= values[digit].value < Pow2(256) ==> Completes(c)
  {
    hide Pow2;
    var out := HintValue(c, 256, if 0 <= digit < |values| then values[digit].value else -1);
    for i := 0 to |values|
      invariant Emits(c, 256, i)
      invariant (c.satisfied ==> old(c.satisfied)) && (c.honest ==> old(c.honest)) && (old(c.failed) ==> c.failed)
      invariant c.satisfied && OneHot(digit, indicators) && digit < i ==> out == values[digit].value
      invariant OneHot(digit, indicators) && 0 <= values[digit].value < Pow2(256) ==>
        Completes(c) && (c.honest ==> out == values[digit].value)
    {
      c.AssertR1c(indicators[i], out - values[i].value, 0);
    }
    WordFits(out, p);
    r := WordRep(out);
  }

  /** The flag of a digit. */
  method LookupFlag(c: Circuit, digit: int, indicators: seq<int>, flags: seq<int>) returns (flag: int)
    requires |indicators| == |flags|
    modifies c
    ensures Emits(c, 1, |flags|)
    ensures IsBit(flag) && Extends(c)
    ensures c.satisfied && OneHot(digit, indicators) ==> flag == flags[digit]
    ensures OneHot(digit, indicators) && IsBit(flags[digit]) ==> Completes(c)
  {
    assert Pow2(1) == 2 by { TwoValues(); }
    hide Pow2;
    var out := HintValue(c, 1, if 0 <= digit < |flags| then (if flags[digit] == 1 then 1 else 0) else -1);
    OneBit(out);
    for i := 0 to |flags|
      invariant Emits(c, 1, i)
      invariant (c.satisfied ==> old(c.satisfied)) && (c.honest ==> old(c.honest)) && (old(c.failed) ==> c.failed)
      invariant c.satisfied && OneHot(digit, indicators) && digit < i ==> out == flags[digit]
      invariant OneHot(digit, indicators) && IsBit(flags[digit]) ==>
        Completes(c) && (c.honest ==> out == flags[digit])
    {
      c.AssertR1c(indicators[i], out - flags[i], 0);
    }
    flag := out;
  }
}
