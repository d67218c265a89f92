/** Tables on the Boolean cube as perfect binary trees, the root splitting the top variable. The
    protocol theorems are proved on trees; `CubeOf` ties them to the tables the programs hold. */
module Cubes {
  import opened Wrappers
  import opened FiniteField
  import opened Multilinear
  import opened Powers

  datatype Cube = Leaf(value: Elem) | Node(lo: Cube, hi: Cube)

  ghost predicate Full(t: Cube, n: nat) {
    if n == 0 then t.Leaf? else t.Node? && Full(t.lo, n - 1) && Full(t.hi, n - 1)
  }

  ghost function CubeOf(s: seq<Elem>, n: nat): (t: Cube)
    requires |s| == Pow2(n)
    ensures Full(t, n)
  {
    if n == 0 then Leaf(s[0])
    else Node(CubeOf(s[..Pow2(n - 1)], n - 1), CubeOf(s[Pow2(n - 1)..], n - 1))
  }

  /** The extension of the table at `p`; the last coordinate belongs to the root. */
  ghost function Extension(K: Field, t: Cube, p: seq<Elem>): Elem
    requires Full(t, |p|)
  {
    if |p| == 0 then t.value
    else Lerp(K, Extension(K, t.lo, p[..|p| - 1]), Extension(K, t.hi, p[..|p| - 1]), p[|p| - 1])
  }

  /** On a table's tree this is the multilinear extension of the table. */
  lemma {:induction false} ExtensionIsMle(K: Field, s: seq<Elem>, p: seq<Elem>)
    requires K.Valid() && |s| == Pow2(|p|)
    ensures Extension(K, CubeOf(s, |p|), p) == Mle(K, s, p)
    decreases |p|
  {
    if |p| == 0 {
      SingleEntry(K, s, p);
    } else {
      var n := |p| - 1;
      var lo, hi, q := s[..Pow2(n)], s[Pow2(n)..], p[..n];
      assert s == lo + hi && p == q + [p[n]];
      ExtensionIsMle(K, lo, q);
      ExtensionIsMle(K, hi, q);
      MleHigh(K, lo, hi, q, p[n]);
      assert Extension(K, CubeOf(s, |p|), p) == Lerp(K, Mle(K, lo, q), Mle(K, hi, q), p[n]);
    }
  }

  // ---------------------------------------------------------------- the lowest variable

  /** The tree with its lowest variable bound at `c`. */
  ghost function BindLow(K: Field, t: Cube, c: Elem): Cube {
    match t
    case Node(Leaf(a), Leaf(b)) => Leaf(Lerp(K, a, b, c))
    case Node(l, h) => Node(BindLow(K, l, c), BindLow(K, h, c))
    case Leaf(_) => t
  }

  lemma {:induction false} BindLowFull(K: Field, t: Cube, c: Elem, n: nat)
    requires n > 0 && Full(t, n)
    ensures Full(BindLow(K, t, c), n - 1)
  {
    if n > 1 {
      BindLowFull(K, t.lo, c, n - 1);
      BindLowFull(K, t.hi, c, n - 1);
    }
  }

  /** Binding the lowest variable first and the others after evaluates at all of them. */
  lemma {:induction false} BindLowExtension(K: Field, t: Cube, c: Elem, p: seq<Elem>)
    requires Full(t, |p| + 1)
    ensures Full(BindLow(K, t, c), |p|) && |[c] + p| == |p| + 1
    ensures Extension(K, BindLow(K, t, c), p) == Extension(K, t, [c] + p)
    decreases |p|
  {
    BindLowFull(K, t, c, |p| + 1);
    if |p| == 0 {
      assert ([c] + p)[..0] == [];
    } else {
      var n := |p| - 1;
      assert ([c] + p)[..|p|] == [c] + p[..n];
      BindLowExtension(K, t.lo, c, p[..n]);
      BindLowExtension(K, t.hi, c, p[..n]);
    }
  }

  /** Binding the lowest variables at `rho`, one after another. */
  ghost function BindAll(K: Field, t: Cube, rho: seq<Elem>): Cube {
    if |rho| == 0 then t else BindLow(K, BindAll(K, t, rho[..|rho| - 1]), rho[|rho| - 1])
  }

  lemma {:induction false} BindAllFull(K: Field, t: Cube, rho: seq<Elem>, n: nat)
    requires |rho| <= n && Full(t, n)
    ensures Full(BindAll(K, t, rho), n - |rho|)
    decreases |rho|
  {
    if |rho| > 0 {
      BindAllFull(K, t, rho[..|rho| - 1], n);
      BindLowFull(K, BindAll(K, t, rho[..|rho| - 1]), rho[|rho| - 1], n - |rho| + 1);
    }
  }

  lemma {:induction false} BindAllExtension(K: Field, t: Cube, rho: seq<Elem>, p: seq<Elem>)
    requires Full(t, |rho| + |p|)
    ensures Full(BindAll(K, t, rho), |p|) && |rho + p| == |rho| + |p|
    ensures Extension(K, BindAll(K, t, rho), p) == Extension(K, t, rho + p)
    decreases |rho|
  {
    BindAllFull(K, t, rho, |rho| + |p|);
    if |rho| == 0 {
      assert rho + p == p;
    } else {
      var n := |rho| - 1;
      var c := rho[n];
      BindAllExtension(K, t, rho[..n], [c] + p);
      BindLowExtension(K, BindAll(K, t, rho[..n]), c, p);
      assert rho[..n] + ([c] + p) == rho + p;
    }
  }

  lemma {:induction false} FoldedConcat(K: Field, lo: seq<Elem>, hi: seq<Elem>, c: Elem)
    requires |lo| % 2 == 0
    ensures Folded(K, lo + hi, c) == Folded(K, lo, c) + Folded(K, hi, c)
  {
  }

  lemma {:induction false} CubeOfConcat(lo: seq<Elem>, hi: seq<Elem>, n: nat)
    requires |lo| == |hi| == Pow2(n)
    ensures CubeOf(lo + hi, n + 1) == Node(CubeOf(lo, n), CubeOf(hi, n))
  {
    assert (lo + hi)[..Pow2(n)] == lo && (lo + hi)[Pow2(n)..] == hi;
  }

  lemma {:induction false} FoldedPair(K: Field, s: seq<Elem>, c: Elem)
    requires |s| == 2
    ensures CubeOf(Folded(K, s, c), 0) == BindLow(K, CubeOf(s, 1), c)
  {
    assert CubeOf(s, 1) == Node(Leaf(s[0]), Leaf(s[1])) by {
      assert s[..1] == [s[0]] && s[1..] == [s[1]];
    }
  }

  lemma {:induction false} FoldedHalves(K: Field, lo: seq<Elem>, hi: seq<Elem>, n: nat, c: Elem)
    requires |lo| == |hi| == Pow2(n + 1)
    requires CubeOf(Folded(K, lo, c), n) == BindLow(K, CubeOf(lo, n + 1), c)
    requires CubeOf(Folded(K, hi, c), n) == BindLow(K, CubeOf(hi, n + 1), c)
    ensures CubeOf(Folded(K, lo + hi, c), n + 1) == BindLow(K, CubeOf(lo + hi, n + 2), c)
  {
    hide Folded, CubeOf;
    FoldedConcat(K, lo, hi, c);
    CubeOfConcat(lo, hi, n + 1);
    CubeOfConcat(Folded(K, lo, c), Folded(K, hi, c), n);
  }

  /** Folding a table binds the lowest variable of its tree. */
  lemma {:induction false} FoldedCube(K: Field, s: seq<Elem>, n: nat, c: Elem)
    requires |s| == Pow2(n + 1)
    ensures |Folded(K, s, c)| == Pow2(n)
    ensures CubeOf(Folded(K, s, c), n) == BindLow(K, CubeOf(s, n + 1), c)
  {
    hide CubeOf, Folded, BindLow;
    assert Pow2(n + 1) == 2 * Pow2(n);
    if n == 0 {
      FoldedPair(K, s, c);
    } else {
      var lo, hi := s[..Pow2(n)], s[Pow2(n)..];
      FoldedCube(K, lo, n - 1, c);
      FoldedCube(K, hi, n - 1, c);
      FoldedHalves(K, lo, hi, n - 1, c);
      assert lo + hi == s;
    }
  }

  datatype MleError = WrongPointWidth | TooManyChallenges

  /** A dense extension whose table the folds overwrite and truncate. */
  class DenseMle {
    var evaluations: seq<Elem>

    constructor (table: seq<Elem>)
      ensures evaluations == table
    {
      evaluations := table;
    }

    method FoldRoundInPlace(K: Field, challenge: Elem)
      modifies this`evaluations
      ensures evaluations == Folded(K, old(evaluations), challenge)
    {
      var half := |evaluations| / 2;
      for i := 0 to half
        invariant |evaluations| == |old(evaluations)|
        invariant forall k :: 0 <= k < i ==>
          evaluations[k] == Lerp(K, old(evaluations)[2 * k], old(evaluations)[2 * k + 1], challenge)
        invariant forall k :: i <= k < |evaluations| ==> evaluations[k] == old(evaluations)[k]
      {
        var left, right := evaluations[2 * i], evaluations[2 * i + 1];
        evaluations := evaluations[i := K.add(left, K.mul(challenge, K.add(right, left)))];
      }
      evaluations := evaluations[..half];
    }

    /** Fixes the lowest of the `n` variables in order; refuses more challenges than variables. */
    method Fold(K: Field, n: nat, r: seq<Elem>) returns (result: Result<(), MleError>)
      requires |evaluations| == Pow2(n)
      modifies this`evaluations
      ensures result == if |r| > n then Err(TooManyChallenges) else Ok(())
      ensures result.Err? ==> evaluations == old(evaluations)
      ensures result.Ok? ==> |evaluations| == Pow2(n - |r|)
      ensures result.Ok? ==> CubeOf(evaluations, n - |r|) == BindAll(K, CubeOf(old(evaluations), n), r)
    {
      if |r| > n { return Err(TooManyChallenges); }
      for i := 0 to |r|
        invariant |evaluations| == Pow2(n - i)
        invariant CubeOf(evaluations, n - i) == BindAll(K, CubeOf(old(evaluations), n), r[..i])
      {
        FoldedCube(K, evaluations, n - i - 1, r[i]);
        assert r[..i + 1][..i] == r[..i];
        FoldRoundInPlace(K, r[i]);
      }
      assert r[..|r|] == r;
      return Ok(());
    }

    /** The extension at a point of the table's width. */
    method Evaluate(K: Field, n: nat, r: seq<Elem>) returns (result: Result<Elem, MleError>)
      requires K.Valid() && |evaluations| == Pow2(n)
      ensures result == if |r| != n then Err(WrongPointWidth) else Ok(Mle(K, evaluations, r))
    {
      if |r| != n { return Err(WrongPointWidth); }
      EvaluateExactIsMle(K, evaluations, r);
      return Ok(EvaluateExact(K, evaluations, r));
    }
  }
}
