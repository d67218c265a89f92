/** The degree-two sumcheck: from `sum_x W(x) V(x) = h` over two tables to a claim on the
    multilinear extension of `V` at the challenges. */
module Sumcheck {
  import opened FiniteField
  import opened Multilinear
  import opened Cubes
  import opened ChallengeCounting

  /** `p(c)` for the round polynomial with ends `a0` and `a2`; the running claim fixes the middle. */
  function Advance(K: Field, claim: Elem, a0: Elem, a2: Elem, c: Elem): Elem {
    K.add(a0, K.mul(c, K.add(K.add(claim, a2), K.mul(c, a2))))
  }

  ghost function Inner(K: Field, w: Cube, v: Cube): Elem {
    match (w, v)
    case (Node(l, h), Node(l', h')) => K.add(Inner(K, l, l'), Inner(K, h, h'))
    case (Leaf(a), Leaf(b)) => K.mul(a, b)
    case _ => K.zero
  }

  /** The sum of `w0 v0` over the adjacent pairs of entries. */
  ghost function Constant(K: Field, w: Cube, v: Cube): Elem {
    match (w, v)
    case (Node(Leaf(a), Leaf(_)), Node(Leaf(c), Leaf(_))) => K.mul(a, c)
    case (Node(l, h), Node(l', h')) => K.add(Constant(K, l, l'), Constant(K, h, h'))
    case _ => K.zero
  }

  /** The sum of `(w0 + w1) (v0 + v1)` over the adjacent pairs of entries. */
  ghost function Leading(K: Field, w: Cube, v: Cube): Elem {
    match (w, v)
    case (Node(Leaf(a), Leaf(b)), Node(Leaf(c), Leaf(d))) => K.mul(K.add(a, b), K.add(c, d))
    case (Node(l, h), Node(l', h')) => K.add(Leading(K, l, l'), Leading(K, h, h'))
    case _ => K.zero
  }

  // ---------------------------------------------------------------- one round

  lemma {:induction false} AdvanceAdds(K: Field, h: Elem, a: Elem, b: Elem, h': Elem, a': Elem, b': Elem, c: Elem)
    requires K.Valid()
    ensures K.add(Advance(K, h, a, b, c), Advance(K, h', a', b', c))
      == Advance(K, K.add(h, h'), K.add(a, a'), K.add(b, b'), c)
  {
    K.Dist(c, b, b');
    var m, m' := K.add(K.add(h, b), K.mul(c, b)), K.add(K.add(h', b'), K.mul(c, b'));
    K.Dist(c, m, m');
    assert K.add(m, m') == K.add(K.add(K.add(h, h'), K.add(b, b')), K.mul(c, K.add(b, b'))) by { K.Additive(); }
    K.Additive();
  }

  /** One pair of entries: the product of the two interpolants is the round polynomial of the pair. */
  lemma {:induction false} PairRound(K: Field, w0: Elem, w1: Elem, v0: Elem, v1: Elem, c: Elem)
    requires K.Valid()
    ensures K.mul(Lerp(K, w0, w1, c), Lerp(K, v0, v1, c))
      == Advance(K, K.add(K.mul(w0, v0), K.mul(w1, v1)), K.mul(w0, v0), K.mul(K.add(w0, w1), K.add(v0, v1)), c)
  {
    var dw, dv := K.add(w1, w0), K.add(v1, v0);
    var top := K.mul(dw, dv);
    K.Foil(w0, K.mul(c, dw), v0, K.mul(c, dv));
    K.Swap(w0, c, dv);
    K.Assoc(c, dw, v0);
    K.Swap(K.mul(c, dw), c, dv);
    K.Assoc(c, dw, dv);
    K.Foil(w1, w0, v1, v0);
    K.Dist(w0, v1, v0);
    K.Dist(v0, w1, w0);
    assert K.add(w0, w1) == dw && K.add(v0, v1) == dv by { K.Additive(); }
    var middle := K.add(K.mul(w0, dv), K.mul(dw, v0));
    assert middle == K.add(K.add(K.mul(w0, v0), K.mul(w1, v1)), top) by { K.Additive(); }
    K.Dist(c, K.mul(w0, dv), K.mul(dw, v0));
    K.Dist(c, middle, K.mul(c, top));
    K.Additive();
  }

  /** The message is the round polynomial: from the claim that is the inner product, advancing at
      any challenge gives the inner product of the folded tables. */
  lemma {:induction false} RoundIdentity(K: Field, w: Cube, v: Cube, n: nat, c: Elem)
    requires K.Valid() && n > 0 && Full(w, n) && Full(v, n)
    ensures Inner(K, BindLow(K, w, c), BindLow(K, v, c))
      == Advance(K, Inner(K, w, v), Constant(K, w, v), Leading(K, w, v), c)
  {
    if n == 1 {
      PairRound(K, w.lo.value, w.hi.value, v.lo.value, v.hi.value, c);
    } else {
      RoundIdentity(K, w.lo, v.lo, n - 1, c);
      RoundIdentity(K, w.hi, v.hi, n - 1, c);
      AdvanceAdds(K, Inner(K, w.lo, v.lo), Constant(K, w.lo, v.lo), Leading(K, w.lo, v.lo),
        Inner(K, w.hi, v.hi), Constant(K, w.hi, v.hi), Leading(K, w.hi, v.hi), c);
    }
  }

  // ---------------------------------------------------------------- whole runs

  /** An adaptive prover: the pair it sends after having seen the challenges so far. */
  type Strategy = seq<Elem> -> (Elem, Elem)

  /** The verifier's claim after the challenges `rho` against the prover `strategy`. */
  ghost function Running(K: Field, claim: Elem, strategy: Strategy, rho: seq<Elem>): Elem {
    if |rho| == 0 then claim
    else
      var seen := rho[..|rho| - 1];
      Advance(K, Running(K, claim, strategy, seen), strategy(seen).0, strategy(seen).1, rho[|rho| - 1])
  }

  /** The prover that follows the protocol on `w` and `v`. */
  ghost function Honest(K: Field, w: Cube, v: Cube): Strategy {
    (rho: seq<Elem>) => (Constant(K, BindAll(K, w, rho), BindAll(K, v, rho)),
                         Leading(K, BindAll(K, w, rho), BindAll(K, v, rho)))
  }

  lemma {:induction false} HonestRunning(K: Field, w: Cube, v: Cube, n: nat, rho: seq<Elem>)
    requires K.Valid() && |rho| <= n && Full(w, n) && Full(v, n)
    ensures Running(K, Inner(K, w, v), Honest(K, w, v), rho) == Inner(K, BindAll(K, w, rho), BindAll(K, v, rho))
    decreases |rho|
  {
    if |rho| > 0 {
      var seen := rho[..|rho| - 1];
      HonestRunning(K, w, v, n, seen);
      BindAllFull(K, w, seen, n);
      BindAllFull(K, v, seen, n);
      RoundIdentity(K, BindAll(K, w, seen), BindAll(K, v, seen), n - |seen|, rho[|rho| - 1]);
    }
  }

  lemma {:induction false} BoundInner(K: Field, w: Cube, v: Cube, rho: seq<Elem>)
    requires K.Valid() && Full(w, |rho|) && Full(v, |rho|)
    ensures BindAll(K, w, rho) == Leaf(Extension(K, w, rho))
    ensures Inner(K, BindAll(K, w, rho), BindAll(K, v, rho))
      == K.mul(Extension(K, w, rho), Extension(K, v, rho))
  {
    BindAllExtension(K, w, rho, []);
    BindAllExtension(K, v, rho, []);
    assert rho + [] == rho;
  }

  /** Completeness: from a true claim the honest messages lead to the product of the two extensions
      at the challenges, whatever the challenges are. */
  lemma {:induction false} Completeness(K: Field, w: Cube, v: Cube, rho: seq<Elem>)
    requires K.Valid() && Full(w, |rho|) && Full(v, |rho|)
    ensures Running(K, Inner(K, w, v), Honest(K, w, v), rho) == K.mul(Extension(K, w, rho), Extension(K, v, rho))
  {
    HonestRunning(K, w, v, |rho|, rho);
    BoundInner(K, w, v, rho);
  }

  ghost function Product(K: Field, s: seq<Elem>): Elem {
    if |s| == 0 then K.one else K.mul(s[|s| - 1], Product(K, s[..|s| - 1]))
  }

  /** A gap between two claims run against the same messages is multiplied by every challenge. */
  lemma {:induction false} GapSurvives(K: Field, h: Elem, h': Elem, strategy: Strategy, rho: seq<Elem>)
    requires K.Valid()
    ensures K.add(Running(K, h, strategy, rho), Running(K, h', strategy, rho)) == K.mul(Product(K, rho), K.add(h, h'))
    decreases |rho|
  {
    if |rho| == 0 {
      K.Units(K.add(h, h'));
    } else {
      var seen, c := rho[..|rho| - 1], rho[|rho| - 1];
      var a0, a2 := strategy(seen).0, strategy(seen).1;
      var g, g' := Running(K, h, strategy, seen), Running(K, h', strategy, seen);
      GapSurvives(K, h, h', strategy, seen);
      AdvanceAdds(K, g, a0, a2, g', a0, a2, c);
      K.Units(c);
      assert Advance(K, K.add(g, g'), K.zero, K.zero, c) == K.mul(c, K.add(g, g')) by { K.Additive(); }
      assert K.add(a0, a0) == K.zero == K.add(a2, a2) by { K.Additive(); }
      K.Assoc(c, Product(K, seen), K.add(h, h'));
    }
  }

  // ---------------------------------------------------------------- soundness

  /** The running claim differs from the inner product of the tables folded so far. */
  ghost predicate Lies(K: Field, w: Cube, v: Cube, claim: Elem, strategy: Strategy, rho: seq<Elem>) {
    Running(K, claim, strategy, rho) != Inner(K, BindAll(K, w, rho), BindAll(K, v, rho))
  }

  /** Two round polynomials that differ in a coefficient agree on at most two challenges. */
  lemma {:induction false} RoundEscapes(K: Field, h: Elem, a0: Elem, a2: Elem, s: Elem, b0: Elem, b2: Elem, E: set<Elem>)
    requires K.Valid() && (h != s || a0 != b0 || a2 != b2)
    requires forall c :: c in E ==> Advance(K, h, a0, a2, c) == Advance(K, s, b0, b2, c)
    ensures |E| <= 2
  {
    var c0, c1, c2 := K.add(a0, b0), K.add(K.add(h, s), K.add(a2, b2)), K.add(a2, b2);
    K.ZeroSum(a0, b0);
    K.ZeroSum(a2, b2);
    K.ZeroSum(h, s);
    assert K.add(K.add(h, s), K.zero) == K.add(h, s) by { K.Additive(); }
    AtMostTwoRoots(K, c0, c1, c2);
    forall c | c in E ensures c in Roots(K, c0, c1, c2) {
      assert K.Listed(c);
      AdvanceAdds(K, h, a0, a2, s, b0, b2, c);
      K.ZeroSum(Advance(K, h, a0, a2, c), Advance(K, s, b0, b2, c));
    }
    Subset(E, Roots(K, c0, c1, c2));
  }

  lemma {:induction false} AfterRound(K: Field, w: Cube, v: Cube, n: nat, claim: Elem, strategy: Strategy, rho: seq<Elem>, c: Elem)
    requires K.Valid() && Full(w, n) && Full(v, n) && |rho| < n
    ensures Running(K, claim, strategy, rho + [c])
      == Advance(K, Running(K, claim, strategy, rho), strategy(rho).0, strategy(rho).1, c)
    ensures Inner(K, BindAll(K, w, rho + [c]), BindAll(K, v, rho + [c]))
      == Advance(K, Inner(K, BindAll(K, w, rho), BindAll(K, v, rho)),
           Constant(K, BindAll(K, w, rho), BindAll(K, v, rho)), Leading(K, BindAll(K, w, rho), BindAll(K, v, rho)), c)
  {
    assert (rho + [c])[..|rho|] == rho;
    BindAllFull(K, w, rho, n);
    BindAllFull(K, v, rho, n);
    RoundIdentity(K, BindAll(K, w, rho), BindAll(K, v, rho), n - |rho|, c);
  }

  lemma {:induction false} FewLucky(K: Field, w: Cube, v: Cube, n: nat, claim: Elem, strategy: Strategy, rho: seq<Elem>, E: set<Elem>)
    requires K.Valid() && Full(w, n) && Full(v, n) && |rho| < n
    requires Lies(K, w, v, claim, strategy, rho)
    requires forall c :: c in E ==> !Lies(K, w, v, claim, strategy, rho + [c])
    ensures |E| <= 2
  {
    var w', v' := BindAll(K, w, rho), BindAll(K, v, rho);
    forall c | c in E
      ensures Advance(K, Running(K, claim, strategy, rho), strategy(rho).0, strategy(rho).1, c)
        == Advance(K, Inner(K, w', v'), Constant(K, w', v'), Leading(K, w', v'), c)
    {
      AfterRound(K, w, v, n, claim, strategy, rho, c);
    }
    RoundEscapes(K, Running(K, claim, strategy, rho), strategy(rho).0, strategy(rho).1,
      Inner(K, w', v'), Constant(K, w', v'), Leading(K, w', v'), E);
  }

  ghost function Repeated(k: nat, n: nat): (d: seq<nat>)
    ensures |d| == n && forall i :: 0 <= i < n ==> d[i] == k
  {
    seq(n, _ => k)
  }

  lemma {:induction false} TotalRepeated(k: nat, n: nat)
    ensures Total(Repeated(k, n)) == k * n
  {
    if n > 0 {
      TotalRepeated(k, n - 1);
      assert Repeated(k, n)[..n - 1] == Repeated(k, n - 1);
    }
  }

  /** The challenge vectors on which a strategy ends with a running claim that is the product of
      the two extensions. */
  ghost function Fooled(K: Field, w: Cube, v: Cube, n: nat, claim: Elem, strategy: Strategy): set<seq<Elem>>
    requires Full(w, n) && Full(v, n)
  {
    set rho | rho in Vectors(K, n) && |rho| == n
      && Running(K, claim, strategy, rho) == K.mul(Extension(K, w, rho), Extension(K, v, rho))
  }

  /** Soundness of the whole run: a false claim on `n` variables survives all but `2n N^(n-1)` of
      the `N^n` challenge vectors, whatever the adaptive prover does. */
  lemma {:induction false} Soundness(K: Field, w: Cube, v: Cube, n: nat, claim: Elem, strategy: Strategy)
    requires K.Valid() && Full(w, n) && Full(v, n)
    requires claim != Inner(K, w, v)
    ensures AtMost(K, n, Fooled(K, w, v, n, claim, strategy), 2 * n)
  {
    var lie := r => Lies(K, w, v, claim, strategy, r);
    assert lie([]);
    forall r: seq<Elem> | |r| < n && lie(r) ensures |Lucky(K, lie, r)| <= Repeated(2, n)[|r|] {
      FewLucky(K, w, v, n, claim, strategy, r, Lucky(K, lie, r));
    }
    TotalRepeated(2, n);
    EscapeBound(K, n, lie, Repeated(2, n), 2 * n);
    forall rho | rho in Fooled(K, w, v, n, claim, strategy) ensures rho in Escapes(K, n, lie) {
      BoundInner(K, w, v, rho);
    }
    SubsetAtMost(K, n, Fooled(K, w, v, n, claim, strategy), Escapes(K, n, lie), 2 * n);
  }
}
