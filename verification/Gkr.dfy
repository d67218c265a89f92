/** The layered reduction of a batched grand product. Points are kept top variable first, the order
    in which the rounds bind them. */
module Gkr {
  import opened FiniteField
  import opened Multilinear
  import opened Cubes
  import opened Sumcheck

  // ---------------------------------------------------------------- layers

  /** The table of entrywise products. */
  ghost function Times(K: Field, l: Cube, r: Cube): Cube {
    match (l, r)
    case (Node(a, b), Node(c, d)) => Node(Times(K, a, c), Times(K, b, d))
    case (Leaf(a), Leaf(b)) => Leaf(K.mul(a, b))
    case _ => l
  }

  lemma {:induction false} TimesFull(K: Field, l: Cube, r: Cube, n: nat)
    requires Full(l, n) && Full(r, n)
    ensures Full(Times(K, l, r), n)
  {
    if n > 0 {
      TimesFull(K, l.lo, r.lo, n - 1);
      TimesFull(K, l.hi, r.hi, n - 1);
    }
  }

  /** The layer with `m` variables above the leaves `t` of `n` variables: each layer multiplies the
      two halves of the one below. */
  ghost function Layer(K: Field, t: Cube, n: nat, m: nat): (s: Cube)
    requires m <= n && Full(t, n)
    ensures Full(s, m)
    decreases n - m
  {
    if m == n then t
    else
      var below := Layer(K, t, n, m + 1);
      TimesFull(K, below.lo, below.hi, m);
      Times(K, below.lo, below.hi)
  }

  /** The extension at a point whose first coordinate belongs to the root. */
  ghost function Top(K: Field, t: Cube, z: seq<Elem>): Elem
    requires Full(t, |z|)
  {
    if |z| == 0 then t.value else Lerp(K, Top(K, t.lo, z[1..]), Top(K, t.hi, z[1..]), z[0])
  }

  function Reverse(s: seq<Elem>): (r: seq<Elem>)
    ensures |r| == |s|
  {
    if |s| == 0 then [] else Reverse(s[1..]) + [s[0]]
  }

  lemma {:induction false} TopIsExtension(K: Field, t: Cube, z: seq<Elem>)
    requires Full(t, |z|)
    ensures Top(K, t, z) == Extension(K, t, Reverse(z))
    decreases |z|
  {
    if |z| > 0 {
      TopIsExtension(K, t.lo, z[1..]);
      TopIsExtension(K, t.hi, z[1..]);
      assert Reverse(z)[..|z| - 1] == Reverse(z[1..]);
    }
  }

  /** `sum_b eq(b, z) l[b] r[b]`. */
  ghost function Triple(K: Field, z: seq<Elem>, l: Cube, r: Cube): Elem
    requires Full(l, |z|) && Full(r, |z|)
  {
    if |z| == 0 then K.mul(l.value, r.value)
    else Lerp(K, Triple(K, z[1..], l.lo, r.lo), Triple(K, z[1..], l.hi, r.hi), z[0])
  }

  lemma {:induction false} TripleIsTop(K: Field, z: seq<Elem>, l: Cube, r: Cube)
    requires Full(l, |z|) && Full(r, |z|)
    ensures Full(Times(K, l, r), |z|)
    ensures Triple(K, z, l, r) == Top(K, Times(K, l, r), z)
    decreases |z|
  {
    TimesFull(K, l, r, |z|);
    if |z| > 0 {
      TripleIsTop(K, z[1..], l.lo, r.lo);
      TripleIsTop(K, z[1..], l.hi, r.hi);
    }
  }

  // ---------------------------------------------------------------- binding the top variable

  ghost function Blend(K: Field, lo: Cube, hi: Cube, r: Elem): Cube {
    match (lo, hi)
    case (Node(a, b), Node(c, d)) => Node(Blend(K, a, c, r), Blend(K, b, d, r))
    case (Leaf(a), Leaf(b)) => Leaf(Lerp(K, a, b, r))
    case _ => lo
  }

  /** The entrywise difference of the two halves. */
  ghost function Gap(K: Field, lo: Cube, hi: Cube): Cube {
    match (lo, hi)
    case (Node(a, b), Node(c, d)) => Node(Gap(K, a, c), Gap(K, b, d))
    case (Leaf(a), Leaf(b)) => Leaf(K.add(b, a))
    case _ => lo
  }

  lemma {:induction false} HalvesFull(K: Field, lo: Cube, hi: Cube, r: Elem, n: nat)
    requires Full(lo, n) && Full(hi, n)
    ensures Full(Blend(K, lo, hi, r), n) && Full(Gap(K, lo, hi), n)
  {
    if n > 0 {
      HalvesFull(K, lo.lo, hi.lo, r, n - 1);
      HalvesFull(K, lo.hi, hi.hi, r, n - 1);
    }
  }

  ghost function BindTop(K: Field, t: Cube, r: Elem): Cube {
    if t.Leaf? then t else Blend(K, t.lo, t.hi, r)
  }

  ghost function BindTopAll(K: Field, t: Cube, rho: seq<Elem>): Cube {
    if |rho| == 0 then t else BindTop(K, BindTopAll(K, t, rho[..|rho| - 1]), rho[|rho| - 1])
  }

  lemma {:induction false} BindTopAllFull(K: Field, t: Cube, rho: seq<Elem>, n: nat)
    requires |rho| <= n && Full(t, n)
    ensures Full(BindTopAll(K, t, rho), n - |rho|)
    decreases |rho|
  {
    if |rho| > 0 {
      var s := BindTopAll(K, t, rho[..|rho| - 1]);
      BindTopAllFull(K, t, rho[..|rho| - 1], n);
      HalvesFull(K, s.lo, s.hi, rho[|rho| - 1], n - |rho|);
    }
  }

  lemma {:induction false} LerpLerp(K: Field, a: Elem, b: Elem, c: Elem, d: Elem, r: Elem, z: Elem)
    requires K.Valid()
    ensures Lerp(K, Lerp(K, a, b, r), Lerp(K, c, d, r), z) == Lerp(K, Lerp(K, a, c, z), Lerp(K, b, d, z), r)
  {
    var x, y, w := K.add(b, a), K.add(d, c), K.add(c, a);
    var v := K.add(d, b);
    assert K.add(K.add(c, K.mul(r, y)), K.add(a, K.mul(r, x))) == K.add(w, K.add(K.mul(r, y), K.mul(r, x))) by { K.Additive(); }
    K.Dist(r, y, x);
    K.Dist(z, w, K.mul(r, K.add(y, x)));
    assert K.add(K.add(b, K.mul(z, v)), K.add(a, K.mul(z, w))) == K.add(x, K.add(K.mul(z, v), K.mul(z, w))) by { K.Additive(); }
    K.Dist(z, v, w);
    K.Dist(r, x, K.mul(z, K.add(v, w)));
    assert K.add(y, x) == K.add(v, w) by { K.Additive(); }
    K.Swap(z, r, K.add(y, x));
    K.Additive();
  }

  lemma {:induction false} BlendTop(K: Field, lo: Cube, hi: Cube, r: Elem, z: seq<Elem>)
    requires K.Valid() && Full(lo, |z|) && Full(hi, |z|)
    ensures Full(Blend(K, lo, hi, r), |z|)
    ensures Top(K, Blend(K, lo, hi, r), z) == Lerp(K, Top(K, lo, z), Top(K, hi, z), r)
    decreases |z|
  {
    HalvesFull(K, lo, hi, r, |z|);
    if |z| > 0 {
      BlendTop(K, lo.lo, hi.lo, r, z[1..]);
      BlendTop(K, lo.hi, hi.hi, r, z[1..]);
      LerpLerp(K, Top(K, lo.lo, z[1..]), Top(K, hi.lo, z[1..]), Top(K, lo.hi, z[1..]), Top(K, hi.hi, z[1..]), r, z[0]);
    }
  }

  lemma {:induction false} BindTopAllTop(K: Field, t: Cube, rho: seq<Elem>, z: seq<Elem>)
    requires K.Valid() && Full(t, |rho| + |z|)
    ensures Full(BindTopAll(K, t, rho), |z|) && |rho + z| == |rho| + |z|
    ensures Top(K, BindTopAll(K, t, rho), z) == Top(K, t, rho + z)
    decreases |rho|
  {
    BindTopAllFull(K, t, rho, |rho| + |z|);
    if |rho| == 0 {
      assert rho + z == z;
    } else {
      var n := |rho| - 1;
      var c := rho[n];
      var s := BindTopAll(K, t, rho[..n]);
      BindTopAllTop(K, t, rho[..n], [c] + z);
      assert rho[..n] + ([c] + z) == rho + z;
      assert ([c] + z)[1..] == z;
      BlendTop(K, s.lo, s.hi, c, z);
    }
  }

  // ---------------------------------------------------------------- one round

  lemma {:induction false} AdvanceScales(K: Field, k: Elem, h: Elem, a: Elem, b: Elem, c: Elem)
    requires K.Valid()
    ensures Advance(K, K.mul(k, h), K.mul(k, a), K.mul(k, b), c) == K.mul(k, Advance(K, h, a, b, c))
  {
    var cb := K.mul(c, b);
    K.Swap(c, k, b);
    K.Dist(k, h, b);
    K.Dist(k, K.add(h, b), cb);
    K.Swap(c, k, K.add(K.add(h, b), cb));
    K.Dist(k, a, K.mul(c, K.add(K.add(h, b), cb)));
  }

  lemma {:induction false} AdvanceLerp(K: Field, h: Elem, a: Elem, b: Elem, h': Elem, a': Elem, b': Elem, c: Elem, z: Elem)
    requires K.Valid()
    ensures Lerp(K, Advance(K, h, a, b, c), Advance(K, h', a', b', c), z)
      == Advance(K, Lerp(K, h, h', z), Lerp(K, a, a', z), Lerp(K, b, b', z), c)
  {
    AdvanceAdds(K, h', a', b', h, a, b, c);
    AdvanceScales(K, z, K.add(h', h), K.add(a', a), K.add(b', b), c);
    AdvanceAdds(K, h, a, b, K.mul(z, K.add(h', h)), K.mul(z, K.add(a', a)), K.mul(z, K.add(b', b)), c);
  }

  lemma {:induction false} LerpAdds(K: Field, a: Elem, b: Elem, c: Elem, d: Elem, z: Elem)
    requires K.Valid()
    ensures K.add(Lerp(K, a, b, z), Lerp(K, c, d, z)) == Lerp(K, K.add(a, c), K.add(b, d), z)
  {
    K.Dist(z, K.add(b, a), K.add(d, c));
    assert K.add(K.add(b, a), K.add(d, c)) == K.add(K.add(b, d), K.add(a, c)) by { K.Additive(); }
    K.Additive();
  }

  /** Binding the top variable of both factors evaluates the round polynomial with ends `S0`, `Sinf`. */
  lemma {:induction false} TripleRound(K: Field, z: seq<Elem>, l0: Cube, l1: Cube, r0: Cube, r1: Cube, c: Elem)
    requires K.Valid()
    requires Full(l0, |z|) && Full(l1, |z|) && Full(r0, |z|) && Full(r1, |z|)
    ensures Full(Blend(K, l0, l1, c), |z|) && Full(Blend(K, r0, r1, c), |z|)
    ensures Full(Gap(K, l0, l1), |z|) && Full(Gap(K, r0, r1), |z|)
    ensures Triple(K, z, Blend(K, l0, l1, c), Blend(K, r0, r1, c))
      == Advance(K, K.add(Triple(K, z, l0, r0), Triple(K, z, l1, r1)), Triple(K, z, l0, r0),
                 Triple(K, z, Gap(K, l0, l1), Gap(K, r0, r1)), c)
    decreases |z|
  {
    HalvesFull(K, l0, l1, c, |z|);
    HalvesFull(K, r0, r1, c, |z|);
    if |z| == 0 {
      PairRound(K, l0.value, l1.value, r0.value, r1.value, c);
      assert K.AddCommutes(l0.value, l1.value) && K.AddCommutes(r0.value, r1.value);
    } else {
      var y := z[1..];
      TripleRound(K, y, l0.lo, l1.lo, r0.lo, r1.lo, c);
      TripleRound(K, y, l0.hi, l1.hi, r0.hi, r1.hi, c);
      var a0, a1, ai := Triple(K, y, l0.lo, r0.lo), Triple(K, y, l1.lo, r1.lo), Triple(K, y, Gap(K, l0.lo, l1.lo), Gap(K, r0.lo, r1.lo));
      var b0, b1, bi := Triple(K, y, l0.hi, r0.hi), Triple(K, y, l1.hi, r1.hi), Triple(K, y, Gap(K, l0.hi, l1.hi), Gap(K, r0.hi, r1.hi));
      AdvanceLerp(K, K.add(a0, a1), a0, ai, K.add(b0, b1), b0, bi, c, z[0]);
      LerpAdds(K, a0, b0, a1, b1, z[0]);
    }
  }

  // ---------------------------------------------------------------- the verifier

  /** The verifier between two challenges: the point of the claim, the coordinates bound so far in
      this layer, the running claim and the product of the equality factors. */
  datatype Verifier =
    | Rejected
    | Running(point: seq<Elem>, bound: seq<Elem>, claim: Elem, prefix: Elem)

  function EqFactor(K: Field, r: Elem, z: Elem): Elem {
    K.add(K.add(K.one, r), z)
  }

  /** The two ends of the round polynomial, recovered from the claim and the one that is sent. */
  function Ends(K: Field, claim: Elem, z: Elem, sent: Elem): (Elem, Elem) {
    if z == K.zero then (claim, sent)
    else (sent, K.mul(K.add(claim, K.mul(K.add(K.one, z), sent)), K.inv(z)))
  }

  function RoundClaim(K: Field, claim: Elem, z: Elem, sent: Elem, atInfinity: Elem, r: Elem): Elem {
    var (sum0, sum1) := Ends(K, claim, z, sent);
    var bracket := K.add(K.add(sum1, sum0), K.mul(K.add(r, K.one), atInfinity));
    K.mul(EqFactor(K, r, z), K.add(sum0, K.mul(r, bracket)))
  }

  /** One message of two elements, then one challenge. */
  function Step(K: Field, v: Verifier, message: (Elem, Elem), c: Elem): Verifier {
    match v
    case Rejected => Rejected
    case Running(point, bound, claim, prefix) =>
      if |bound| < |point| then
        var z := point[|bound|];
        Running(point, bound + [c], RoundClaim(K, claim, z, message.0, message.1, c), K.mul(prefix, EqFactor(K, c, z)))
      else if K.mul(K.mul(prefix, message.0), message.1) != claim then Rejected
      else Running([c] + bound, [], Lerp(K, message.0, message.1, c), K.one)
  }

  ghost function Start(K: Field, point: seq<Elem>, claim: Elem): Verifier {
    Running(point, [], claim, K.one)
  }

  ghost function Run(K: Field, v: Verifier, strategy: Strategy, rho: seq<Elem>): Verifier {
    if |rho| == 0 then v
    else
      var seen := rho[..|rho| - 1];
      Step(K, Run(K, v, strategy, seen), strategy(seen), rho[|rho| - 1])
  }

  // ---------------------------------------------------------------- truth

  /** What the running claim should be, given the leaves `t` of `n` variables. */
  ghost function Truth(K: Field, t: Cube, n: nat, v: Verifier): Elem
    requires v.Running? && |v.bound| <= |v.point| <= n && Full(t, n)
    requires |v.bound| == 0 || |v.point| < n
  {
    if |v.bound| == 0 then Top(K, Layer(K, t, n, |v.point|), v.point)
    else
      var below := Layer(K, t, n, |v.point| + 1);
      BindTopAllFull(K, below.lo, v.bound, |v.point|);
      BindTopAllFull(K, below.hi, v.bound, |v.point|);
      K.mul(v.prefix, Triple(K, v.point[|v.bound|..], BindTopAll(K, below.lo, v.bound), BindTopAll(K, below.hi, v.bound)))
  }

  /** The same in one form for every state inside a layer. */
  lemma {:induction false} TruthInLayer(K: Field, t: Cube, n: nat, v: Verifier)
    requires K.Valid() && v.Running? && |v.bound| <= |v.point| < n && Full(t, n)
    requires |v.bound| == 0 ==> v.prefix == K.one
    ensures var below := Layer(K, t, n, |v.point| + 1);
      var l, r := BindTopAll(K, below.lo, v.bound), BindTopAll(K, below.hi, v.bound);
      Full(l, |v.point| - |v.bound|) && Full(r, |v.point| - |v.bound|)
      && Truth(K, t, n, v) == K.mul(v.prefix, Triple(K, v.point[|v.bound|..], l, r))
  {
    var below := Layer(K, t, n, |v.point| + 1);
    BindTopAllFull(K, below.lo, v.bound, |v.point|);
    BindTopAllFull(K, below.hi, v.bound, |v.point|);
    if |v.bound| == 0 {
      assert v.point[0..] == v.point;
      TripleIsTop(K, v.point, below.lo, below.hi);
      K.Units(Triple(K, v.point, below.lo, below.hi));
    }
  }
}
