/** Completeness and counting soundness of the layered reduction, over all its layers. */
module GkrTheorems {
  import opened FiniteField
  import opened Multilinear
  import opened Cubes
  import opened ChallengeCounting
  import opened Sumcheck
  import opened Gkr

  // ---------------------------------------------------------------- how long a run is

  /** Challenges drawn over `layers` layers starting from a point of `m` coordinates. */
  function Steps(m: nat, layers: nat): nat
    decreases layers
  {
    if layers == 0 then 0 else m + 1 + Steps(m + 1, layers - 1)
  }

  /** Lengths of the point and of its bound part after `i` challenges. */
  function Phase(m: nat, i: nat): (nat, nat) {
    if i == 0 then (m, 0)
    else
      var (p, b) := Phase(m, i - 1);
      if b < p then (p, b + 1) else (p + 1, 0)
  }

  /** Three lucky challenges a cubic round, one for the line that closes a layer. */
  function LuckyAt(m: nat, i: nat): nat {
    var (p, b) := Phase(m, i);
    if b < p then 3 else 1
  }

  function ErrorBound(m: nat, layers: nat): nat
    decreases layers
  {
    if layers == 0 then 0 else 3 * m + 1 + ErrorBound(m + 1, layers - 1)
  }

  /** Both in closed form: the sums of `m + i + 1` and of `3 (m + i) + 1` over the layers. */
  lemma {:induction false} ClosedForms(m: nat, layers: nat)
    ensures 2 * Steps(m, layers) == layers * (2 * m + layers + 1)
    ensures 2 * ErrorBound(m, layers) == layers * (6 * m + 3 * layers - 1)
    decreases layers
  {
    if layers > 0 {
      var l := layers - 1;
      ClosedForms(m + 1, l);
      OneMoreLayer(m, l);
    }
  }

  lemma {:induction false} OneMoreLayer(m: int, l: int)
    ensures (l + 1) * (2 * m + (l + 1) + 1) == l * (2 * (m + 1) + l + 1) + 2 * (m + 1)
    ensures (l + 1) * (6 * m + 3 * (l + 1) - 1) == l * (6 * (m + 1) + 3 * l - 1) + 2 * (3 * m + 1)
  {
  }

  ghost function LuckySequence(m: nat, k: nat): (d: seq<nat>)
    ensures |d| == k
  {
    if k == 0 then [] else LuckySequence(m, k - 1) + [LuckyAt(m, k - 1)]
  }

  lemma {:induction false} LuckySequenceAt(m: nat, k: nat, i: nat)
    requires i < k
    ensures LuckySequence(m, k)[i] == LuckyAt(m, i)
  {
    if i < k - 1 { LuckySequenceAt(m, k - 1, i); }
  }

  lemma {:induction false} FirstLayer(m: nat, i: nat)
    requires i <= m
    ensures Phase(m, i) == (m, i) && Total(LuckySequence(m, i)) == 3 * i
  {
    if i > 0 {
      FirstLayer(m, i - 1);
      assert LuckySequence(m, i)[..i - 1] == LuckySequence(m, i - 1);
    }
  }

  lemma {:induction false} NextLayer(m: nat, j: nat)
    ensures Phase(m, m + 1 + j) == Phase(m + 1, j)
    ensures Total(LuckySequence(m, m + 1 + j)) == 3 * m + 1 + Total(LuckySequence(m + 1, j))
  {
    hide Phase, LuckySequence, Total, LuckyAt;
    var k := m + j;
    TotalNext(m, k);
    if j == 0 {
      FirstLayer(m, m);
      LayerEnds(m);
      FirstLayer(m + 1, 0);
    } else {
      NextLayer(m, j - 1);
      TotalNext(m + 1, j - 1);
      SamePhase(m, k, m + 1, j - 1);
    }
  }

  lemma {:induction false} LayerEnds(m: nat)
    ensures Phase(m, m + 1) == (m + 1, 0) && LuckyAt(m, m) == 1
  {
    FirstLayer(m, m);
  }

  /** From one phase both go on alike. */
  lemma {:induction false} SamePhase(m: nat, k: nat, m': nat, k': nat)
    requires Phase(m, k) == Phase(m', k')
    ensures Phase(m, k + 1) == Phase(m', k' + 1) && LuckyAt(m, k) == LuckyAt(m', k')
  {
  }

  lemma {:induction false} TotalNext(m: nat, k: nat)
    ensures Total(LuckySequence(m, k + 1)) == Total(LuckySequence(m, k)) + LuckyAt(m, k)
  {
    hide LuckyAt;
    assert LuckySequence(m, k + 1)[..k] == LuckySequence(m, k);
  }

  lemma {:induction false} WholeRun(m: nat, layers: nat)
    ensures Phase(m, Steps(m, layers)) == (m + layers, 0)
    ensures Total(LuckySequence(m, Steps(m, layers))) == ErrorBound(m, layers)
    decreases layers
  {
    hide Phase, LuckySequence, Total;
    if layers == 0 {
      FirstLayer(m, 0);
    } else {
      WholeRun(m + 1, layers - 1);
      NextLayer(m, Steps(m + 1, layers - 1));
    }
  }

  lemma {:induction false} InsideRun(m: nat, layers: nat, i: nat)
    requires i < Steps(m, layers)
    ensures m <= Phase(m, i).0 < m + layers
    decreases layers
  {
    if i <= m {
      FirstLayer(m, i);
    } else {
      InsideRun(m + 1, layers - 1, i - m - 1);
      NextLayer(m, i - m - 1);
    }
  }

  ghost predicate Proper(v: Verifier, p: nat, b: nat) {
    v.Running? ==> |v.point| == p && |v.bound| == b && (b == 0 ==> |v.bound| == 0) && b <= p
  }

  ghost predicate Unscaled(K: Field, v: Verifier) {
    v.Running? && |v.bound| == 0 ==> v.prefix == K.one
  }

  lemma {:induction false} RunPhase(K: Field, v: Verifier, strategy: Strategy, rho: seq<Elem>, m: nat)
    requires Proper(v, m, 0) && Unscaled(K, v)
    ensures Proper(Run(K, v, strategy, rho), Phase(m, |rho|).0, Phase(m, |rho|).1)
    ensures Unscaled(K, Run(K, v, strategy, rho))
    decreases |rho|
  {
    if |rho| > 0 { RunPhase(K, v, strategy, rho[..|rho| - 1], m); }
  }

  // ---------------------------------------------------------------- one round

  /** Whatever end is sent, the two ends interpolate to the claim at `z`. */
  lemma {:induction false} EndsMeetClaim(K: Field, claim: Elem, z: Elem, sent: Elem)
    requires K.Valid()
    ensures var (sum0, sum1) := Ends(K, claim, z, sent); Lerp(K, sum0, sum1, z) == claim
  {
    var (sum0, sum1) := Ends(K, claim, z, sent);
    if z == K.zero {
      K.Units(K.add(sent, claim));
      K.Additive();
    } else {
      LerpWeights(K, sum0, sum1, z);
      K.Divide(K.add(claim, K.mul(K.add(K.one, z), sent)), z);
      K.Additive();
    }
  }

  lemma {:induction false} RoundClaimIsAdvance(K: Field, claim: Elem, z: Elem, sent: Elem, inf: Elem, r: Elem)
    requires K.Valid()
    ensures var (sum0, sum1) := Ends(K, claim, z, sent);
      RoundClaim(K, claim, z, sent, inf, r)
        == K.mul(EqFactor(K, r, z), Advance(K, K.add(sum0, sum1), sum0, inf, r))
  {
    var (sum0, sum1) := Ends(K, claim, z, sent);
    K.Dist(inf, r, K.one);
    K.Units(inf);
    assert K.add(K.add(sum1, sum0), K.mul(K.add(r, K.one), inf))
      == K.add(K.add(K.add(sum0, sum1), inf), K.mul(r, inf)) by { K.Additive(); }
  }

  ghost predicate InLayer(t: Cube, n: nat, v: Verifier) {
    v.Running? && |v.bound| <= |v.point| < n && Full(t, n)
  }

  /** The two factors of a layer, bound at the coordinates seen so far. */
  ghost function Factors(K: Field, t: Cube, n: nat, v: Verifier): (f: (Cube, Cube))
    requires InLayer(t, n, v)
    ensures Full(f.0, |v.point| - |v.bound|) && Full(f.1, |v.point| - |v.bound|)
  {
    var below := Layer(K, t, n, |v.point| + 1);
    BindTopAllFull(K, below.lo, v.bound, |v.point|);
    BindTopAllFull(K, below.hi, v.bound, |v.point|);
    (BindTopAll(K, below.lo, v.bound), BindTopAll(K, below.hi, v.bound))
  }

  /** The sums of a round without the prefix: at zero, at one and at infinity. */
  ghost function PlainSums(K: Field, t: Cube, n: nat, v: Verifier): (Elem, Elem, Elem)
    requires InLayer(t, n, v) && |v.bound| < |v.point|
  {
    var (l, r) := Factors(K, t, n, v);
    var rest := v.point[|v.bound| + 1..];
    HalvesFull(K, l.lo, l.hi, K.zero, |rest|);
    HalvesFull(K, r.lo, r.hi, K.zero, |rest|);
    (Triple(K, rest, l.lo, r.lo), Triple(K, rest, l.hi, r.hi),
     Triple(K, rest, Gap(K, l.lo, l.hi), Gap(K, r.lo, r.hi)))
  }

  /** The sums a prover owes, scaled by the equality factors of the rounds before. */
  ghost function Sums(K: Field, t: Cube, n: nat, v: Verifier): (Elem, Elem, Elem)
    requires InLayer(t, n, v) && |v.bound| < |v.point|
  {
    var s := PlainSums(K, t, n, v);
    (K.mul(v.prefix, s.0), K.mul(v.prefix, s.1), K.mul(v.prefix, s.2))
  }

  /** The honest message of a state inside a layer. */
  ghost function HonestMessage(K: Field, t: Cube, n: nat, v: Verifier): (Elem, Elem)
    requires InLayer(t, n, v)
  {
    if |v.bound| == |v.point| then (Factors(K, t, n, v).0.value, Factors(K, t, n, v).1.value)
    else
      var s := Sums(K, t, n, v);
      (if v.point[|v.bound|] == K.zero then s.1 else s.0, s.2)
  }

  lemma {:induction false} LerpScales(K: Field, k: Elem, a: Elem, b: Elem, z: Elem)
    requires K.Valid()
    ensures Lerp(K, K.mul(k, a), K.mul(k, b), z) == K.mul(k, Lerp(K, a, b, z))
  {
    K.Dist(k, b, a);
    K.Swap(z, k, K.add(b, a));
    K.Dist(k, a, K.mul(z, K.add(b, a)));
  }

  lemma {:induction false} TruthBeforeRound(K: Field, t: Cube, n: nat, v: Verifier)
    requires K.Valid() && InLayer(t, n, v) && |v.bound| < |v.point| && Unscaled(K, v)
    ensures Truth(K, t, n, v) == Lerp(K, Sums(K, t, n, v).0, Sums(K, t, n, v).1, v.point[|v.bound|])
  {
    TruthInLayer(K, t, n, v);
    var rest := v.point[|v.bound|..];
    assert rest[0] == v.point[|v.bound|] && rest[1..] == v.point[|v.bound| + 1..];
    var s := PlainSums(K, t, n, v);
    LerpScales(K, v.prefix, s.0, s.1, rest[0]);
  }

  /** The true value after one more round, as the round polynomial of the true sums. */
  lemma {:induction false} TruthAfterRound(K: Field, t: Cube, n: nat, v: Verifier, message: (Elem, Elem), c: Elem)
    requires K.Valid() && InLayer(t, n, v) && |v.bound| < |v.point|
    ensures var z, s := v.point[|v.bound|], Sums(K, t, n, v);
      Truth(K, t, n, Step(K, v, message, c)) == K.mul(EqFactor(K, c, z), Advance(K, K.add(s.0, s.1), s.0, s.2, c))
  {
    var z, rest := v.point[|v.bound|], v.point[|v.bound| + 1..];
    var f, e := v.prefix, EqFactor(K, c, z);
    var (l, r) := Factors(K, t, n, v);
    var next := v.bound + [c];
    assert next[..|v.bound|] == v.bound;
    TripleRound(K, rest, l.lo, l.hi, r.lo, r.hi, c);
    var (s0, s1, si) := PlainSums(K, t, n, v);
    var p := Advance(K, K.add(s0, s1), s0, si, c);
    assert Truth(K, t, n, Step(K, v, message, c)) == K.mul(K.mul(f, e), p);
    AdvanceScales(K, f, K.add(s0, s1), s0, si, c);
    K.Dist(f, s0, s1);
    K.Comm(f, e);
    K.Assoc(e, f, p);
  }

  /** At the end of a layer: the claim is the product of the two values, and the next one lies on the
      line through them. */
  lemma {:induction false} TruthAtLine(K: Field, t: Cube, n: nat, v: Verifier, c: Elem)
    requires K.Valid() && InLayer(t, n, v) && |v.bound| == |v.point| && Unscaled(K, v)
    ensures var (a, b) := HonestMessage(K, t, n, v);
      && Truth(K, t, n, v) == K.mul(K.mul(v.prefix, a), b)
      && (forall claim :: Truth(K, t, n, Running([c] + v.bound, [], claim, K.one)) == Lerp(K, a, b, c))
  {
    TruthInLayer(K, t, n, v);
    var below := Layer(K, t, n, |v.point| + 1);
    var (a, b) := HonestMessage(K, t, n, v);
    assert v.point[|v.bound|..] == [];
    K.Assoc(v.prefix, a, b);
    BindTopAllTop(K, below.lo, v.bound, []);
    BindTopAllTop(K, below.hi, v.bound, []);
    assert v.bound + [] == v.bound && ([c] + v.bound)[1..] == v.bound;
  }

  /** The end that is not sent is determined by the claim and the one that is. */
  lemma {:induction false} EndsUnique(K: Field, z: Elem, a: Elem, b: Elem, sent: Elem)
    requires K.Valid()
    requires sent == if z == K.zero then b else a
    ensures Ends(K, Lerp(K, a, b, z), z, sent) == (a, b)
  {
    if z == K.zero {
      K.Units(K.add(b, a));
      K.Additive();
    } else {
      LerpWeights(K, a, b, z);
      var x := K.mul(K.add(K.one, z), a);
      assert K.add(K.add(x, K.mul(z, b)), x) == K.mul(z, b) by { K.Additive(); }
      K.Swap(z, b, K.inv(z));
      K.Divide(b, z);
      K.Assoc(z, b, K.inv(z));
    }
  }

  /** From a true claim the honest message leads to a true claim, through any challenge. */
  lemma {:induction false} HonestStep(K: Field, t: Cube, n: nat, v: Verifier, c: Elem)
    requires K.Valid() && InLayer(t, n, v)
    requires Unscaled(K, v) && v.claim == Truth(K, t, n, v)
    ensures var w := Step(K, v, HonestMessage(K, t, n, v), c);
      w.Running? && |w.bound| <= |w.point| <= n && (|w.bound| == 0 || |w.point| < n)
      && w.claim == Truth(K, t, n, w)
  {
    var m := HonestMessage(K, t, n, v);
    if |v.bound| < |v.point| {
      var z, s := v.point[|v.bound|], Sums(K, t, n, v);
      TruthBeforeRound(K, t, n, v);
      TruthAfterRound(K, t, n, v, m, c);
      EndsUnique(K, z, s.0, s.1, m.0);
      RoundClaimIsAdvance(K, v.claim, z, m.0, m.1, c);
    } else {
      TruthAtLine(K, t, n, v, c);
    }
  }

  ghost function HonestRun(K: Field, t: Cube, n: nat, v: Verifier, rho: seq<Elem>): Verifier
    requires Full(t, n)
  {
    if |rho| == 0 then v
    else
      var w := HonestRun(K, t, n, v, rho[..|rho| - 1]);
      if InLayer(t, n, w) then Step(K, w, HonestMessage(K, t, n, w), rho[|rho| - 1]) else w
  }

  /** Running on the true claim, at the given phase. */
  ghost predicate OnTrack(K: Field, t: Cube, n: nat, v: Verifier, p: nat, b: nat)
    requires Full(t, n)
  {
    && v.Running? && Unscaled(K, v) && |v.point| == p && |v.bound| == b
    && b <= p <= n && (b == 0 || p < n) && v.claim == Truth(K, t, n, v)
  }

  lemma {:induction false} HonestStepPhase(K: Field, t: Cube, n: nat, v: Verifier, c: Elem, p: nat, b: nat)
    requires K.Valid() && InLayer(t, n, v) && OnTrack(K, t, n, v, p, b)
    ensures var w := Step(K, v, HonestMessage(K, t, n, v), c);
      if b < p then OnTrack(K, t, n, w, p, b + 1) else OnTrack(K, t, n, w, p + 1, 0)
  {
    HonestStep(K, t, n, v, c);
  }

  lemma {:induction false} HonestRunTrue(K: Field, t: Cube, n: nat, v: Verifier, m: nat, rho: seq<Elem>)
    requires K.Valid() && Full(t, n) && m <= n && |rho| <= Steps(m, n - m)
    requires OnTrack(K, t, n, v, m, 0)
    ensures OnTrack(K, t, n, HonestRun(K, t, n, v, rho), Phase(m, |rho|).0, Phase(m, |rho|).1)
    decreases |rho|
  {
    hide Step, HonestMessage, Truth, Unscaled, Steps;
    if |rho| > 0 {
      var seen := rho[..|rho| - 1];
      HonestRunTrue(K, t, n, v, m, seen);
      InsideRun(m, n - m, |seen|);
      var (p, b) := Phase(m, |seen|);
      HonestStepPhase(K, t, n, HonestRun(K, t, n, v, seen), rho[|rho| - 1], p, b);
    }
  }

  /** Completeness: for every leaf table, every output point and all challenges, zero coordinates
      included, the verifier started on the output's extension accepts the honest prover and ends on
      a claim that is the leaves' extension at the point both sides derive. */
  lemma {:induction false} Completeness(K: Field, t: Cube, n: nat, point: seq<Elem>, rho: seq<Elem>)
    requires K.Valid() && Full(t, n) && |point| <= n && |rho| == Steps(|point|, n - |point|)
    ensures var w := HonestRun(K, t, n, Start(K, point, Top(K, Layer(K, t, n, |point|), point)), rho);
      w.Running? && |w.point| == n && |w.bound| == 0 && w.claim == Top(K, t, w.point)
  {
    hide HonestRun, Steps, Phase, Top;
    HonestRunTrue(K, t, n, Start(K, point, Top(K, Layer(K, t, n, |point|), point)), |point|, rho);
    WholeRun(|point|, n - |point|);
  }

  // ---------------------------------------------------------------- soundness

  /** Rejected, or running on a claim that is not the true one. */
  ghost predicate Lying(K: Field, t: Cube, n: nat, v: Verifier)
    requires Full(t, n)
  {
    v.Rejected? || !(|v.bound| <= |v.point| <= n && (|v.bound| == 0 || |v.point| < n)) || v.claim != Truth(K, t, n, v)
  }

  lemma {:induction false} CancelFactor(K: Field, e: Elem, p: Elem, q: Elem)
    requires K.Valid() && K.mul(e, p) == K.mul(e, q) && e != K.zero
    ensures p == q
  {
    K.Dist(e, p, q);
    K.ZeroSum(K.mul(e, p), K.mul(e, q));
    K.NoZeroDivisors(e, K.add(p, q));
    K.ZeroSum(p, q);
  }

  /** Round polynomials recovered from two claims that differ at `z` differ in a coefficient. */
  lemma {:induction false} EndsDiffer(K: Field, claim: Elem, z: Elem, sent: Elem, s0: Elem, s1: Elem)
    requires K.Valid() && claim != Lerp(K, s0, s1, z)
    ensures var (e0, e1) := Ends(K, claim, z, sent); K.add(e0, e1) != K.add(s0, s1) || e0 != s0
  {
    var (e0, e1) := Ends(K, claim, z, sent);
    EndsMeetClaim(K, claim, z, sent);
    assert e1 == K.add(K.add(e0, e1), e0) && s1 == K.add(K.add(s0, s1), s0) by { K.Additive(); }
  }

  /** Against fixed true sums, a message sent from a false claim meets the truth on at most three
      challenges: the zero of the equality factor and two roots of a quadratic. */
  lemma {:induction false} CubicLucky(K: Field, claim: Elem, z: Elem, m: (Elem, Elem), s: (Elem, Elem, Elem), E: set<Elem>)
    requires K.Valid() && claim != Lerp(K, s.0, s.1, z)
    requires forall c :: c in E ==>
      RoundClaim(K, claim, z, m.0, m.1, c) == K.mul(EqFactor(K, c, z), Advance(K, K.add(s.0, s.1), s.0, s.2, c))
    ensures |E| <= 3
  {
    EndsDiffer(K, claim, z, m.0, s.0, s.1);
    var (e0, e1) := Ends(K, claim, z, m.0);
    var pole := K.add(K.one, z);
    forall c | c in E - {pole}
      ensures Advance(K, K.add(e0, e1), e0, m.1, c) == Advance(K, K.add(s.0, s.1), s.0, s.2, c)
    {
      RoundClaimIsAdvance(K, claim, z, m.0, m.1, c);
      assert EqFactor(K, c, z) == K.add(c, pole) by { K.Additive(); }
      K.ZeroSum(c, pole);
      CancelFactor(K, EqFactor(K, c, z), Advance(K, K.add(e0, e1), e0, m.1, c), Advance(K, K.add(s.0, s.1), s.0, s.2, c));
    }
    RoundEscapes(K, K.add(e0, e1), e0, m.1, K.add(s.0, s.1), s.0, s.2, E - {pole});
    assert E <= (E - {pole}) + {pole};
    Subset(E, (E - {pole}) + {pole});
    UnionSize(E - {pole}, {pole});
  }

  lemma {:induction false} RoundLucky(K: Field, t: Cube, n: nat, v: Verifier, message: (Elem, Elem), E: set<Elem>)
    requires K.Valid() && InLayer(t, n, v) && |v.bound| < |v.point|
    requires Unscaled(K, v) && Lying(K, t, n, v)
    requires forall c :: c in E ==> !Lying(K, t, n, Step(K, v, message, c))
    ensures |E| <= 3
  {
    var z, s := v.point[|v.bound|], Sums(K, t, n, v);
    TruthBeforeRound(K, t, n, v);
    forall c | c in E
      ensures RoundClaim(K, v.claim, z, message.0, message.1, c)
        == K.mul(EqFactor(K, c, z), Advance(K, K.add(s.0, s.1), s.0, s.2, c))
    {
      TruthAfterRound(K, t, n, v, message, c);
    }
    CubicLucky(K, v.claim, z, message, s, E);
  }

  /** Two lines through different pairs of values meet in at most one point. */
  lemma {:induction false} LinesMeetOnce(K: Field, m: (Elem, Elem), a: Elem, b: Elem, E: set<Elem>)
    requires K.Valid() && m != (a, b)
    requires forall c :: c in E ==> Lerp(K, m.0, m.1, c) == Lerp(K, a, b, c)
    ensures |E| <= 1
  {
    var x, y := K.add(m.0, a), K.add(m.1, b);
    K.ZeroSum(m.0, a);
    K.ZeroSum(m.1, b);
    K.ZeroSum(y, x);
    forall c | c in E ensures K.add(x, K.mul(c, K.add(y, x))) == K.zero {
      LerpAdds(K, m.0, m.1, a, b, c);
      K.ZeroSum(Lerp(K, m.0, m.1, c), Lerp(K, a, b, c));
    }
    AtMostOneRoot(K, x, K.add(y, x), E);
  }

  /** At the end of a layer at most one challenge makes the line through two wrong values right. */
  lemma {:induction false} LineLucky(K: Field, t: Cube, n: nat, v: Verifier, message: (Elem, Elem), E: set<Elem>)
    requires K.Valid() && InLayer(t, n, v) && |v.bound| == |v.point|
    requires Unscaled(K, v) && Lying(K, t, n, v)
    requires forall c :: c in E ==> !Lying(K, t, n, Step(K, v, message, c))
    ensures |E| <= 1
  {
    TruthAtLine(K, t, n, v, K.zero);
    var (a, b) := HonestMessage(K, t, n, v);
    if message == (a, b) {
      assert forall c :: Step(K, v, message, c).Rejected?;
      assert E == {};
    } else {
      forall c | c in E ensures Lerp(K, message.0, message.1, c) == Lerp(K, a, b, c) {
        TruthAtLine(K, t, n, v, c);
      }
      LinesMeetOnce(K, message, a, b, E);
    }
  }

  lemma {:induction false} RunNext(K: Field, v: Verifier, strategy: Strategy, rho: seq<Elem>, c: Elem)
    ensures Run(K, v, strategy, rho + [c]) == Step(K, Run(K, v, strategy, rho), strategy(rho), c)
  {
    assert (rho + [c])[..|rho|] == rho;
  }

  lemma {:induction false} StateLucky(K: Field, t: Cube, n: nat, v: Verifier, message: (Elem, Elem), p: nat, b: nat, E: set<Elem>)
    requires K.Valid() && Full(t, n) && p < n && Proper(v, p, b) && Unscaled(K, v)
    requires Lying(K, t, n, v)
    requires forall c :: c in E ==> !Lying(K, t, n, Step(K, v, message, c))
    ensures |E| <= if b < p then 3 else 1
  {
    if v.Rejected? {
      assert forall c :: Step(K, v, message, c).Rejected?;
      assert E == {};
    } else if b < p {
      RoundLucky(K, t, n, v, message, E);
    } else {
      LineLucky(K, t, n, v, message, E);
    }
  }

  lemma {:induction false} StepLucky(K: Field, t: Cube, n: nat, v: Verifier, m: nat, strategy: Strategy, rho: seq<Elem>, E: set<Elem>)
    requires K.Valid() && Full(t, n) && m <= n && |rho| < Steps(m, n - m)
    requires Proper(v, m, 0) && Unscaled(K, v)
    requires Lying(K, t, n, Run(K, v, strategy, rho))
    requires forall c :: c in E ==> !Lying(K, t, n, Run(K, v, strategy, rho + [c]))
    ensures |E| <= LuckyAt(m, |rho|)
  {
    var w, message := Run(K, v, strategy, rho), strategy(rho);
    RunPhase(K, v, strategy, rho, m);
    InsideRun(m, n - m, |rho|);
    forall c | c in E ensures !Lying(K, t, n, Step(K, w, message, c)) {
      RunNext(K, v, strategy, rho, c);
    }
    var (p, b) := Phase(m, |rho|);
    StateLucky(K, t, n, w, message, p, b, E);
  }

  /** Whether a prover is still lying, as a predicate on the challenges. */
  ghost function LyingAfter(K: Field, t: Cube, n: nat, v: Verifier, strategy: Strategy): seq<Elem> -> bool
    requires Full(t, n)
  {
    r => Lying(K, t, n, Run(K, v, strategy, r))
  }

  lemma {:induction false} FewLuckyAfter(K: Field, t: Cube, n: nat, v: Verifier, m: nat, strategy: Strategy, r: seq<Elem>)
    requires K.Valid() && Full(t, n) && m <= n && |r| < Steps(m, n - m)
    requires Proper(v, m, 0) && Unscaled(K, v)
    requires Lying(K, t, n, Run(K, v, strategy, r))
    ensures |Lucky(K, LyingAfter(K, t, n, v, strategy), r)| <= LuckySequence(m, Steps(m, n - m))[|r|]
  {
    StepLucky(K, t, n, v, m, strategy, r, Lucky(K, LyingAfter(K, t, n, v, strategy), r));
    LuckySequenceAt(m, Steps(m, n - m), |r|);
  }

  lemma {:induction false} AlwaysFewLucky(K: Field, t: Cube, n: nat, v: Verifier, m: nat, strategy: Strategy)
    requires K.Valid() && Full(t, n) && m <= n
    requires Proper(v, m, 0) && Unscaled(K, v)
    ensures LuckyAtMost(K, Steps(m, n - m), LyingAfter(K, t, n, v, strategy), LuckySequence(m, Steps(m, n - m)))
  {
    var T, lie := Steps(m, n - m), LyingAfter(K, t, n, v, strategy);
    forall r: seq<Elem> | |r| < T && lie(r) ensures |Lucky(K, lie, r)| <= LuckySequence(m, T)[|r|] {
      FewLuckyAfter(K, t, n, v, m, strategy, r);
    }
  }

  lemma {:induction false} FewEscape(K: Field, t: Cube, n: nat, v: Verifier, m: nat, strategy: Strategy, D: set<seq<Elem>>)
    requires K.Valid() && Full(t, n) && m <= n
    requires Proper(v, m, 0) && Unscaled(K, v) && Lying(K, t, n, v)
    requires D <= Escapes(K, Steps(m, n - m), LyingAfter(K, t, n, v, strategy))
    ensures AtMost(K, Steps(m, n - m), D, ErrorBound(m, n - m))
  {
    AlwaysFewLucky(K, t, n, v, m, strategy);
    WholeRun(m, n - m);
    var T, lie := Steps(m, n - m), LyingAfter(K, t, n, v, strategy);
    EscapeBound(K, T, lie, LuckySequence(m, T), ErrorBound(m, n - m));
    SubsetAtMost(K, T, D, Escapes(K, T, lie), ErrorBound(m, n - m));
  }

  /** The challenge vectors on which a strategy is not rejected and ends on a true leaf claim. */
  ghost function Deceived(K: Field, t: Cube, n: nat, point: seq<Elem>, claim: Elem, strategy: Strategy): set<seq<Elem>>
    requires Full(t, n) && |point| <= n
  {
    set rho | rho in Vectors(K, Steps(|point|, n - |point|))
      && var w := Run(K, Start(K, point, claim), strategy, rho);
         w.Running? && |w.point| == n && |w.bound| == 0 && w.claim == Top(K, t, w.point)
  }

  lemma {:induction false} DeceivedEscape(K: Field, t: Cube, n: nat, point: seq<Elem>, claim: Elem, strategy: Strategy)
    requires Full(t, n) && |point| <= n
    ensures Deceived(K, t, n, point, claim, strategy)
      <= Escapes(K, Steps(|point|, n - |point|), LyingAfter(K, t, n, Start(K, point, claim), strategy))
  {
  }

  /** Soundness over all layers: from a false claim about the output, any adaptive prover leads to a
      true claim about the leaves on at most `ErrorBound * N^(T-1)` of the `N^T` challenge vectors,
      counting `3m + 1` for a layer whose point has `m` coordinates. */
  lemma {:induction false} Soundness(K: Field, t: Cube, n: nat, point: seq<Elem>, claim: Elem, strategy: Strategy)
    requires K.Valid() && Full(t, n) && |point| <= n
    requires claim != Top(K, Layer(K, t, n, |point|), point)
    ensures AtMost(K, Steps(|point|, n - |point|), Deceived(K, t, n, point, claim, strategy), ErrorBound(|point|, n - |point|))
  {
    hide Deceived, Layer, Run, Steps, ErrorBound, Power, LyingAfter;
    DeceivedEscape(K, t, n, point, claim, strategy);
    FewEscape(K, t, n, Start(K, point, claim), |point|, strategy, Deceived(K, t, n, point, claim, strategy));
  }

  /** One layer: at most `(3m + 1) N^m` of the `N^(m+1)` challenge vectors. */
  lemma {:induction false} LayerSoundness(K: Field, t: Cube, m: nat, point: seq<Elem>, claim: Elem, strategy: Strategy)
    requires K.Valid() && Full(t, m + 1) && |point| == m
    requires claim != Top(K, Layer(K, t, m + 1, m), point)
    ensures AtMost(K, m + 1, Deceived(K, t, m + 1, point, claim, strategy), 3 * m + 1)
  {
    Soundness(K, t, m + 1, point, claim, strategy);
    assert Steps(m, 1) == m + 1 && ErrorBound(m, 1) == 3 * m + 1;
  }
}
