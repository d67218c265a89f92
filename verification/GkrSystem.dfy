/** The batched grand product from end to end: the circuit's layers, the prover over all of them, and
    what the two parties agree on. */
module GkrSystem {
  import opened FiniteField
  import opened Multilinear
  import opened Powers
  import opened Cubes
  import opened ChallengeCounting
  import opened Transcript
  import opened Sumcheck
  import opened SumcheckProtocol
  import opened Gkr
  import opened GkrTheorems
  import opened GkrVerifier
  import opened GkrProver

  // ---------------------------------------------------------------- the circuit

  ghost function Products(K: Field, l: seq<Elem>, r: seq<Elem>): (s: seq<Elem>)
    requires |l| == |r|
    ensures |s| == |l| && forall i :: 0 <= i < |s| ==> s[i] == K.mul(l[i], r[i])
  {
    seq(|l|, i requires 0 <= i < |l| => K.mul(l[i], r[i]))
  }

  lemma {:induction false} ProductsCube(K: Field, l: seq<Elem>, r: seq<Elem>, n: nat)
    requires |l| == |r| == Pow2(n)
    ensures CubeOf(Products(K, l, r), n) == Times(K, CubeOf(l, n), CubeOf(r, n))
  {
    if n > 0 {
      var h := Pow2(n - 1);
      ProductsCube(K, l[..h], r[..h], n - 1);
      ProductsCube(K, l[h..], r[h..], n - 1);
      assert Products(K, l, r)[..h] == Products(K, l[..h], r[..h]) && Products(K, l, r)[h..] == Products(K, l[h..], r[h..]);
    }
  }

  /** Tables of the layers `n`, `n - 1`, ... in the order the circuit stores them. */
  ghost predicate LayerTables(K: Field, t: Cube, n: nat, witnesses: seq<seq<Elem>>)
    requires Full(t, n)
  {
    |witnesses| <= n && forall i :: 0 <= i < |witnesses| ==> TableOf(K, t, n, n - i, witnesses[i])
  }

  ghost predicate TableOf(K: Field, t: Cube, n: nat, m: nat, table: seq<Elem>)
    requires Full(t, n) && m <= n
  {
    |table| == Pow2(m) && CubeOf(table, m) == Layer(K, t, n, m)
  }

  lemma {:induction false} NextTable(K: Field, t: Cube, n: nat, m: nat, table: seq<Elem>)
    requires Full(t, n) && m < n && TableOf(K, t, n, m + 1, table)
    ensures TableOf(K, t, n, m, Products(K, table[..Pow2(m)], table[Pow2(m)..]))
  {
    var h := Pow2(m);
    CubeOfConcat(table[..h], table[h..], m);
    assert table[..h] + table[h..] == table;
    ProductsCube(K, table[..h], table[h..], m);
  }

  method MultiplyHalves(K: Field, table: seq<Elem>) returns (eval: seq<Elem>)
    requires |table| % 2 == 0
    ensures eval == Products(K, table[..|table| / 2], table[|table| / 2..])
  {
    var mid := |table| / 2;
    var l, r := table[..mid], table[mid..];
    eval := [];
    for i := 0 to mid
      invariant eval == Products(K, l, r)[..i]
    {
      eval := eval + [K.mul(l[i], r[i])];
    }
  }

  lemma {:induction false} TableSplits(K: Field, t: Cube, n: nat, m: nat, table: seq<Elem>)
    requires Full(t, n) && m <= n && TableOf(K, t, n, m, table) && |table| > 1
    ensures m > 0 && |table| % 2 == 0 && |table| / 2 == Pow2(m - 1)
  {
    assert Pow2(0) == 1;
    Pow2Even(m);
  }

  /** Halves the leaves until one output per group is left, keeping every layer but the output. */
  method BatchedEval(K: Field, leaves: seq<Elem>, ghost n: nat, groups: nat)
      returns (output: seq<Elem>, witnesses: seq<seq<Elem>>)
    requires |leaves| == Pow2(n) && groups > 0
    ensures var t, g := CubeOf(leaves, n), n - |witnesses|;
      && LayerTables(K, t, n, witnesses) && TableOf(K, t, n, g, output)
      && |output| <= groups && (|witnesses| > 0 ==> groups < 2 * |output|)
  {
    hide CubeOf, Layer, Products, Pow2;
    ghost var t, m := CubeOf(leaves, n), n;
    output, witnesses := leaves, [];
    LeavesTable(K, leaves, n);
    while |output| > groups
      invariant m == n - |witnesses| && |witnesses| <= n
      invariant TableOf(K, t, n, m, output) && LayerTables(K, t, n, witnesses)
      invariant |witnesses| > 0 ==> groups < 2 * |output|
      decreases m
    {
      TableSplits(K, t, n, m, output);
      m := m - 1;
      NextTable(K, t, n, m, output);
      var eval := MultiplyHalves(K, output);
      witnesses, output := witnesses + [output], eval;
    }
  }

  lemma {:induction false} LeavesTable(K: Field, leaves: seq<Elem>, n: nat)
    requires |leaves| == Pow2(n)
    ensures TableOf(K, CubeOf(leaves, n), n, n, leaves)
  {
  }

  // ---------------------------------------------------------------- the prover over all layers

  lemma {:induction false} HonestConcat(K: Field, t: Cube, n: nat, v: Verifier, a: seq<Elem>, b: seq<Elem>)
    requires Full(t, n)
    ensures HonestRun(K, t, n, v, a + b) == HonestRun(K, t, n, HonestRun(K, t, n, v, a), b)
    ensures HonestLayerRecords(K, t, n, v, a + b)
      == HonestLayerRecords(K, t, n, v, a) + HonestLayerRecords(K, t, n, HonestRun(K, t, n, v, a), b)
    decreases |b|
  {
    hide HonestRun, HonestLayerRecords;
    if |b| == 0 {
      HonestNothing(K, t, n, v, a);
      HonestNothing(K, t, n, HonestRun(K, t, n, v, a), []);
      assert a + b == a && b == [];
    } else {
      var i := |b| - 1;
      HonestConcat(K, t, n, v, a, b[..i]);
      HonestLast(K, t, n, v, a + b);
      HonestLast(K, t, n, HonestRun(K, t, n, v, a), b);
      assert (a + b)[..|a + b| - 1] == a + b[..i];
    }
  }

  lemma {:induction false} HonestNothing(K: Field, t: Cube, n: nat, v: Verifier, a: seq<Elem>)
    requires Full(t, n)
    ensures HonestRun(K, t, n, v, []) == v && HonestLayerRecords(K, t, n, v, []) == []
    ensures HonestLayerRecords(K, t, n, v, a) + [] == HonestLayerRecords(K, t, n, v, a)
  {
  }

  /** The state and the records after the last challenge depend on the state before it. */
  lemma {:induction false} HonestLast(K: Field, t: Cube, n: nat, v: Verifier, rho: seq<Elem>)
    requires Full(t, n) && |rho| > 0
    ensures var seen, c := rho[..|rho| - 1], rho[|rho| - 1];
      var w := HonestRun(K, t, n, v, seen);
      && HonestRun(K, t, n, v, rho) == HonestAfter(K, t, n, w, c)
      && HonestLayerRecords(K, t, n, v, rho) == HonestLayerRecords(K, t, n, v, seen) + HonestPair(K, t, n, w)
  {
    hide Step, HonestMessage;
  }

  ghost function HonestAfter(K: Field, t: Cube, n: nat, w: Verifier, c: Elem): Verifier
    requires Full(t, n)
  {
    if InLayer(t, n, w) then Step(K, w, HonestMessage(K, t, n, w), c) else w
  }

  ghost function HonestPair(K: Field, t: Cube, n: nat, w: Verifier): seq<Elem>
    requires Full(t, n)
  {
    var m := if InLayer(t, n, w) then HonestMessage(K, t, n, w) else (K.zero, K.zero);
    [m.0, m.1]
  }

  /** Where the honest run stands after whole layers. */
  lemma {:induction false} HonestAtLayer(K: Field, t: Cube, n: nat, v: Verifier, m: nat, i: nat, rho: seq<Elem>)
    requires K.Valid() && Full(t, n) && m + i <= n && |rho| == Steps(m, i) && OnTrack(K, t, n, v, m, 0)
    ensures var w := HonestRun(K, t, n, v, rho);
      OnTrack(K, t, n, w, m + i, 0) && w == Start(K, w.point, Top(K, Layer(K, t, n, m + i), w.point))
  {
    hide Steps, HonestRun, Phase, Layer;
    StepsMonotone(m, i, n - m);
    HonestRunTrue(K, t, n, v, m, rho);
    WholeRun(m, i);
  }

  /** Appending one layer to the honest run. */
  lemma {:induction false} HonestNextLayer(K: Field, t: Cube, n: nat, v: Verifier, challenges: nat -> Elem, from: nat, m: nat, i: nat)
    requires K.Valid() && Full(t, n) && m + i < n && OnTrack(K, t, n, v, m, 0)
    ensures Steps(m, i + 1) == Steps(m, i) + m + i + 1
    ensures var seen := Drawn(challenges, from, Steps(m, i));
      var rho := Drawn(challenges, from + Steps(m, i), m + i + 1);
      var w := HonestRun(K, t, n, v, seen);
      && w.Running? && |w.point| == m + i && w == Start(K, w.point, Top(K, Layer(K, t, n, m + i), w.point))
      && HonestRun(K, t, n, v, Drawn(challenges, from, Steps(m, i + 1))) == HonestRun(K, t, n, w, rho)
      && HonestLayerRecords(K, t, n, v, Drawn(challenges, from, Steps(m, i + 1)))
        == HonestLayerRecords(K, t, n, v, seen) + HonestLayerRecords(K, t, n, w, rho)
  {
    hide Steps, HonestRun, HonestLayerRecords, Layer, Truth;
    var seen := Drawn(challenges, from, Steps(m, i));
    StepsAtEnd(m, i);
    DrawnConcat(challenges, from, Steps(m, i), m + i + 1);
    HonestAtLayer(K, t, n, v, m, i, seen);
    HonestConcat(K, t, n, v, seen, Drawn(challenges, from + Steps(m, i), m + i + 1));
  }

  function Max(a: nat, b: nat): nat {
    if a < b then b else a
  }

  /** All layers, smallest first. With no layer the claim returned is zero. */
  method GpgkrProve(K: Field, ps: ProverState, logBits: nat, point: seq<Elem>, witnesses: seq<seq<Elem>>, ghost t: Cube, ghost n: nat)
      returns (leaf: seq<Elem>, claim: Elem)
    requires K.Valid() && Full(t, n) && n <= Max(logBits, 2)
    requires |point| + |witnesses| == n && LayerTables(K, t, n, witnesses)
    modifies ps
    ensures var v := Start(K, Reverse(point), Top(K, Layer(K, t, n, |point|), Reverse(point)));
      var rho := Drawn(ps.challenges, old(ps.drawn), Steps(|point|, n - |point|));
      var w := HonestRun(K, t, n, v, rho);
      && ps.records == old(ps.records) + HonestLayerRecords(K, t, n, v, rho)
      && w.Running? && leaf == Reverse(w.point)
      && claim == if |witnesses| == 0 then K.zero else w.claim
    ensures ps.drawn == old(ps.drawn) + Steps(|point|, n - |point|)
  {
    hide HonestRun, HonestLayerRecords, Layer, Top, Steps, Drawn, LayerTables, Pow2;
    ghost var m, from, records := |point|, ps.drawn, ps.records;
    ghost var v := Start(K, Reverse(point), Top(K, Layer(K, t, n, m), Reverse(point)));
    var storage := new Elem[Pow2(Max(if logBits > 0 then logBits - 1 else 0, 1))](_ => K.zero);
    var top := Reverse(point);
    claim := K.zero;
    HonestStarts(K, t, n, v, ps.challenges, from, m);
    for i := 0 to |witnesses|
      invariant |top| == m + i && ps.drawn == from + Steps(m, i) && fresh(storage)
      invariant HonestRun(K, t, n, v, Drawn(ps.challenges, from, Steps(m, i)))
        == Start(K, top, Top(K, Layer(K, t, n, m + i), top))
      invariant claim == if i == 0 then K.zero else Top(K, Layer(K, t, n, m + i), top)
      invariant ps.records == records + HonestLayerRecords(K, t, n, v, Drawn(ps.challenges, from, Steps(m, i)))
    {
      TableAt(K, t, n, witnesses, |witnesses| - 1 - i);
      var table := witnesses[|witnesses| - 1 - i];
      var w := new Elem[|table|](k requires 0 <= k < |table| => table[k]);
      assert w[..] == table;
      StorageFits(n, m + i, logBits);
      HonestNextLayer(K, t, n, v, ps.challenges, from, m, i);
      AfterLayer(K, t, n, v, ps.challenges, from, m, i + 1);
      top, claim := ProveLayer(K, ps, storage, top, w, t, n);
    }
    leaf := Reverse(top);
  }

  lemma {:induction false} HonestStarts(K: Field, t: Cube, n: nat, v: Verifier, challenges: nat -> Elem, from: nat, m: nat)
    requires Full(t, n)
    ensures Steps(m, 0) == 0
    ensures HonestRun(K, t, n, v, Drawn(challenges, from, 0)) == v
    ensures HonestLayerRecords(K, t, n, v, Drawn(challenges, from, 0)) == []
  {
  }

  lemma {:induction false} TableAt(K: Field, t: Cube, n: nat, witnesses: seq<seq<Elem>>, i: nat)
    requires Full(t, n) && LayerTables(K, t, n, witnesses) && i < |witnesses|
    ensures TableOf(K, t, n, n - i, witnesses[i])
  {
  }

  lemma {:induction false} StorageFits(n: nat, k: nat, logBits: nat)
    requires k < n && n <= Max(logBits, 2)
    ensures Pow2(k) <= Pow2(Max(if logBits > 0 then logBits - 1 else 0, 1))
  {
    Pow2Monotone(k, Max(if logBits > 0 then logBits - 1 else 0, 1));
  }

  lemma {:induction false} AfterLayer(K: Field, t: Cube, n: nat, v: Verifier, challenges: nat -> Elem, from: nat, m: nat, i: nat)
    requires K.Valid() && Full(t, n) && m + i <= n && OnTrack(K, t, n, v, m, 0)
    ensures var w := HonestRun(K, t, n, v, Drawn(challenges, from, Steps(m, i)));
      w.Running? && |w.point| == m + i && w == Start(K, w.point, Top(K, Layer(K, t, n, m + i), w.point))
  {
    HonestAtLayer(K, t, n, v, m, i, Drawn(challenges, from, Steps(m, i)));
  }

  // ---------------------------------------------------------------- the two together

  /** Completeness of the pair: on the prover's records the verifier, started on the output table's
      extension, returns the point the prover returned and the leaves' extension there. The claim the
      prover returned is that value too, unless there is no layer at all, when it is zero. */
  lemma {:induction false} ProverMeetsVerifier(K: Field, leaves: seq<Elem>, n: nat, point: seq<Elem>, rho: seq<Elem>, more: seq<Elem>)
    requires K.Valid() && |leaves| == Pow2(n) && |point| <= n && |rho| == Steps(|point|, n - |point|)
    ensures var t := CubeOf(leaves, n);
      var v := Start(K, Reverse(point), Extension(K, Layer(K, t, n, |point|), point));
      var w := Outcome(K, v, HonestLayerRecords(K, t, n, v, rho) + more, rho);
      && w.Running? && w == HonestRun(K, t, n, v, rho)
      && |w.point| == n && w.claim == Mle(K, leaves, Reverse(w.point))
  {
    hide Steps, HonestRun, HonestLayerRecords, Replay, Layer, Reverse, Top, Extension, Mle;
    var t, z := CubeOf(leaves, n), Reverse(point);
    ReverseTwice(point);
    TopIsExtension(K, Layer(K, t, n, |point|), z);
    var v := Start(K, z, Top(K, Layer(K, t, n, |point|), z));
    HonestReplay(K, t, n, v, |point|, rho, more);
    HonestAccepted(K, t, n, point, rho, more);
    ExtensionIsMle(K, leaves, Reverse(Outcome(K, v, HonestLayerRecords(K, t, n, v, rho) + more, rho).point));
  }

  /** The challenge vectors on which the verifier accepts an adaptive prover's records and returns a
      claim that is true of the leaves. */
  ghost function FalselyAccepted(K: Field, leaves: seq<Elem>, n: nat, point: seq<Elem>, claim: Elem, strategy: Strategy): set<seq<Elem>>
    requires |leaves| == Pow2(n) && |point| <= n
  {
    set rho | rho in Vectors(K, Steps(|point|, n - |point|))
      && var w := Outcome(K, Start(K, Reverse(point), claim), Played(strategy, rho), rho);
         w.Running? && |w.point| == n && |w.bound| == 0 && w.claim == Mle(K, leaves, Reverse(w.point))
  }

  /** Soundness of the program over all its layers. */
  lemma {:induction false} GpgkrSoundness(K: Field, leaves: seq<Elem>, n: nat, point: seq<Elem>, claim: Elem, strategy: Strategy)
    requires K.Valid() && |leaves| == Pow2(n) && |point| <= n
    requires claim != Extension(K, Layer(K, CubeOf(leaves, n), n, |point|), point)
    ensures AtMost(K, Steps(|point|, n - |point|), FalselyAccepted(K, leaves, n, point, claim, strategy),
      ErrorBound(|point|, n - |point|))
  {
    hide Steps, Run, Layer, Reverse, Top, Extension, Mle, AtMost, ErrorBound, Vectors;
    var t, z := CubeOf(leaves, n), Reverse(point);
    ReverseTwice(point);
    TopIsExtension(K, Layer(K, t, n, |point|), z);
    GkrTheorems.Soundness(K, t, n, z, claim, strategy);
    var F, D := FalselyAccepted(K, leaves, n, point, claim, strategy), GkrTheorems.Deceived(K, t, n, z, claim, strategy);
    forall rho | rho in F ensures rho in D {
      OutcomeOfPlayed(K, Start(K, z, claim), strategy, rho, [], |rho|);
      assert rho[..|rho|] == rho && Played(strategy, rho) + [] == Played(strategy, rho);
      var w := Run(K, Start(K, z, claim), strategy, rho);
      ExtensionIsMle(K, leaves, Reverse(w.point));
      TopIsExtension(K, t, w.point);
    }
    SubsetAtMost(K, Steps(|point|, n - |point|), F, D, ErrorBound(|point|, n - |point|));
  }
}
