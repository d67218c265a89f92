/** The two parties of the sumcheck, over a transcript. */
module SumcheckProtocol {
  import opened Wrappers
  import opened FiniteField
  import opened Multilinear
  import opened Powers
  import opened Cubes
  import opened ChallengeCounting
  import opened Transcript
  import opened Sumcheck

  // ---------------------------------------------------------------- tables and trees

  /** Both coefficients over the pairs of entries from `from` to `to`. */
  ghost function ConstantSum(K: Field, w: seq<Elem>, v: seq<Elem>, n: nat): Elem
    requires 2 * n <= |w| && 2 * n <= |v|
  {
    if n == 0 then K.zero
    else K.add(ConstantSum(K, w, v, n - 1), K.mul(w[2 * n - 2], v[2 * n - 2]))
  }

  ghost function LeadingSum(K: Field, w: seq<Elem>, v: seq<Elem>, n: nat): Elem
    requires 2 * n <= |w| && 2 * n <= |v|
  {
    if n == 0 then K.zero
    else K.add(LeadingSum(K, w, v, n - 1),
               K.mul(K.add(w[2 * n - 2], w[2 * n - 1]), K.add(v[2 * n - 2], v[2 * n - 1])))
  }

  lemma {:induction false} SumsConcat(K: Field, w: seq<Elem>, v: seq<Elem>, w': seq<Elem>, v': seq<Elem>, n: nat, m: nat)
    requires K.Valid() && |w| == |v| == 2 * n && 2 * m <= |w'| && 2 * m <= |v'|
    ensures ConstantSum(K, w + w', v + v', n + m) == K.add(ConstantSum(K, w, v, n), ConstantSum(K, w', v', m))
    ensures LeadingSum(K, w + w', v + v', n + m) == K.add(LeadingSum(K, w, v, n), LeadingSum(K, w', v', m))
  {
    if m == 0 {
      SumsPrefix(K, w, v, w', v', n);
      K.Additive();
    } else {
      SumsConcat(K, w, v, w', v', n, m - 1);
      assert K.AddAssociates(ConstantSum(K, w, v, n), ConstantSum(K, w', v', m - 1), K.mul(w'[2 * m - 2], v'[2 * m - 2]));
      assert K.AddAssociates(LeadingSum(K, w, v, n), LeadingSum(K, w', v', m - 1),
        K.mul(K.add(w'[2 * m - 2], w'[2 * m - 1]), K.add(v'[2 * m - 2], v'[2 * m - 1])));
    }
  }

  lemma {:induction false} SumsPrefix(K: Field, w: seq<Elem>, v: seq<Elem>, w': seq<Elem>, v': seq<Elem>, n: nat)
    requires 2 * n <= |w| && |w| == |v|
    ensures ConstantSum(K, w + w', v + v', n) == ConstantSum(K, w, v, n)
    ensures LeadingSum(K, w + w', v + v', n) == LeadingSum(K, w, v, n)
  {
    if n > 0 { SumsPrefix(K, w, v, w', v', n - 1); }
  }

  lemma {:induction false} TreeSplit(K: Field, w: Cube, v: Cube, n: nat)
    requires n > 1 && Full(w, n) && Full(v, n)
    ensures Constant(K, w, v) == K.add(Constant(K, w.lo, v.lo), Constant(K, w.hi, v.hi))
    ensures Leading(K, w, v) == K.add(Leading(K, w.lo, v.lo), Leading(K, w.hi, v.hi))
  {
  }

  lemma {:induction false} OnePair(K: Field, w: seq<Elem>, v: seq<Elem>)
    requires K.Valid() && |w| == |v| == 2
    ensures ConstantSum(K, w, v, 1) == Constant(K, CubeOf(w, 1), CubeOf(v, 1))
    ensures LeadingSum(K, w, v, 1) == Leading(K, CubeOf(w, 1), CubeOf(v, 1))
  {
    K.Additive();
    assert ConstantSum(K, w, v, 1) == K.add(K.zero, K.mul(w[0], v[0]));
    assert LeadingSum(K, w, v, 1) == K.add(K.zero, K.mul(K.add(w[0], w[1]), K.add(v[0], v[1])));
    assert CubeOf(w, 1) == Node(Leaf(w[0]), Leaf(w[1])) && CubeOf(v, 1) == Node(Leaf(v[0]), Leaf(v[1])) by {
      assert w[..1] == [w[0]] && w[1..] == [w[1]] && v[..1] == [v[0]] && v[1..] == [v[1]];
    }
  }

  lemma {:induction false} SumsAreTrees(K: Field, w: seq<Elem>, v: seq<Elem>, n: nat)
    requires K.Valid() && |w| == |v| == Pow2(n + 1)
    ensures ConstantSum(K, w, v, Pow2(n)) == Constant(K, CubeOf(w, n + 1), CubeOf(v, n + 1))
    ensures LeadingSum(K, w, v, Pow2(n)) == Leading(K, CubeOf(w, n + 1), CubeOf(v, n + 1))
  {
    hide ConstantSum, LeadingSum, Constant, Leading, CubeOf;
    if n == 0 {
      OnePair(K, w, v);
    } else {
      var h, k := Pow2(n), Pow2(n - 1);
      var w0, w1, v0, v1 := w[..h], w[h..], v[..h], v[h..];
      SumsAreTrees(K, w0, v0, n - 1);
      SumsAreTrees(K, w1, v1, n - 1);
      SumsConcat(K, w0, v0, w1, v1, k, k);
      assert w0 + w1 == w && v0 + v1 == v;
      CubeOfConcat(w0, w1, n);
      CubeOfConcat(v0, v1, n);
      TreeSplit(K, CubeOf(w, n + 1), CubeOf(v, n + 1), n + 1);
    }
  }

  lemma {:induction false} InnerIsDot(K: Field, w: seq<Elem>, v: seq<Elem>, n: nat)
    requires K.Valid() && |w| == |v| == Pow2(n)
    ensures Inner(K, CubeOf(w, n), CubeOf(v, n)) == Dot(K, w, v)
  {
    if n == 0 {
      assert Dot(K, w, v) == K.add(Dot(K, w[..0], v[..0]), K.mul(w[0], v[0]));
      K.Additive();
    } else {
      var h := Pow2(n - 1);
      InnerIsDot(K, w[..h], v[..h], n - 1);
      InnerIsDot(K, w[h..], v[h..], n - 1);
      DotConcat(K, w[..h], v[..h], w[h..], v[h..]);
      assert w[..h] + w[h..] == w && v[..h] + v[h..] == v;
    }
  }

  // ---------------------------------------------------------------- the prover

  /** Public weights and the prover's values, folded together as the rounds bind them. */
  class Pair {
    var weights: seq<Elem>
    var values: seq<Elem>

    constructor (weights: seq<Elem>, values: seq<Elem>)
      ensures this.weights == weights && this.values == values
    {
      this.weights, this.values := weights, values;
    }

    method Message(K: Field, ghost n: nat) returns (a0: Elem, a2: Elem)
      requires K.Valid() && |weights| == |values| == Pow2(n + 1)
      ensures a0 == Constant(K, CubeOf(weights, n + 1), CubeOf(values, n + 1))
      ensures a2 == Leading(K, CubeOf(weights, n + 1), CubeOf(values, n + 1))
    {
      a0, a2 := K.zero, K.zero;
      for i := 0 to |weights| / 2
        invariant a0 == ConstantSum(K, weights, values, i) && a2 == LeadingSum(K, weights, values, i)
      {
        var w0, w1, v0, v1 := weights[2 * i], weights[2 * i + 1], values[2 * i], values[2 * i + 1];
        a0 := K.add(a0, K.mul(w0, v0));
        a2 := K.add(a2, K.mul(K.add(w0, w1), K.add(v0, v1)));
      }
      SumsAreTrees(K, weights, values, n);
    }

    method Fold(K: Field, challenge: Elem, ghost n: nat)
      requires K.Valid() && |weights| == |values| == Pow2(n + 1)
      modifies this
      ensures |weights| == |values| == Pow2(n)
      ensures CubeOf(weights, n) == BindLow(K, CubeOf(old(weights), n + 1), challenge)
      ensures CubeOf(values, n) == BindLow(K, CubeOf(old(values), n + 1), challenge)
    {
      FoldedCube(K, weights, n, challenge);
      FoldedCube(K, values, n, challenge);
      weights := FoldTable(K, weights, challenge);
      values := FoldTable(K, values, challenge);
    }
  }

  method FoldTable(K: Field, table: seq<Elem>, challenge: Elem) returns (folded: seq<Elem>)
    requires K.Valid()
    ensures folded == Folded(K, table, challenge)
  {
    folded := [];
    for i := 0 to |table| / 2
      invariant folded == Folded(K, table, challenge)[..i]
    {
      assert K.AddCommutes(table[2 * i], table[2 * i + 1]);
      folded := folded + [K.add(table[2 * i], K.mul(challenge, K.add(table[2 * i], table[2 * i + 1])))];
    }
  }

  /** What a strategy records against the challenges `rho`. */
  ghost function Played(strategy: Strategy, rho: seq<Elem>): (r: seq<Elem>)
    ensures |r| == 2 * |rho|
  {
    if |rho| == 0 then []
    else
      var seen := rho[..|rho| - 1];
      Played(strategy, seen) + [strategy(seen).0, strategy(seen).1]
  }

  /** The honest records, and the claim they leave, without the detour through a strategy. */
  ghost function HonestRecords(K: Field, w: Cube, v: Cube, rho: seq<Elem>): seq<Elem> {
    if |rho| == 0 then []
    else
      var seen := rho[..|rho| - 1];
      var w', v' := BindAll(K, w, seen), BindAll(K, v, seen);
      HonestRecords(K, w, v, seen) + [Constant(K, w', v'), Leading(K, w', v')]
  }

  ghost function HonestClaim(K: Field, w: Cube, v: Cube, claim: Elem, rho: seq<Elem>): Elem {
    if |rho| == 0 then claim
    else
      var seen := rho[..|rho| - 1];
      var w', v' := BindAll(K, w, seen), BindAll(K, v, seen);
      Advance(K, HonestClaim(K, w, v, claim, seen), Constant(K, w', v'), Leading(K, w', v'), rho[|rho| - 1])
  }

  lemma {:induction false} HonestIsPlayed(K: Field, w: Cube, v: Cube, claim: Elem, rho: seq<Elem>)
    ensures HonestRecords(K, w, v, rho) == Played(Honest(K, w, v), rho)
    ensures HonestClaim(K, w, v, claim, rho) == Running(K, claim, Honest(K, w, v), rho)
    decreases |rho|
  {
    if |rho| > 0 { HonestIsPlayed(K, w, v, claim, rho[..|rho| - 1]); }
  }

  lemma {:induction false} HonestFirst(K: Field, w: Cube, v: Cube, claim: Elem)
    ensures BindAll(K, w, []) == w && BindAll(K, v, []) == v
    ensures HonestRecords(K, w, v, []) == [] && HonestClaim(K, w, v, claim, []) == claim
  {
  }

  lemma {:induction false} HonestNext(K: Field, w: Cube, v: Cube, claim: Elem, seen: seq<Elem>, c: Elem)
    ensures var w', v', rho := BindAll(K, w, seen), BindAll(K, v, seen), seen + [c];
      && BindAll(K, w, rho) == BindLow(K, w', c)
      && BindAll(K, v, rho) == BindLow(K, v', c)
      && HonestRecords(K, w, v, rho) == HonestRecords(K, w, v, seen) + [Constant(K, w', v'), Leading(K, w', v')]
      && HonestClaim(K, w, v, claim, rho)
        == Advance(K, HonestClaim(K, w, v, claim, seen), Constant(K, w', v'), Leading(K, w', v'), c)
  {
    assert (seen + [c])[..|seen|] == seen;
  }

  method ProveRound(K: Field, pair: Pair, claim: Elem, ps: ProverState, ghost n: nat)
      returns (challenge: Elem, running: Elem)
    requires K.Valid() && |pair.weights| == |pair.values| == Pow2(n + 1)
    modifies pair, ps
    ensures challenge == ps.challenges(old(ps.drawn)) && ps.drawn == old(ps.drawn) + 1
    ensures |pair.weights| == |pair.values| == Pow2(n)
    ensures CubeOf(pair.weights, n) == BindLow(K, CubeOf(old(pair.weights), n + 1), challenge)
    ensures CubeOf(pair.values, n) == BindLow(K, CubeOf(old(pair.values), n + 1), challenge)
    ensures var w, v := CubeOf(old(pair.weights), n + 1), CubeOf(old(pair.values), n + 1);
      && ps.records == old(ps.records) + [Constant(K, w, v), Leading(K, w, v)]
      && running == Advance(K, claim, Constant(K, w, v), Leading(K, w, v), challenge)
  {
    var a0, a2 := pair.Message(K, n);
    ps.Send([a0, a2]);
    challenge := ps.Challenge();
    running := Advance(K, claim, a0, a2, challenge);
    pair.Fold(K, challenge, n);
  }

  /** The prover's rounds: the recorded messages are the honest ones for the challenges drawn, and
      the pair ends folded at them. */
  method ProveRounds(K: Field, pair: Pair, rounds: nat, claim: Elem, ps: ProverState)
      returns (point: seq<Elem>, running: Elem)
    requires K.Valid() && |pair.weights| == |pair.values| == Pow2(rounds)
    modifies pair, ps
    ensures point == Drawn(ps.challenges, old(ps.drawn), rounds)
    ensures ps.records == old(ps.records)
      + HonestRecords(K, CubeOf(old(pair.weights), rounds), CubeOf(old(pair.values), rounds), point)
    ensures running == HonestClaim(K, CubeOf(old(pair.weights), rounds), CubeOf(old(pair.values), rounds), claim, point)
    ensures |pair.weights| == |pair.values| == Pow2(0)
    ensures CubeOf(pair.weights, 0) == BindAll(K, CubeOf(old(pair.weights), rounds), point)
    ensures CubeOf(pair.values, 0) == BindAll(K, CubeOf(old(pair.values), rounds), point)
  {
    hide CubeOf, BindAll, BindLow, HonestRecords, HonestClaim, Constant, Leading;
    ghost var w, v := CubeOf(pair.weights, rounds), CubeOf(pair.values, rounds);
    HonestFirst(K, w, v, claim);
    point, running := [], claim;
    ghost var left := rounds;
    for i := 0 to rounds
      invariant ps.drawn == old(ps.drawn) + i && point == Drawn(ps.challenges, old(ps.drawn), i)
      invariant i + left == rounds && |pair.weights| == |pair.values| == Pow2(left)
      invariant CubeOf(pair.weights, left) == BindAll(K, w, point)
      invariant CubeOf(pair.values, left) == BindAll(K, v, point)
      invariant ps.records == old(ps.records) + HonestRecords(K, w, v, point)
      invariant running == HonestClaim(K, w, v, claim, point)
    {
      var challenge;
      left := left - 1;
      challenge, running := ProveRound(K, pair, running, ps, left);
      HonestNext(K, w, v, claim, point, challenge);
      point := point + [challenge];
    }
    assert left == 0;
  }

  /** The prover: runs the rounds and records the closing evaluation. */
  method Prove(K: Field, pair: Pair, rounds: nat, claim: Elem, ps: ProverState)
      returns (point: seq<Elem>, evaluation: Elem)
    requires K.Valid() && |pair.weights| == |pair.values| == Pow2(rounds)
    modifies pair, ps
    ensures point == Drawn(ps.challenges, old(ps.drawn), rounds)
    ensures evaluation == Mle(K, old(pair.values), point)
    ensures ps.records == old(ps.records)
      + Played(Honest(K, CubeOf(old(pair.weights), rounds), CubeOf(old(pair.values), rounds)), point) + [evaluation]
  {
    ghost var w, v := CubeOf(pair.weights, rounds), CubeOf(pair.values, rounds);
    ghost var values := pair.values;
    var running;
    point, running := ProveRounds(K, pair, rounds, claim, ps);
    HonestIsPlayed(K, w, v, claim, point);
    BoundInner(K, v, v, point);
    ExtensionIsMle(K, values, point);
    evaluation := pair.values[0];
    ps.Send([evaluation]);
  }

  // ---------------------------------------------------------------- the verifier

  /** The strategy that reads its messages off a list of records. */
  ghost function Reading(K: Field, records: seq<Elem>): Strategy {
    (rho: seq<Elem>) =>
      if 2 * |rho| + 1 < |records| then (records[2 * |rho|], records[2 * |rho| + 1]) else (K.zero, K.zero)
  }

  /** The running claim replayed straight from the records. */
  ghost function Replayed(K: Field, claim: Elem, records: seq<Elem>, rho: seq<Elem>): Elem
    requires 2 * |rho| <= |records|
  {
    if |rho| == 0 then claim
    else
      var i := |rho| - 1;
      Advance(K, Replayed(K, claim, records, rho[..i]), records[2 * i], records[2 * i + 1], rho[i])
  }

  lemma {:induction false} ReplayedIsRunning(K: Field, claim: Elem, records: seq<Elem>, rho: seq<Elem>)
    requires 2 * |rho| <= |records|
    ensures Replayed(K, claim, records, rho) == Running(K, claim, Reading(K, records), rho)
    decreases |rho|
  {
    if |rho| > 0 { ReplayedIsRunning(K, claim, records, rho[..|rho| - 1]); }
  }

  lemma {:induction false} ReplayedNext(K: Field, claim: Elem, records: seq<Elem>, seen: seq<Elem>, c: Elem)
    requires 2 * |seen| + 2 <= |records|
    ensures Replayed(K, claim, records, seen + [c])
      == Advance(K, Replayed(K, claim, records, seen), records[2 * |seen|], records[2 * |seen| + 1], c)
  {
    assert (seen + [c])[..|seen|] == seen;
  }

  /** The verifier's rounds, replayed from the records: malformed exactly when they run out. */
  method VerifyRounds(K: Field, rounds: nat, claim: Elem, vs: VerifierState)
      returns (result: Option<(seq<Elem>, Elem)>)
    requires vs.Valid()
    modifies vs
    ensures vs.Valid()
    ensures result.None? <==> |old(vs.Rest())| < 2 * rounds
    ensures result.Some? ==> vs.read == old(vs.read) + 2 * rounds && vs.drawn == old(vs.drawn) + rounds
    ensures result.Some? ==> var rho := Drawn(vs.challenges, old(vs.drawn), rounds);
      result.value == (rho, Replayed(K, claim, old(vs.Rest()), rho))
  {
    hide Advance;
    ghost var records := vs.Rest();
    var point, running := [], claim;
    for i := 0 to rounds
      invariant vs.Valid() && vs.read == old(vs.read) + 2 * i
      invariant vs.drawn == old(vs.drawn) + i && point == Drawn(vs.challenges, old(vs.drawn), i)
      invariant 2 * |point| <= |records| && running == Replayed(K, claim, records, point)
    {
      var message := vs.ReadPair();
      if message.None? { return None; }
      var challenge := vs.Challenge();
      ReplayedNext(K, claim, records, point, challenge);
      running := Advance(K, running, message.value.0, message.value.1, challenge);
      point := point + [challenge];
    }
    return Some((point, running));
  }

  datatype Verdict = MalformedProof | EvaluationMismatch | Accepted(point: seq<Elem>, evaluation: Elem)

  /** The verdict as a function of the claim, the records and the challenges. */
  ghost function Judged(K: Field, weights: Cube, claim: Elem, records: seq<Elem>, rho: seq<Elem>): Verdict
    requires Full(weights, |rho|)
  {
    if |records| <= 2 * |rho| then MalformedProof
    else if K.mul(Extension(K, weights, rho), records[2 * |rho|]) != Running(K, claim, Reading(K, records), rho)
    then EvaluationMismatch
    else Accepted(rho, records[2 * |rho|])
  }

  /** The verifier: replays the rounds and checks the closing evaluation against the weight it
      computes itself. */
  method Verify(K: Field, rounds: nat, claim: Elem, weights: seq<Elem>, vs: VerifierState) returns (verdict: Verdict)
    requires K.Valid() && vs.Valid() && |weights| == Pow2(rounds)
    modifies vs
    ensures verdict == Judged(K, CubeOf(weights, rounds), claim, old(vs.Rest()), Drawn(vs.challenges, old(vs.drawn), rounds))
  {
    hide Advance, Running, Replayed, Reading, EvaluateSerial, Mle, Extension, CubeOf;
    var replay := VerifyRounds(K, rounds, claim, vs);
    if replay.None? { return MalformedProof; }
    var (point, running) := replay.value;
    ReplayedIsRunning(K, claim, old(vs.Rest()), point);
    EvaluateSerialIsMle(K, weights, point);
    ExtensionIsMle(K, weights, point);
    var weight := EvaluateSerial(K, weights, point);
    var evaluation := vs.ReadOne();
    if evaluation.None? { return MalformedProof; }
    if K.mul(weight, evaluation.value) != running { return EvaluationMismatch; }
    return Accepted(point, evaluation.value);
  }

  // ---------------------------------------------------------------- the two together

  lemma {:induction false} PlayedAt(strategy: Strategy, rho: seq<Elem>, i: nat)
    requires i < |rho|
    ensures Played(strategy, rho)[2 * i] == strategy(rho[..i]).0
    ensures Played(strategy, rho)[2 * i + 1] == strategy(rho[..i]).1
    decreases |rho|
  {
    if i < |rho| - 1 {
      PlayedAt(strategy, rho[..|rho| - 1], i);
      assert rho[..|rho| - 1][..i] == rho[..i];
    }
  }

  lemma {:induction false} ReadBack(K: Field, claim: Elem, strategy: Strategy, rho: seq<Elem>, more: seq<Elem>, k: nat)
    requires k <= |rho|
    ensures Running(K, claim, Reading(K, Played(strategy, rho) + more), rho[..k]) == Running(K, claim, strategy, rho[..k])
    decreases k
  {
    if k > 0 {
      ReadBack(K, claim, strategy, rho, more, k - 1);
      PlayedAt(strategy, rho, k - 1);
      assert rho[..k][..k - 1] == rho[..k - 1];
    }
  }

  /** Completeness and its exact failure: on the honest records the verifier accepts the true
      evaluation if the claim it started from is true or some challenge is zero, and rejects
      otherwise. */
  lemma {:induction false} HonestVerdict(K: Field, w: Cube, v: Cube, claim: Elem, rho: seq<Elem>)
    requires K.Valid() && Full(w, |rho|) && Full(v, |rho|)
    ensures Judged(K, w, claim, Played(Honest(K, w, v), rho) + [Extension(K, v, rho)], rho)
      == if claim == Inner(K, w, v) || Product(K, rho) == K.zero then Accepted(rho, Extension(K, v, rho))
         else EvaluationMismatch
  {
    var honest := Honest(K, w, v);
    Completeness(K, w, v, rho);
    ReadBack(K, claim, honest, rho, [Extension(K, v, rho)], |rho|);
    assert rho[..|rho|] == rho;
    GapSurvives(K, claim, Inner(K, w, v), honest, rho);
    K.ZeroSum(Running(K, claim, honest, rho), Running(K, Inner(K, w, v), honest, rho));
    K.NoZeroDivisors(Product(K, rho), K.add(claim, Inner(K, w, v)));
    K.ZeroSum(claim, Inner(K, w, v));
  }

  lemma {:induction false} ProductIsZero(K: Field, rho: seq<Elem>)
    requires K.Valid()
    ensures Product(K, rho) == K.zero <==> K.zero in rho
    decreases |rho|
  {
    if |rho| > 0 {
      var n := |rho| - 1;
      ProductIsZero(K, rho[..n]);
      K.NoZeroDivisors(rho[n], Product(K, rho[..n]));
      assert rho == rho[..n] + [rho[n]];
    }
  }

  /** The challenge vectors on which an adaptive prover has a true evaluation accepted. */
  ghost function Deceived(K: Field, w: Cube, v: Cube, n: nat, claim: Elem, strategy: Strategy,
      closing: seq<Elem> -> Elem): set<seq<Elem>>
    requires Full(w, n) && Full(v, n)
  {
    set rho | rho in Vectors(K, n) && |rho| == n
      && Judged(K, w, claim, Played(strategy, rho) + [closing(rho)], rho) == Accepted(rho, Extension(K, v, rho))
  }

  /** From a false claim, every adaptive prover has its closing evaluation both accepted and true on
      at most `2n N^(n-1)` of the challenge vectors; on all others the opening is asked to prove a
      false evaluation. */
  lemma {:induction false} AcceptanceSoundness(K: Field, w: Cube, v: Cube, n: nat, claim: Elem, strategy: Strategy,
      closing: seq<Elem> -> Elem)
    requires K.Valid() && Full(w, n) && Full(v, n)
    requires claim != Inner(K, w, v)
    ensures AtMost(K, n, Deceived(K, w, v, n, claim, strategy, closing), 2 * n)
  {
    Soundness(K, w, v, n, claim, strategy);
    var D := Deceived(K, w, v, n, claim, strategy, closing);
    forall rho | rho in D ensures rho in Fooled(K, w, v, n, claim, strategy) {
      ReadBack(K, claim, strategy, rho, [closing(rho)], |rho|);
      assert rho[..|rho|] == rho;
    }
    SubsetAtMost(K, n, D, Fooled(K, w, v, n, claim, strategy), 2 * n);
  }
}
