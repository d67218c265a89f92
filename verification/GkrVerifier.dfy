/** The verifier of the layered reduction, over a transcript. */
module GkrVerifier {
  import opened Wrappers
  import opened FiniteField
  import opened Multilinear
  import opened Cubes
  import opened Transcript
  import opened Sumcheck
  import opened SumcheckProtocol
  import opened Gkr
  import opened GkrTheorems

  // ---------------------------------------------------------------- runs over records

  /** The state after replaying two records for each challenge. */
  ghost function Replay(K: Field, v: Verifier, records: seq<Elem>, rho: seq<Elem>): Verifier
    requires 2 * |rho| <= |records|
  {
    if |rho| == 0 then v
    else
      var i := |rho| - 1;
      Step(K, Replay(K, v, records, rho[..i]), (records[2 * i], records[2 * i + 1]), rho[i])
  }

  /** A proof that is cut short is rejected. */
  ghost function Outcome(K: Field, v: Verifier, records: seq<Elem>, rho: seq<Elem>): Verifier {
    if |records| < 2 * |rho| then Rejected else Replay(K, v, records, rho)
  }

  lemma {:induction false} ReplayNone(K: Field, v: Verifier, records: seq<Elem>)
    ensures Replay(K, v, records, []) == v
  {
  }

  lemma {:induction false} ReplayNext(K: Field, v: Verifier, records: seq<Elem>, seen: seq<Elem>, c: Elem)
    requires 2 * |seen| + 2 <= |records|
    ensures Replay(K, v, records, seen + [c])
      == Step(K, Replay(K, v, records, seen), (records[2 * |seen|], records[2 * |seen| + 1]), c)
  {
    assert (seen + [c])[..|seen|] == seen;
  }

  lemma {:induction false} ReplayConcat(K: Field, v: Verifier, records: seq<Elem>, a: seq<Elem>, b: seq<Elem>)
    requires 2 * |a| + 2 * |b| <= |records|
    ensures Replay(K, v, records, a + b) == Replay(K, Replay(K, v, records, a), records[2 * |a|..], b)
    decreases |b|
  {
    if |b| == 0 {
      assert a + b == a;
    } else {
      var i := |b| - 1;
      ReplayConcat(K, v, records, a, b[..i]);
      assert a + b == (a + b[..i]) + [b[i]];
      ReplayNext(K, v, records, a + b[..i], b[i]);
    }
  }

  lemma {:induction false} RejectedStays(K: Field, records: seq<Elem>, rho: seq<Elem>)
    requires 2 * |rho| <= |records|
    ensures Replay(K, Rejected, records, rho).Rejected?
    decreases |rho|
  {
    if |rho| > 0 { RejectedStays(K, records, rho[..|rho| - 1]); }
  }

  lemma {:induction false} DrawnConcat(challenges: nat -> Elem, from: nat, a: nat, b: nat)
    ensures Drawn(challenges, from, a + b) == Drawn(challenges, from, a) + Drawn(challenges, from + a, b)
    decreases b
  {
    if b > 0 { DrawnConcat(challenges, from, a, b - 1); }
  }

  lemma {:induction false} StepsAtEnd(m: nat, layers: nat)
    ensures Steps(m, layers + 1) == Steps(m, layers) + m + layers + 1
    decreases layers
  {
    if layers > 0 { StepsAtEnd(m + 1, layers - 1); }
  }

  /** Splitting a run into a first part and the rest, on whatever records are left. */
  lemma {:induction false} OutcomeConcat(K: Field, v: Verifier, records: seq<Elem>, a: seq<Elem>, b: seq<Elem>)
    requires 2 * |a| <= |records|
    ensures Outcome(K, v, records, a + b) == Outcome(K, Replay(K, v, records, a), records[2 * |a|..], b)
  {
    if 2 * |a| + 2 * |b| <= |records| {
      ReplayConcat(K, v, records, a, b);
    }
  }

  lemma {:induction false} OutcomeRejected(K: Field, records: seq<Elem>, rho: seq<Elem>)
    ensures Outcome(K, Rejected, records, rho).Rejected?
  {
    if 2 * |rho| <= |records| { RejectedStays(K, records, rho); }
  }

  lemma {:induction false} RejectedEarly(K: Field, v: Verifier, records: seq<Elem>, a: seq<Elem>, b: seq<Elem>)
    requires Outcome(K, v, records, a).Rejected?
    ensures Outcome(K, v, records, a + b).Rejected?
  {
    if 2 * |a| <= |records| {
      OutcomeConcat(K, v, records, a, b);
      OutcomeRejected(K, records[2 * |a|..], b);
    }
  }

  // ---------------------------------------------------------------- the program

  /** One cubic round: nothing when the records run out. */
  method VerifyRound(K: Field, ghost point: seq<Elem>, bound: seq<Elem>, z: Elem, claim: Elem, prefix: Elem, vs: VerifierState)
      returns (next: Option<(Elem, Elem, Elem)>)
    requires vs.Valid() && |bound| < |point| && point[|bound|] == z
    modifies vs
    ensures vs.Valid()
    ensures next.None? <==> |vs.records| < old(vs.read) + 2
    ensures next.Some? ==>
      && vs.read == old(vs.read) + 2 && vs.drawn == old(vs.drawn) + 1
      && next.value.0 == vs.challenges(old(vs.drawn))
      && Running(point, bound + [next.value.0], next.value.1, next.value.2)
        == Step(K, Running(point, bound, claim, prefix), (vs.records[old(vs.read)], vs.records[old(vs.read) + 1]), next.value.0)
  {
    hide Ends;
    var message := vs.ReadPair();
    if message.None? { return None; }
    var (sum0, sum1) := Ends(K, claim, z, message.value.0);
    var r := vs.Challenge();
    var factor := EqFactor(K, r, z);
    var bracket := K.add(K.add(sum1, sum0), K.mul(K.add(r, K.one), message.value.1));
    return Some((r, K.mul(factor, K.add(sum0, K.mul(r, bracket))), K.mul(prefix, factor)));
  }

  /** One layer: the next point and claim, or nothing. */
  method VerifyLayer(K: Field, claim: Elem, point: seq<Elem>, vs: VerifierState) returns (next: Option<(seq<Elem>, Elem)>)
    requires vs.Valid()
    modifies vs
    ensures vs.Valid()
    ensures var w := Outcome(K, Start(K, point, claim), old(vs.Rest()), Drawn(vs.challenges, old(vs.drawn), |point| + 1));
      if w.Rejected? then next.None?
      else
        && w == Start(K, w.point, w.claim) && next == Some((w.point, w.claim)) && |w.point| == |point| + 1
        && vs.read == old(vs.read) + 2 * (|point| + 1) && vs.drawn == old(vs.drawn) + |point| + 1
  {
    hide Replay, RoundClaim, EqFactor, Lerp;
    ghost var records, v := vs.Rest(), Start(K, point, claim);
    ReplayNone(K, v, records);
    var running, prefix, bound := claim, K.one, [];
    for i := 0 to |point|
      invariant vs.Valid() && vs.read == old(vs.read) + 2 * i && vs.drawn == old(vs.drawn) + i
      invariant bound == Drawn(vs.challenges, old(vs.drawn), i)
      invariant Running(point, bound, running, prefix) == Replay(K, v, records, bound)
    {
      var round := VerifyRound(K, point, bound, point[i], running, prefix, vs);
      if round.None? { return None; }
      ReplayNext(K, v, records, bound, round.value.0);
      bound := bound + [round.value.0];
      running, prefix := round.value.1, round.value.2;
    }
    var ends := vs.ReadPair();
    if ends.None? { return None; }
    var (left, right) := ends.value;
    ReplayNext(K, v, records, bound, vs.challenges(vs.drawn));
    if K.mul(K.mul(prefix, left), right) != running { return None; }
    var r := vs.Challenge();
    return Some(([r] + bound, Lerp(K, left, right, r)));
  }

  /** All layers, on a point in the orientation the callers use. */
  method GpgkrVerify(K: Field, claim: Elem, point: seq<Elem>, rounds: nat, vs: VerifierState)
      returns (leaf: Option<(seq<Elem>, Elem)>)
    requires vs.Valid()
    modifies vs
    ensures var T := Steps(|point|, rounds);
      var w := Outcome(K, Start(K, Reverse(point), claim), old(vs.Rest()), Drawn(vs.challenges, old(vs.drawn), T));
      leaf == if w.Rejected? then None else Some((Reverse(w.point), w.claim))
    ensures leaf.Some? ==> |leaf.value.0| == |point| + rounds
    ensures leaf.Some? ==> vs.Valid() && vs.read == old(vs.read) + 2 * Steps(|point|, rounds)
    ensures leaf.Some? ==> vs.drawn == old(vs.drawn) + Steps(|point|, rounds)
  {
    hide Replay, Outcome, Drawn, Steps;
    ghost var records, v := vs.Rest(), Start(K, Reverse(point), claim);
    ghost var from, m := vs.drawn, |point|;
    var top, running := Reverse(point), claim;
    FirstPart(K, v, records, vs.challenges, from, m);
    for i := 0 to rounds
      invariant vs.Valid() && |top| == m + i && vs.drawn == from + Steps(m, i)
      invariant vs.read == old(vs.read) + 2 * Steps(m, i)
      invariant Outcome(K, v, records, Drawn(vs.challenges, from, Steps(m, i))) == Start(K, top, running)
    {
      NextPart(K, v, records, vs.challenges, from, m, i);
      assert vs.Rest() == records[2 * Steps(m, i)..];
      var next := VerifyLayer(K, running, top, vs);
      if next.None? {
        StaysRejected(K, v, records, vs.challenges, from, m, i + 1, rounds);
        return None;
      }
      top, running := next.value.0, next.value.1;
    }
    return Some((Reverse(top), running));
  }

  lemma {:induction false} FirstPart(K: Field, v: Verifier, records: seq<Elem>, challenges: nat -> Elem, from: nat, m: nat)
    ensures Steps(m, 0) == 0 && Outcome(K, v, records, Drawn(challenges, from, 0)) == v
  {
  }

  lemma {:induction false} NextPart(K: Field, v: Verifier, records: seq<Elem>, challenges: nat -> Elem, from: nat, m: nat, i: nat)
    requires 2 * Steps(m, i) <= |records|
    ensures Steps(m, i + 1) == Steps(m, i) + m + i + 1
    ensures Outcome(K, v, records, Drawn(challenges, from, Steps(m, i + 1)))
      == Outcome(K, Outcome(K, v, records, Drawn(challenges, from, Steps(m, i))),
           records[2 * Steps(m, i)..], Drawn(challenges, from + Steps(m, i), m + i + 1))
  {
    hide Replay;
    StepsAtEnd(m, i);
    DrawnConcat(challenges, from, Steps(m, i), m + i + 1);
    OutcomeConcat(K, v, records, Drawn(challenges, from, Steps(m, i)), Drawn(challenges, from + Steps(m, i), m + i + 1));
  }

  lemma {:induction false} StepsMonotone(m: nat, i: nat, k: nat)
    requires i <= k
    ensures Steps(m, i) <= Steps(m, k)
    decreases k
  {
    if i < k {
      StepsMonotone(m, i, k - 1);
      StepsAtEnd(m, k - 1);
    }
  }

  lemma {:induction false} StaysRejected(K: Field, v: Verifier, records: seq<Elem>, challenges: nat -> Elem, from: nat, m: nat, i: nat, k: nat)
    requires i <= k && Outcome(K, v, records, Drawn(challenges, from, Steps(m, i))).Rejected?
    ensures Outcome(K, v, records, Drawn(challenges, from, Steps(m, k))).Rejected?
  {
    hide Outcome;
    StepsMonotone(m, i, k);
    var rest := Steps(m, k) - Steps(m, i);
    DrawnConcat(challenges, from, Steps(m, i), rest);
    RejectedEarly(K, v, records, Drawn(challenges, from, Steps(m, i)), Drawn(challenges, from + Steps(m, i), rest));
  }

  // ---------------------------------------------------------------- acceptance

  /** The verifier on the records of an adaptive prover is the run against that prover. */
  lemma {:induction false} OutcomeOfPlayed(K: Field, v: Verifier, strategy: Strategy, rho: seq<Elem>, more: seq<Elem>, k: nat)
    requires k <= |rho|
    ensures Outcome(K, v, Played(strategy, rho) + more, rho[..k]) == Run(K, v, strategy, rho[..k])
    decreases k
  {
    if k > 0 {
      OutcomeOfPlayed(K, v, strategy, rho, more, k - 1);
      PlayedAt(strategy, rho, k - 1);
      assert rho[..k][..k - 1] == rho[..k - 1];
    }
  }

  /** What the honest prover records against the challenges `rho`. */
  ghost function HonestLayerRecords(K: Field, t: Cube, n: nat, v: Verifier, rho: seq<Elem>): (r: seq<Elem>)
    requires Full(t, n)
    ensures |r| == 2 * |rho|
  {
    if |rho| == 0 then []
    else
      var seen := rho[..|rho| - 1];
      var w := HonestRun(K, t, n, v, seen);
      var m := if InLayer(t, n, w) then HonestMessage(K, t, n, w) else (K.zero, K.zero);
      HonestLayerRecords(K, t, n, v, seen) + [m.0, m.1]
  }

  lemma {:induction false} HonestStaysInLayer(K: Field, t: Cube, n: nat, v: Verifier, m: nat, rho: seq<Elem>)
    requires K.Valid() && Full(t, n) && m <= n && |rho| < Steps(m, n - m) && OnTrack(K, t, n, v, m, 0)
    ensures InLayer(t, n, HonestRun(K, t, n, v, rho))
  {
    hide HonestRun, Phase, Truth, Steps;
    HonestRunTrue(K, t, n, v, m, rho);
    InsideRun(m, n - m, |rho|);
  }

  lemma {:induction false} HonestReplay(K: Field, t: Cube, n: nat, v: Verifier, m: nat, rho: seq<Elem>, more: seq<Elem>)
    requires K.Valid() && Full(t, n) && m <= n && |rho| <= Steps(m, n - m) && OnTrack(K, t, n, v, m, 0)
    ensures Replay(K, v, HonestLayerRecords(K, t, n, v, rho) + more, rho) == HonestRun(K, t, n, v, rho)
    decreases |rho|
  {
    hide HonestMessage, Step, OnTrack, Steps, InLayer;
    if |rho| > 0 {
      var i := |rho| - 1;
      var seen, records := rho[..i], HonestLayerRecords(K, t, n, v, rho);
      var before := HonestLayerRecords(K, t, n, v, seen);
      HonestReplay(K, t, n, v, m, seen, [records[2 * i], records[2 * i + 1]] + more);
      assert before + ([records[2 * i], records[2 * i + 1]] + more) == records + more;
      HonestStaysInLayer(K, t, n, v, m, seen);
    }
  }

  lemma {:induction false} ReverseConcat(a: seq<Elem>, b: seq<Elem>)
    ensures Reverse(a + b) == Reverse(b) + Reverse(a)
  {
    if |a| == 0 {
      assert a + b == b;
    } else {
      ReverseConcat(a[1..], b);
      assert (a + b)[1..] == a[1..] + b;
    }
  }

  lemma {:induction false} ReverseTwice(s: seq<Elem>)
    ensures Reverse(Reverse(s)) == s
  {
    if |s| > 0 {
      ReverseConcat(Reverse(s[1..]), [s[0]]);
      ReverseTwice(s[1..]);
      assert Reverse([s[0]]) == Reverse([]) + [s[0]];
      assert s == [s[0]] + s[1..];
    }
  }

  /** Completeness of the program: on the honest records, whatever follows them, the verifier started
      on the output's extension returns a point and a claim that is the leaves' extension there. */
  lemma {:induction false} HonestAccepted(K: Field, t: Cube, n: nat, point: seq<Elem>, rho: seq<Elem>, more: seq<Elem>)
    requires K.Valid() && Full(t, n) && |point| <= n && |rho| == Steps(|point|, n - |point|)
    ensures var v := Start(K, Reverse(point), Extension(K, Layer(K, t, n, |point|), point));
      var w := Outcome(K, v, HonestLayerRecords(K, t, n, v, rho) + more, rho);
      w.Running? && |w.point| == n && w.claim == Extension(K, t, Reverse(w.point))
  {
    hide Steps, HonestRun, HonestLayerRecords, Replay, Layer, Reverse, Top, Extension;
    var z := Reverse(point);
    ReverseTwice(point);
    TopIsExtension(K, Layer(K, t, n, |point|), z);
    var v := Start(K, z, Top(K, Layer(K, t, n, |point|), z));
    HonestReplay(K, t, n, v, |point|, rho, more);
    GkrTheorems.Completeness(K, t, n, z, rho);
    TopIsExtension(K, t, Outcome(K, v, HonestLayerRecords(K, t, n, v, rho) + more, rho).point);
  }
}
