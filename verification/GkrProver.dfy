/** The prover of the layered reduction: the suffix table in one shared buffer, and the layers folded
    in place, half by half. */
module GkrProver {
  import opened FiniteField
  import opened Multilinear
  import opened Powers
  import opened Cubes
  import opened Transcript
  import opened Gkr
  import opened GkrTheorems
  import opened GkrVerifier

  // ---------------------------------------------------------------- the suffix table

  /** The weights of a point kept top variable first. */
  ghost function TopWeights(K: Field, z: seq<Elem>): (w: seq<Elem>)
    ensures |w| == Pow2(|z|)
  {
    if |z| == 0 then [K.one]
    else Scale(K, K.add(K.one, z[0]), TopWeights(K, z[1..])) + Scale(K, z[0], TopWeights(K, z[1..]))
  }

  /** Level `i` of the buffer. */
  ghost function Level(storage: seq<Elem>, i: nat): seq<Elem>
    requires Pow2(i + 1) - 1 <= |storage|
  {
    storage[Pow2(i) - 1..Pow2(i + 1) - 1]
  }

  /** Level `i` holds the weights of the last `i` coordinates, for every level below the point's width. */
  ghost predicate Suffixes(K: Field, storage: seq<Elem>, point: seq<Elem>, levels: nat)
    requires levels <= |point| || levels == 1
  {
    forall i :: 0 <= i < levels && i <= |point| ==> LevelHolds(K, storage, point, i)
  }

  ghost predicate LevelHolds(K: Field, storage: seq<Elem>, point: seq<Elem>, i: nat)
    requires i <= |point|
  {
    Pow2(i + 1) - 1 <= |storage| && Level(storage, i) == TopWeights(K, point[|point| - i..])
  }

  lemma {:induction false} WeightSplit(K: Field, z: Elem, e: Elem)
    requires K.Valid()
    ensures K.add(e, K.mul(z, e)) == K.mul(K.add(K.one, z), e)
  {
    K.Dist(e, K.one, z);
    K.Units(e);
  }

  /** The children of an entry, as the program computes them. */
  function Children(K: Field, z: Elem, e: Elem): (Elem, Elem) {
    var tmp := K.mul(z, e);
    (K.add(e, tmp), tmp)
  }

  ghost function NextLevel(K: Field, z: Elem, level: seq<Elem>): (next: seq<Elem>)
    ensures |next| == 2 * |level|
  {
    Scale(K, K.add(K.one, z), level) + Scale(K, z, level)
  }

  lemma {:induction false} ChildrenInPlace(K: Field, z: Elem, level: seq<Elem>, j: nat)
    requires K.Valid() && j < |level|
    ensures Children(K, z, level[j]) == (NextLevel(K, z, level)[j], NextLevel(K, z, level)[|level| + j])
  {
    WeightSplit(K, z, level[j]);
  }

  /** One level from the one before it, which ends where the new one starts. */
  method FillLevel(K: Field, storage: array<Elem>, start: nat, size: nat, z: Elem)
    requires K.Valid() && start + 3 * size <= storage.Length
    modifies storage
    ensures storage[..start + size] == old(storage[..start + size])
    ensures storage[start + size..start + 3 * size] == NextLevel(K, z, old(storage[start..start + size]))
  {
    hide Children, NextLevel;
    ghost var entry, level := start + size, storage[start..start + size];
    ghost var next := NextLevel(K, z, level);
    for j := 0 to size
      invariant forall k :: 0 <= k < entry ==> storage[k] == old(storage[k])
      invariant forall k :: entry <= k < entry + j ==> storage[k] == next[k - entry]
      invariant forall k :: entry + size <= k < entry + size + j ==> storage[k] == next[k - entry]
    {
      assert level[j] == storage[start + j];
      ChildrenInPlace(K, z, level, j);
      var children := Children(K, z, storage[start + j]);
      storage[start + size + j], storage[start + 2 * size + j] := children.0, children.1;
    }
  }

  lemma {:induction false} SuffixStep(K: Field, before: seq<Elem>, after: seq<Elem>, point: seq<Elem>, i: nat)
    requires i + 1 < |point| && 4 * Pow2(i) - 1 <= |before| == |after|
    requires Suffixes(K, before, point, i + 1)
    requires var start, size := Pow2(i) - 1, Pow2(i);
      && after[..start + size] == before[..start + size]
      && after[start + size..start + 3 * size]
        == NextLevel(K, point[|point| - i - 1], before[start..start + size])
    ensures Suffixes(K, after, point, i + 2)
  {
    hide TopWeights, NextLevel, Level, LevelHolds, Pow2;
    forall k: nat | k < i + 2 ensures LevelHolds(K, after, point, k) {
      if k <= i { LevelStays(K, before, after, point, k, i); } else { LevelAdded(K, before, after, point, i); }
    }
  }

  lemma {:induction false} LevelStays(K: Field, before: seq<Elem>, after: seq<Elem>, point: seq<Elem>, k: nat, i: nat)
    requires k <= i < |point| && 4 * Pow2(i) - 1 <= |before| == |after| && Suffixes(K, before, point, i + 1)
    requires after[..2 * Pow2(i) - 1] == before[..2 * Pow2(i) - 1]
    ensures LevelHolds(K, after, point, k)
  {
    hide TopWeights, Level;
    assert LevelHolds(K, before, point, k);
    LevelKept(before, after, k, i);
  }

  lemma {:induction false} LevelAdded(K: Field, before: seq<Elem>, after: seq<Elem>, point: seq<Elem>, i: nat)
    requires i + 1 < |point| && 4 * Pow2(i) - 1 <= |before| == |after| && Suffixes(K, before, point, i + 1)
    requires var start, size := Pow2(i) - 1, Pow2(i);
      after[start + size..start + 3 * size] == NextLevel(K, point[|point| - i - 1], before[start..start + size])
    ensures LevelHolds(K, after, point, i + 1)
  {
    hide TopWeights, NextLevel, Level;
    assert LevelHolds(K, before, point, i);
    assert Pow2(i + 2) == 4 * Pow2(i);
    NewLevel(K, before, after, point, i);
  }

  lemma {:induction false} LevelKept(before: seq<Elem>, after: seq<Elem>, k: nat, i: nat)
    requires k <= i && Pow2(i + 1) - 1 <= |before| == |after|
    requires after[..Pow2(i + 1) - 1] == before[..Pow2(i + 1) - 1]
    ensures Pow2(k + 1) - 1 <= |after| && Level(after, k) == Level(before, k)
  {
    Pow2Monotone(k + 1, i + 1);
    assert Level(after, k) == after[..Pow2(i + 1) - 1][Pow2(k) - 1..Pow2(k + 1) - 1];
    assert Level(before, k) == before[..Pow2(i + 1) - 1][Pow2(k) - 1..Pow2(k + 1) - 1];
  }

  lemma {:induction false} NewLevel(K: Field, before: seq<Elem>, after: seq<Elem>, point: seq<Elem>, i: nat)
    requires i + 1 < |point| && 4 * Pow2(i) - 1 <= |before| == |after|
    requires Level(before, i) == TopWeights(K, point[|point| - i..])
    requires var start, size := Pow2(i) - 1, Pow2(i);
      after[start + size..start + 3 * size]
        == NextLevel(K, point[|point| - i - 1], before[start..start + size])
    ensures Level(after, i + 1) == TopWeights(K, point[|point| - (i + 1)..])
  {
    hide TopWeights, NextLevel;
    var z := point[|point| - (i + 1)..];
    assert z[0] == point[|point| - i - 1] && z[1..] == point[|point| - i..];
    TopWeightsStep(K, z);
    assert Pow2(i + 2) - 1 == Pow2(i) - 1 + 3 * Pow2(i);
  }

  lemma {:induction false} TopWeightsStep(K: Field, z: seq<Elem>)
    requires |z| > 0
    ensures TopWeights(K, z) == NextLevel(K, z[0], TopWeights(K, z[1..]))
  {
  }

  lemma {:induction false} SuffixBase(K: Field, storage: seq<Elem>, point: seq<Elem>)
    requires |storage| > 0 && storage[0] == K.one
    ensures Suffixes(K, storage, point, 1)
  {
    assert point[|point|..] == [] && storage[0..1] == [K.one];
    assert Pow2(1) == 2 && Pow2(0) == 1;
    assert Level(storage, 0) == [K.one];
  }

  /** Fills the shared buffer for a point; the selector, its first coordinate, has no level. */
  method FillSuffixTable(K: Field, storage: array<Elem>, point: seq<Elem>)
    requires K.Valid() && storage.Length > 0 && Pow2(|point|) - 1 <= storage.Length
    modifies storage
    ensures Suffixes(K, storage[..], point, if |point| == 0 then 1 else |point|)
  {
    hide Suffixes, TopWeights, NextLevel;
    storage[0] := K.one;
    SuffixBase(K, storage[..], point);
    if |point| == 0 { return; }
    var size, start := 1, 0;
    for i := 0 to |point| - 1
      invariant size == Pow2(i) && start == Pow2(i) - 1
      invariant Suffixes(K, storage[..], point, i + 1)
    {
      Pow2Monotone(i + 2, |point|);
      ghost var before := storage[..];
      FillLevel(K, storage, start, size, point[|point| - 1 - i]);
      ghost var after := storage[..];
      assert after[..start + size] == before[..start + size];
      assert after[start + size..start + 3 * size] == storage[start + size..start + 3 * size];
      assert before[start..start + size] == before[..][start..start + size];
      SuffixStep(K, before, after, point, i);
      start, size := start + size, 2 * size;
    }
  }

  // ---------------------------------------------------------------- the sums of a round

  /** `sum_j eq[j] l[j] r[j]` over the first `n` entries. */
  ghost function WeightedSum(K: Field, eq: seq<Elem>, l: seq<Elem>, r: seq<Elem>, n: nat): Elem
    requires n <= |eq| && n <= |l| && n <= |r|
  {
    if n == 0 then K.zero
    else K.add(WeightedSum(K, eq, l, r, n - 1), K.mul(K.mul(eq[n - 1], l[n - 1]), r[n - 1]))
  }

  ghost function Difference(K: Field, hi: seq<Elem>, lo: seq<Elem>): (d: seq<Elem>)
    requires |hi| == |lo|
    ensures |d| == |hi| && forall i :: 0 <= i < |d| ==> d[i] == K.add(hi[i], lo[i])
  {
    seq(|hi|, i requires 0 <= i < |hi| => K.add(hi[i], lo[i]))
  }

  /** Both sums of a round, two entries at a time. */
  method ReduceSumcheckRound(K: Field, sendOne: bool, loL: seq<Elem>, loR: seq<Elem>, hiL: seq<Elem>, hiR: seq<Elem>, eq: seq<Elem>)
      returns (endpoint: Elem, inf: Elem)
    requires K.Valid() && |loL| == |loR| == |hiL| == |hiR| == |eq| && |eq| % 2 == 0
    ensures endpoint == if sendOne then WeightedSum(K, eq, hiL, hiR, |eq|) else WeightedSum(K, eq, loL, loR, |eq|)
    ensures inf == WeightedSum(K, eq, Difference(K, hiL, loL), Difference(K, hiR, loR), |eq|)
  {
    hide WeightedSum, Difference;
    WeightedSumNone(K, eq, if sendOne then hiL else loL, if sendOne then hiR else loR);
    WeightedSumNone(K, eq, Difference(K, hiL, loL), Difference(K, hiR, loR));
    endpoint, inf := K.zero, K.zero;
    for j := 0 to |eq| / 2
      invariant endpoint == if sendOne then WeightedSum(K, eq, hiL, hiR, 2 * j) else WeightedSum(K, eq, loL, loR, 2 * j)
      invariant inf == WeightedSum(K, eq, Difference(K, hiL, loL), Difference(K, hiR, loR), 2 * j)
    {
      endpoint, inf := AddEntry(K, sendOne, loL, loR, hiL, hiR, eq, 2 * j, endpoint, inf);
      endpoint, inf := AddEntry(K, sendOne, loL, loR, hiL, hiR, eq, 2 * j + 1, endpoint, inf);
    }
  }

  lemma {:induction false} WeightedSumNone(K: Field, eq: seq<Elem>, l: seq<Elem>, r: seq<Elem>)
    ensures WeightedSum(K, eq, l, r, 0) == K.zero
  {
  }

  method AddEntry(K: Field, sendOne: bool, loL: seq<Elem>, loR: seq<Elem>, hiL: seq<Elem>, hiR: seq<Elem>, eq: seq<Elem>,
      i: nat, endpoint: Elem, inf: Elem) returns (endpoint': Elem, inf': Elem)
    requires |loL| == |loR| == |hiL| == |hiR| == |eq| && i < |eq|
    requires endpoint == if sendOne then WeightedSum(K, eq, hiL, hiR, i) else WeightedSum(K, eq, loL, loR, i)
    requires inf == WeightedSum(K, eq, Difference(K, hiL, loL), Difference(K, hiR, loR), i)
    ensures endpoint' == if sendOne then WeightedSum(K, eq, hiL, hiR, i + 1) else WeightedSum(K, eq, loL, loR, i + 1)
    ensures inf' == WeightedSum(K, eq, Difference(K, hiL, loL), Difference(K, hiR, loR), i + 1)
  {
    var dL, dR := K.add(hiL[i], loL[i]), K.add(hiR[i], loR[i]);
    var l, r := if sendOne then hiL[i] else loL[i], if sendOne then hiR[i] else loR[i];
    var a, b := K.mul(eq[i], l), K.mul(eq[i], dL);
    endpoint', inf' := K.add(endpoint, K.mul(a, r)), K.add(inf, K.mul(b, dR));
  }

  lemma {:induction false} WeightedSumScale(K: Field, k: Elem, eq: seq<Elem>, l: seq<Elem>, r: seq<Elem>, n: nat)
    requires K.Valid() && n <= |eq| && n <= |l| && n <= |r|
    ensures WeightedSum(K, Scale(K, k, eq), l, r, n) == K.mul(k, WeightedSum(K, eq, l, r, n))
  {
    if n == 0 {
      K.Units(k);
    } else {
      WeightedSumScale(K, k, eq, l, r, n - 1);
      var e, a, b := eq[n - 1], l[n - 1], r[n - 1];
      K.Dist(k, WeightedSum(K, eq, l, r, n - 1), K.mul(K.mul(e, a), b));
      K.Assoc(k, e, a);
      K.Assoc(k, K.mul(e, a), b);
    }
  }

  lemma {:induction false} WeightedSumConcat(K: Field, e: seq<Elem>, l: seq<Elem>, r: seq<Elem>,
      e': seq<Elem>, l': seq<Elem>, r': seq<Elem>, n: nat)
    requires K.Valid() && |e| == |l| == |r| && n <= |e'| && n <= |l'| && n <= |r'|
    ensures WeightedSum(K, e + e', l + l', r + r', |e| + n)
      == K.add(WeightedSum(K, e, l, r, |e|), WeightedSum(K, e', l', r', n))
  {
    if n == 0 {
      WeightedSumPrefix(K, e, l, r, e', l', r', |e|);
      K.Additive();
    } else {
      WeightedSumConcat(K, e, l, r, e', l', r', n - 1);
      assert K.AddAssociates(WeightedSum(K, e, l, r, |e|), WeightedSum(K, e', l', r', n - 1),
        K.mul(K.mul(e'[n - 1], l'[n - 1]), r'[n - 1]));
    }
  }

  lemma {:induction false} WeightedSumPrefix(K: Field, e: seq<Elem>, l: seq<Elem>, r: seq<Elem>,
      e': seq<Elem>, l': seq<Elem>, r': seq<Elem>, n: nat)
    requires n <= |e| && n <= |l| && n <= |r| && |e| == |l| == |r|
    ensures WeightedSum(K, e + e', l + l', r + r', n) == WeightedSum(K, e, l, r, n)
  {
    if n > 0 { WeightedSumPrefix(K, e, l, r, e', l', r', n - 1); }
  }

  /** With the weights of a point, the sum is the triple product of the trees at that point. */
  lemma {:induction false} WeightedSumIsTriple(K: Field, z: seq<Elem>, l: seq<Elem>, r: seq<Elem>)
    requires K.Valid() && |l| == |r| == Pow2(|z|)
    ensures WeightedSum(K, TopWeights(K, z), l, r, Pow2(|z|)) == Triple(K, z, CubeOf(l, |z|), CubeOf(r, |z|))
    decreases |z|
  {
    hide WeightedSum, Lerp, CubeOf, NextLevel;
    if |z| == 0 {
      WeightedSumOne(K, l, r);
    } else {
      var h := Pow2(|z| - 1);
      var l0, l1, r0, r1, w := l[..h], l[h..], r[..h], r[h..], TopWeights(K, z[1..]);
      WeightedSumIsTriple(K, z[1..], l0, r0);
      WeightedSumIsTriple(K, z[1..], l1, r1);
      WeightedSumSplit(K, z[0], w, l0, l1, r0, r1);
      assert l0 + l1 == l && r0 + r1 == r;
      CubeOfConcat(l0, l1, |z| - 1);
      CubeOfConcat(r0, r1, |z| - 1);
      TopWeightsStep(K, z);
    }
  }

  lemma {:induction false} WeightedSumOne(K: Field, l: seq<Elem>, r: seq<Elem>)
    requires K.Valid() && |l| == |r| == 1
    ensures WeightedSum(K, [K.one], l, r, 1) == K.mul(l[0], r[0])
    ensures CubeOf(l, 0) == Leaf(l[0]) && CubeOf(r, 0) == Leaf(r[0])
  {
    K.Units(l[0]);
    assert WeightedSum(K, [K.one], l, r, 1) == K.add(K.zero, K.mul(K.mul(K.one, l[0]), r[0]));
    K.Additive();
  }

  lemma {:induction false} WeightedSumSplit(K: Field, z: Elem, w: seq<Elem>, l0: seq<Elem>, l1: seq<Elem>, r0: seq<Elem>, r1: seq<Elem>)
    requires K.Valid() && |w| == |l0| == |l1| == |r0| == |r1|
    ensures WeightedSum(K, NextLevel(K, z, w), l0 + l1, r0 + r1, 2 * |w|)
      == Lerp(K, WeightedSum(K, w, l0, r0, |w|), WeightedSum(K, w, l1, r1, |w|), z)
  {
    hide WeightedSum, Lerp;
    WeightedSumConcat(K, Scale(K, K.add(K.one, z), w), l0, r0, Scale(K, z, w), l1, r1, |w|);
    WeightedSumScale(K, K.add(K.one, z), w, l0, r0, |w|);
    WeightedSumScale(K, z, w, l1, r1, |w|);
    LerpWeights(K, WeightedSum(K, w, l0, r0, |w|), WeightedSum(K, w, l1, r1, |w|), z);
  }

  // ---------------------------------------------------------------- folding in place

  ghost function Blended(K: Field, lo: seq<Elem>, hi: seq<Elem>, r: Elem): (s: seq<Elem>)
    requires |lo| == |hi|
    ensures |s| == |lo| && forall i :: 0 <= i < |s| ==> s[i] == Lerp(K, lo[i], hi[i], r)
  {
    seq(|lo|, i requires 0 <= i < |lo| => Lerp(K, lo[i], hi[i], r))
  }

  lemma {:induction false} HalvesCube(K: Field, lo: seq<Elem>, hi: seq<Elem>, r: Elem, n: nat)
    requires |lo| == |hi| == Pow2(n)
    ensures CubeOf(Blended(K, lo, hi, r), n) == Blend(K, CubeOf(lo, n), CubeOf(hi, n), r)
    ensures CubeOf(Difference(K, hi, lo), n) == Gap(K, CubeOf(lo, n), CubeOf(hi, n))
  {
    if n > 0 {
      var h := Pow2(n - 1);
      var a, b, c, d := lo[..h], lo[h..], hi[..h], hi[h..];
      HalvesCube(K, a, c, r, n - 1);
      HalvesCube(K, b, d, r, n - 1);
      assert Blended(K, lo, hi, r)[..h] == Blended(K, a, c, r) && Blended(K, lo, hi, r)[h..] == Blended(K, b, d, r);
      assert Difference(K, hi, lo)[..h] == Difference(K, c, a) && Difference(K, hi, lo)[h..] == Difference(K, d, b);
    }
  }

  /** Folds the top variable of one half, the `2 h` entries from `at` on. */
  method FoldHalf(K: Field, table: array<Elem>, at: nat, h: nat, r: Elem)
    requires at + 2 * h <= table.Length
    modifies table
    ensures table[at..at + h] == Blended(K, old(table[at..at + h]), old(table[at + h..at + 2 * h]), r)
    ensures forall k :: 0 <= k < at || at + h <= k < table.Length ==> table[k] == old(table[k])
  {
    for j := 0 to h
      invariant forall k :: 0 <= k < at || at + j <= k < table.Length ==> table[k] == old(table[k])
      invariant forall k :: at <= k < at + j ==> table[k] == Lerp(K, old(table[k]), old(table[k + h]), r)
    {
      var lo, hi := table[at + j], table[at + h + j];
      table[at + j] := K.add(lo, K.mul(r, K.add(hi, lo)));
    }
  }

  // ---------------------------------------------------------------- one round of the prover

  /** The two halves hold the factors of the layer, bound at the coordinates seen so far. */
  ghost predicate Holding(K: Field, t: Cube, n: nat, v: Verifier, left: seq<Elem>, right: seq<Elem>)
    requires InLayer(t, n, v)
  {
    var k := |v.point| - |v.bound|;
    && |left| == |right| == Pow2(k)
    && CubeOf(left, k) == Factors(K, t, n, v).0
    && CubeOf(right, k) == Factors(K, t, n, v).1
  }

  ghost function ScaledSum(K: Field, f: Elem, eq: seq<Elem>, l: seq<Elem>, r: seq<Elem>): Elem
    requires |eq| == |l| == |r|
  {
    K.mul(f, WeightedSum(K, eq, l, r, |eq|))
  }

  lemma {:induction false} SumsFromHalves(K: Field, t: Cube, n: nat, v: Verifier, loL: seq<Elem>, hiL: seq<Elem>, loR: seq<Elem>, hiR: seq<Elem>)
    requires K.Valid() && InLayer(t, n, v) && |v.bound| < |v.point|
    requires |loL| == |hiL| == |loR| == |hiR| == Pow2(|v.point| - |v.bound| - 1)
    requires Holding(K, t, n, v, loL + hiL, loR + hiR)
    ensures var eq := TopWeights(K, v.point[|v.bound| + 1..]);
      Sums(K, t, n, v) == (ScaledSum(K, v.prefix, eq, loL, loR), ScaledSum(K, v.prefix, eq, hiL, hiR),
        ScaledSum(K, v.prefix, eq, Difference(K, hiL, loL), Difference(K, hiR, loR)))
  {
    hide WeightedSum, TopWeights, Difference, Triple;
    var rest := v.point[|v.bound| + 1..];
    var k := |rest|;
    CubeOfConcat(loL, hiL, k);
    CubeOfConcat(loR, hiR, k);
    HalvesCube(K, loL, hiL, K.zero, k);
    HalvesCube(K, loR, hiR, K.zero, k);
    WeightedSumIsTriple(K, rest, loL, loR);
    WeightedSumIsTriple(K, rest, hiL, hiR);
    WeightedSumIsTriple(K, rest, Difference(K, hiL, loL), Difference(K, hiR, loR));
  }

  lemma {:induction false} HoldingNext(K: Field, t: Cube, n: nat, v: Verifier, loL: seq<Elem>, hiL: seq<Elem>, loR: seq<Elem>, hiR: seq<Elem>,
      message: (Elem, Elem), c: Elem)
    requires InLayer(t, n, v) && |v.bound| < |v.point|
    requires |loL| == |hiL| == |loR| == |hiR| == Pow2(|v.point| - |v.bound| - 1)
    requires Holding(K, t, n, v, loL + hiL, loR + hiR)
    ensures Holding(K, t, n, Step(K, v, message, c), Blended(K, loL, hiL, c), Blended(K, loR, hiR, c))
  {
    hide Layer, Blended;
    var k := |v.point| - |v.bound| - 1;
    CubeOfConcat(loL, hiL, k);
    CubeOfConcat(loR, hiR, k);
    HalvesCube(K, loL, hiL, c, k);
    HalvesCube(K, loR, hiR, c, k);
    assert (v.bound + [c])[..|v.bound|] == v.bound;
  }

  /** The message of every round but the last: the endpoint is the value at one when `z` is zero. */
  method RoundMessage(K: Field, loL: seq<Elem>, hiL: seq<Elem>, loR: seq<Elem>, hiR: seq<Elem>, eq: seq<Elem>, z: Elem, factor: Elem,
      ghost t: Cube, ghost n: nat, ghost v: Verifier) returns (m: (Elem, Elem))
    requires K.Valid() && InLayer(t, n, v) && |v.bound| + 1 < |v.point| && v.prefix == factor && z == v.point[|v.bound|]
    requires |loL| == |hiL| == |loR| == |hiR| == Pow2(|v.point| - |v.bound| - 1)
    requires eq == TopWeights(K, v.point[|v.bound| + 1..])
    requires Holding(K, t, n, v, loL + hiL, loR + hiR)
    ensures m == HonestMessage(K, t, n, v)
  {
    hide Holding, Sums, WeightedSum, Difference, TopWeights, Pow2;
    SumsFromHalves(K, t, n, v, loL, hiL, loR, hiR);
    Pow2Even(|v.point| - |v.bound| - 1);
    var sendOne := z == K.zero;
    var endpoint, inf := ReduceSumcheckRound(K, sendOne, loL, loR, hiL, hiR, eq);
    m := (K.mul(factor, endpoint), K.mul(factor, inf));
  }

  /** The message of the last round, where the only weight is one. */
  method LastMessage(K: Field, loL: Elem, hiL: Elem, loR: Elem, hiR: Elem, z: Elem, factor: Elem,
      ghost t: Cube, ghost n: nat, ghost v: Verifier) returns (m: (Elem, Elem))
    requires K.Valid() && InLayer(t, n, v) && |v.bound| + 1 == |v.point| && v.prefix == factor && z == v.point[|v.bound|]
    requires Holding(K, t, n, v, [loL] + [hiL], [loR] + [hiR])
    ensures m == HonestMessage(K, t, n, v)
  {
    hide Holding, Sums, WeightedSum, Difference;
    SumsFromHalves(K, t, n, v, [loL], [hiL], [loR], [hiR]);
    assert v.point[|v.bound| + 1..] == [];
    WeightedSumOne(K, [loL], [loR]);
    WeightedSumOne(K, [hiL], [hiR]);
    WeightedSumOne(K, Difference(K, [hiL], [loL]), Difference(K, [hiR], [loR]));
    var l, r := if z == K.zero then hiL else loL, if z == K.zero then hiR else loR;
    m := (K.mul(factor, K.mul(l, r)), K.mul(factor, K.mul(K.add(hiL, loL), K.add(hiR, loR))));
  }

  /** Folds the top variable of both tables in place. */
  method FoldBoth(K: Field, w: array<Elem>, mid: nat, h: nat, r: Elem)
    requires 2 * h <= mid && mid + 2 * h <= w.Length
    modifies w
    ensures w[..h] == Blended(K, old(w[..h]), old(w[h..2 * h]), r)
    ensures w[mid..mid + h] == Blended(K, old(w[mid..mid + h]), old(w[mid + h..mid + 2 * h]), r)
  {
    hide Blended;
    ghost var loR, hiR := w[mid..mid + h], w[mid + h..mid + 2 * h];
    FoldHalf(K, w, 0, h, r);
    assert w[mid..mid + h] == loR && w[mid + h..mid + 2 * h] == hiR;
    ghost var left := w[..h];
    FoldHalf(K, w, mid, h, r);
    assert w[..h] == left;
  }

  /** Sends a round's message, draws its challenge and folds both tables at it. */
  method FinishRound(K: Field, w: array<Elem>, mid: nat, h: nat, m: (Elem, Elem), z: Elem, factor: Elem, ps: ProverState,
      ghost t: Cube, ghost n: nat, ghost v: Verifier) returns (r: Elem, factor': Elem)
    requires K.Valid() && InLayer(t, n, v) && |v.bound| < |v.point| && v.prefix == factor && z == v.point[|v.bound|]
    requires h == Pow2(|v.point| - |v.bound| - 1) && 2 * h <= mid && mid + 2 * h <= w.Length
    requires Holding(K, t, n, v, w[..2 * h], w[mid..mid + 2 * h])
    modifies w, ps
    ensures r == ps.challenges(old(ps.drawn)) && ps.drawn == old(ps.drawn) + 1
    ensures ps.records == old(ps.records) + [m.0, m.1]
    ensures Step(K, v, m, r) == Running(v.point, v.bound + [r], Step(K, v, m, r).claim, factor')
    ensures Holding(K, t, n, Step(K, v, m, r), w[..h], w[mid..mid + h])
  {
    hide Holding, RoundClaim, EqFactor, Blended;
    ghost var loL, hiL, loR, hiR := w[..h], w[h..2 * h], w[mid..mid + h], w[mid + h..mid + 2 * h];
    assert w[..2 * h] == loL + hiL && w[mid..mid + 2 * h] == loR + hiR;
    ps.Send([m.0, m.1]);
    r := ps.Challenge();
    HoldingNext(K, t, n, v, loL, hiL, loR, hiR, m, r);
    FoldBoth(K, w, mid, h, r);
    factor' := K.mul(factor, EqFactor(K, r, z));
  }

  /** A round of the main loop: the sums are weighted by one level of the suffix table. */
  method MainRound(K: Field, storage: array<Elem>, w: array<Elem>, mid: nat, h: nat, z: Elem, factor: Elem, ps: ProverState,
      ghost t: Cube, ghost n: nat, ghost v: Verifier) returns (r: Elem, factor': Elem)
    requires K.Valid() && InLayer(t, n, v) && |v.bound| + 1 < |v.point| && v.prefix == factor && z == v.point[|v.bound|]
    requires h == Pow2(|v.point| - |v.bound| - 1) && 2 * h <= mid && mid + 2 * h <= w.Length
    requires Suffixes(K, storage[..], v.point, |v.point|) && storage != w
    requires Holding(K, t, n, v, w[..2 * h], w[mid..mid + 2 * h])
    modifies w, ps
    ensures r == ps.challenges(old(ps.drawn)) && ps.drawn == old(ps.drawn) + 1
    ensures var m := HonestMessage(K, t, n, v);
      && ps.records == old(ps.records) + [m.0, m.1]
      && Step(K, v, m, r) == Running(v.point, v.bound + [r], Step(K, v, m, r).claim, factor')
      && Holding(K, t, n, Step(K, v, m, r), w[..h], w[mid..mid + h])
  {
    hide Holding, HonestMessage, Step, Suffixes;
    var i := |v.point| - |v.bound| - 1;
    assert LevelHolds(K, storage[..], v.point, i) by { SuffixesLevel(K, storage[..], v.point, i); }
    var eq := storage[h - 1..2 * h - 1];
    assert eq == Level(storage[..], i);
    assert w[..2 * h] == w[..h] + w[h..2 * h] && w[mid..mid + 2 * h] == w[mid..mid + h] + w[mid + h..mid + 2 * h];
    var m := RoundMessage(K, w[..h], w[h..2 * h], w[mid..mid + h], w[mid + h..mid + 2 * h], eq, z, factor, t, n, v);
    r, factor' := FinishRound(K, w, mid, h, m, z, factor, ps, t, n, v);
  }

  lemma {:induction false} SuffixesLevel(K: Field, storage: seq<Elem>, point: seq<Elem>, i: nat)
    requires i < |point| && Suffixes(K, storage, point, |point|)
    ensures LevelHolds(K, storage, point, i)
  {
  }

  method LastRound(K: Field, w: array<Elem>, mid: nat, z: Elem, factor: Elem, ps: ProverState,
      ghost t: Cube, ghost n: nat, ghost v: Verifier) returns (r: Elem, factor': Elem)
    requires K.Valid() && InLayer(t, n, v) && |v.bound| + 1 == |v.point| && v.prefix == factor && z == v.point[|v.bound|]
    requires 2 <= mid && mid + 2 <= w.Length
    requires Holding(K, t, n, v, w[..2], w[mid..mid + 2])
    modifies w, ps
    ensures r == ps.challenges(old(ps.drawn)) && ps.drawn == old(ps.drawn) + 1
    ensures var m := HonestMessage(K, t, n, v);
      && ps.records == old(ps.records) + [m.0, m.1]
      && Step(K, v, m, r) == Running(v.point, v.bound + [r], Step(K, v, m, r).claim, factor')
      && Holding(K, t, n, Step(K, v, m, r), w[..1], w[mid..mid + 1])
  {
    hide Holding, HonestMessage, Step;
    assert w[..2] == [w[0]] + [w[1]] && w[mid..mid + 2] == [w[mid]] + [w[mid + 1]];
    var m := LastMessage(K, w[0], w[1], w[mid], w[mid + 1], z, factor, t, n, v);
    r, factor' := FinishRound(K, w, mid, 1, m, z, factor, ps, t, n, v);
  }

  // ---------------------------------------------------------------- one layer

  lemma {:induction false} HonestNextStep(K: Field, t: Cube, n: nat, v: Verifier, seen: seq<Elem>, c: Elem)
    requires Full(t, n) && InLayer(t, n, HonestRun(K, t, n, v, seen))
    ensures var w := HonestRun(K, t, n, v, seen);
      var m := HonestMessage(K, t, n, w);
      && HonestRun(K, t, n, v, seen + [c]) == Step(K, w, m, c)
      && HonestLayerRecords(K, t, n, v, seen + [c]) == HonestLayerRecords(K, t, n, v, seen) + [m.0, m.1]
  {
    assert (seen + [c])[..|seen|] == seen;
  }

  lemma {:induction false} HonestBegins(K: Field, t: Cube, n: nat, v: Verifier)
    requires Full(t, n)
    ensures HonestRun(K, t, n, v, []) == v && HonestLayerRecords(K, t, n, v, []) == []
  {
  }

  /** The layer's table, read as its two halves, starts the first round. */
  lemma {:induction false} HoldingFirst(K: Field, t: Cube, n: nat, v: Verifier, table: seq<Elem>)
    requires InLayer(t, n, v) && v.bound == [] && |table| == Pow2(|v.point| + 1)
    requires CubeOf(table, |v.point| + 1) == Layer(K, t, n, |v.point| + 1)
    ensures Holding(K, t, n, v, table[..Pow2(|v.point|)], table[Pow2(|v.point|)..])
  {
    hide Layer;
    var h := Pow2(|v.point|);
    CubeOfConcat(table[..h], table[h..], |v.point|);
    assert table[..h] + table[h..] == table;
  }

  /** When every coordinate is bound, the entries left are the values the line runs through. */
  lemma {:induction false} HoldingLast(K: Field, t: Cube, n: nat, v: Verifier, left: seq<Elem>, right: seq<Elem>)
    requires InLayer(t, n, v) && |v.bound| == |v.point| && Holding(K, t, n, v, left, right)
    ensures |left| == |right| == 1 && HonestMessage(K, t, n, v) == (left[0], right[0])
  {
  }

  /** From a true claim the closing check passes, and the next claim lies on the line. */
  lemma {:induction false} ClosingStep(K: Field, t: Cube, n: nat, v: Verifier, m: nat, rho: seq<Elem>, c: Elem)
    requires K.Valid() && Full(t, n) && m < n && |rho| == m && OnTrack(K, t, n, v, m, 0)
    ensures var w := HonestRun(K, t, n, v, rho);
      && InLayer(t, n, w) && |w.bound| == |w.point|
      && var (a, b) := HonestMessage(K, t, n, w);
         HonestRun(K, t, n, v, rho + [c]) == Running([c] + w.bound, [], Lerp(K, a, b, c), K.one)
  {
    hide HonestRun, Steps, Truth, HonestMessage, HonestLayerRecords, Lerp;
    FirstLayer(m, m);
    assert m <= Steps(m, n - m) by { OneLayer(m, n - m); }
    HonestRunTrue(K, t, n, v, m, rho);
    var w := HonestRun(K, t, n, v, rho);
    HonestNextStep(K, t, n, v, rho, c);
    HonestStep(K, t, n, w, c);
  }

  lemma {:induction false} OneLayer(m: nat, layers: nat)
    requires layers > 0
    ensures Steps(m, layers) >= m + 1
  {
  }

  /** Where the prover stands inside a layer: what it has sent, and what its two tables hold. */
  ghost predicate Progress(K: Field, t: Cube, n: nat, start: Verifier, v: Verifier, bound: seq<Elem>,
      sent: seq<Elem>, left: seq<Elem>, right: seq<Elem>)
  {
    && InLayer(t, n, v) && start.Running? && v.point == start.point && v.bound == bound
    && v == HonestRun(K, t, n, start, bound)
    && sent == HonestLayerRecords(K, t, n, start, bound)
    && Holding(K, t, n, v, left, right)
  }

  lemma {:induction false} ProgressFirst(K: Field, t: Cube, n: nat, start: Verifier, table: seq<Elem>)
    requires InLayer(t, n, start) && start.bound == [] && |table| == Pow2(|start.point| + 1)
    requires CubeOf(table, |start.point| + 1) == Layer(K, t, n, |start.point| + 1)
    ensures Progress(K, t, n, start, start, [], [], table[..Pow2(|start.point|)], table[Pow2(|start.point|)..])
  {
    HonestBegins(K, t, n, start);
    HoldingFirst(K, t, n, start, table);
  }

  lemma {:induction false} ProgressNext(K: Field, t: Cube, n: nat, start: Verifier, v: Verifier, bound: seq<Elem>,
      sent: seq<Elem>, left: seq<Elem>, right: seq<Elem>, r: Elem, factor': Elem, left': seq<Elem>, right': seq<Elem>)
    requires Progress(K, t, n, start, v, bound, sent, left, right) && |bound| < |v.point|
    requires var m := HonestMessage(K, t, n, v);
      && Step(K, v, m, r) == Running(v.point, v.bound + [r], Step(K, v, m, r).claim, factor')
      && Holding(K, t, n, Step(K, v, m, r), left', right')
    ensures var m := HonestMessage(K, t, n, v);
      Progress(K, t, n, start, Step(K, v, m, r), bound + [r], sent + [m.0, m.1], left', right')
  {
    hide Holding, HonestRun, HonestLayerRecords, HonestMessage, Step;
    HonestNextStep(K, t, n, start, bound, r);
  }

  lemma {:induction false} ProgressState(K: Field, t: Cube, n: nat, start: Verifier, v: Verifier, bound: seq<Elem>,
      sent: seq<Elem>, left: seq<Elem>, right: seq<Elem>)
    requires Progress(K, t, n, start, v, bound, sent, left, right)
    ensures InLayer(t, n, v) && start.Running? && v.point == start.point && v.bound == bound
    ensures Holding(K, t, n, v, left, right)
  {
  }

  /** All rounds of a layer but the last. */
  method MainRounds(K: Field, ps: ProverState, storage: array<Elem>, point: seq<Elem>, w: array<Elem>, mid: nat,
      ghost t: Cube, ghost n: nat, ghost start: Verifier) returns (bound: seq<Elem>, factor: Elem, ghost v: Verifier, ghost sent: seq<Elem>)
    requires K.Valid() && InLayer(t, n, start) && start.point == point && start.prefix == K.one && |point| > 0
    requires mid == Pow2(|point|) && w.Length == mid + mid && storage != w
    requires Suffixes(K, storage[..], point, |point|)
    requires Progress(K, t, n, start, start, [], [], w[..mid], w[mid..])
    modifies ps, w
    ensures ps.drawn == old(ps.drawn) + |point| - 1 && bound == Drawn(ps.challenges, old(ps.drawn), |point| - 1)
    ensures ps.records == old(ps.records) + sent
    ensures v.Running? && v.prefix == factor && Progress(K, t, n, start, v, bound, sent, w[..2], w[mid..mid + 2])
  {
    hide Progress, Holding, HonestMessage, Step, Suffixes;
    ghost var records := ps.records;
    var h := mid;
    factor, bound, v, sent := K.one, [], start, [];
    assert w[mid..mid + h] == w[mid..];
    for i := 0 to |point| - 1
      invariant ps.drawn == old(ps.drawn) + i && bound == Drawn(ps.challenges, old(ps.drawn), i)
      invariant h == Pow2(|point| - i) && h <= mid && v.Running? && v.prefix == factor
      invariant Progress(K, t, n, start, v, bound, sent, w[..h], w[mid..mid + h])
      invariant ps.records == records + sent
      invariant Suffixes(K, storage[..], point, |point|)
    {
      h := h / 2;
      ghost var left, right := w[..2 * h], w[mid..mid + 2 * h];
      ProgressState(K, t, n, start, v, bound, sent, left, right);
      ghost var m := HonestMessage(K, t, n, v);
      var r;
      r, factor := MainRound(K, storage, w, mid, h, point[i], factor, ps, t, n, v);
      ProgressNext(K, t, n, start, v, bound, sent, left, right, r, factor, w[..h], w[mid..mid + h]);
      v, bound, sent := Step(K, v, m, r), bound + [r], sent + [m.0, m.1];
    }
  }

  /** All rounds of a layer. */
  method ProveCubicRounds(K: Field, ps: ProverState, storage: array<Elem>, point: seq<Elem>, w: array<Elem>, mid: nat,
      ghost t: Cube, ghost n: nat, ghost start: Verifier) returns (bound: seq<Elem>, ghost v: Verifier, ghost sent: seq<Elem>)
    requires K.Valid() && InLayer(t, n, start) && start.point == point && start.prefix == K.one && |point| > 0
    requires mid == Pow2(|point|) && w.Length == mid + mid && storage != w
    requires Suffixes(K, storage[..], point, |point|)
    requires Progress(K, t, n, start, start, [], [], w[..mid], w[mid..])
    modifies ps, w
    ensures ps.drawn == old(ps.drawn) + |point| && bound == Drawn(ps.challenges, old(ps.drawn), |point|)
    ensures ps.records == old(ps.records) + sent
    ensures Progress(K, t, n, start, v, bound, sent, w[..1], w[mid..mid + 1])
  {
    hide Progress, Holding, HonestMessage, Step, Suffixes;
    var factor;
    bound, factor, v, sent := MainRounds(K, ps, storage, point, w, mid, t, n, start);
    ghost var left, right := w[..2], w[mid..mid + 2];
    ProgressState(K, t, n, start, v, bound, sent, left, right);
    ghost var m := HonestMessage(K, t, n, v);
    var r;
    r, factor := LastRound(K, w, mid, point[|point| - 1], factor, ps, t, n, v);
    ProgressNext(K, t, n, start, v, bound, sent, left, right, r, factor, w[..1], w[mid..mid + 1]);
    v, bound, sent := Step(K, v, m, r), bound + [r], sent + [m.0, m.1];
  }

  /** One layer: the records are the honest ones for the challenges drawn, and the point and the claim
      are those the verifier derives from them. */
  method ProveLayer(K: Field, ps: ProverState, storage: array<Elem>, point: seq<Elem>, w: array<Elem>, ghost t: Cube, ghost n: nat)
      returns (next: seq<Elem>, claim: Elem)
    requires K.Valid() && Full(t, n) && |point| < n && storage != w
    requires storage.Length > 0 && Pow2(|point|) - 1 <= storage.Length
    requires w.Length == Pow2(|point| + 1) && CubeOf(w[..], |point| + 1) == Layer(K, t, n, |point| + 1)
    modifies ps, storage, w
    ensures ps.drawn == old(ps.drawn) + |point| + 1
    ensures var v := Start(K, point, Top(K, Layer(K, t, n, |point|), point));
      var rho := Drawn(ps.challenges, old(ps.drawn), |point| + 1);
      && ps.records == old(ps.records) + HonestLayerRecords(K, t, n, v, rho)
      && HonestRun(K, t, n, v, rho) == Start(K, next, claim) && |next| == |point| + 1
  {
    hide Holding, HonestRun, HonestMessage, HonestLayerRecords, Layer, Top, Step, Lerp, Suffixes;
    ghost var start := Start(K, point, Top(K, Layer(K, t, n, |point|), point));
    ProgressFirst(K, t, n, start, w[..]);
    FillSuffixTable(K, storage, point);
    var mid, bound := w.Length / 2, [];
    assert w[..mid] == w[..][..mid] && w[mid..] == w[..][mid..];
    ghost var v, sent := start, [];
    if |point| > 0 {
      bound, v, sent := ProveCubicRounds(K, ps, storage, point, w, mid, t, n, start);
    } else {
      assert w[mid..mid + 1] == w[mid..];
    }
    HoldingLast(K, t, n, v, w[..1], w[mid..mid + 1]);
    var left, right := w[0], w[mid];
    HonestNextStep(K, t, n, start, bound, ps.challenges(ps.drawn));
    ClosingStep(K, t, n, start, |point|, bound, ps.challenges(ps.drawn));
    ps.Send([left, right]);
    var r := ps.Challenge();
    next, claim := [r] + bound, Lerp(K, left, right, r);
  }
}
