/** Multilinear extensions of tables on the Boolean cube, and the kernels that evaluate and fold
    them. Index bit `i` belongs to coordinate `i` of a point. */
module Multilinear {
  import N = Numerals
  import opened FiniteField
  import opened Powers

  // ---------------------------------------------------------------- vectors

  function Dot(K: Field, a: seq<Elem>, b: seq<Elem>): Elem
    requires |a| == |b|
  {
    if |a| == 0 then K.zero
    else K.add(Dot(K, a[..|a| - 1], b[..|a| - 1]), K.mul(a[|a| - 1], b[|a| - 1]))
  }

  function Scale(K: Field, r: Elem, a: seq<Elem>): (s: seq<Elem>)
    ensures |s| == |a| && forall i :: 0 <= i < |a| ==> s[i] == K.mul(r, a[i])
  {
    seq(|a|, i requires 0 <= i < |a| => K.mul(r, a[i]))
  }

  lemma {:induction false} DotConcat(K: Field, a: seq<Elem>, b: seq<Elem>, c: seq<Elem>, d: seq<Elem>)
    requires K.Valid() && |a| == |b| && |c| == |d|
    ensures Dot(K, a + c, b + d) == K.add(Dot(K, a, b), Dot(K, c, d))
  {
    if |c| == 0 {
      assert a + c == a && b + d == b;
      assert K.AddCancels(Dot(K, a, b));
    } else {
      var n := |c| - 1;
      DotConcat(K, a, b, c[..n], d[..n]);
      assert (a + c)[..|a + c| - 1] == a + c[..n] && (b + d)[..|b + d| - 1] == b + d[..n];
      assert K.AddAssociates(Dot(K, a, b), Dot(K, c[..n], d[..n]), K.mul(c[n], d[n]));
    }
  }

  lemma {:induction false} DotScale(K: Field, a: seq<Elem>, r: Elem, b: seq<Elem>)
    requires K.Valid() && |a| == |b|
    ensures Dot(K, a, Scale(K, r, b)) == K.mul(r, Dot(K, a, b))
  {
    if |a| == 0 {
      K.Units(r);
    } else {
      var n := |a| - 1;
      DotScale(K, a[..n], r, b[..n]);
      assert Scale(K, r, b)[..n] == Scale(K, r, b[..n]);
      K.Dist(r, Dot(K, a[..n], b[..n]), K.mul(a[n], b[n]));
      K.Swap(a[n], r, b[n]);
    }
  }

  // ---------------------------------------------------------------- the extension

  /** `eq(b, p)`: the product of `p[i]` over the set bits of `b` and of `1 - p[i]` over the others. */
  function Weight(K: Field, p: seq<Elem>, b: nat): Elem {
    if |p| == 0 then K.one
    else K.mul(if b % 2 == 1 then p[0] else K.add(K.one, p[0]), Weight(K, p[1..], b / 2))
  }

  function Weights(K: Field, p: seq<Elem>): (w: seq<Elem>)
    ensures |w| == Pow2(|p|) && forall b :: 0 <= b < |w| ==> w[b] == Weight(K, p, b)
  {
    seq(Pow2(|p|), b requires 0 <= b => Weight(K, p, b))
  }

  /** The multilinear extension of `t` at `p`, by its definition as a sum over the cube. */
  function Mle(K: Field, t: seq<Elem>, p: seq<Elem>): Elem
    requires |t| == Pow2(|p|)
  {
    Dot(K, t, Weights(K, p))
  }

  function Lerp(K: Field, lo: Elem, hi: Elem, r: Elem): Elem {
    K.add(lo, K.mul(r, K.add(hi, lo)))
  }

  lemma {:induction false} LerpWeights(K: Field, lo: Elem, hi: Elem, r: Elem)
    requires K.Valid()
    ensures Lerp(K, lo, hi, r) == K.add(K.mul(K.add(K.one, r), lo), K.mul(r, hi))
  {
    K.Dist(r, hi, lo);
    K.Dist(lo, K.one, r);
    K.Units(lo);
    K.Additive();
  }

  lemma {:induction false} SingleEntry(K: Field, t: seq<Elem>, p: seq<Elem>)
    requires K.Valid() && |p| == 0 && |t| == 1
    ensures Mle(K, t, p) == t[0]
  {
    assert t[..0] == [] && Weights(K, p)[..0] == [];
    assert Dot(K, t, Weights(K, p)) == K.add(Dot(K, t[..0], Weights(K, p)[..0]), K.mul(t[0], K.one));
    K.Units(t[0]);
    K.Additive();
  }

  /** The last coordinate of a point weighs the top bit of an index. */
  lemma {:induction false} WeightTop(K: Field, p: seq<Elem>, r: Elem, b: nat)
    requires K.Valid() && b < Pow2(|p|)
    ensures Weight(K, p + [r], b) == K.mul(K.add(K.one, r), Weight(K, p, b))
    ensures Weight(K, p + [r], b + Pow2(|p|)) == K.mul(r, Weight(K, p, b))
  {
    if |p| == 0 {
      assert (p + [r])[1..] == [];
    } else {
      var q, h := p[1..], Pow2(|p| - 1);
      assert (p + [r])[1..] == q + [r] && (p + [r])[0] == p[0];
      WeightTop(K, q, r, b / 2);
      assert (b + 2 * h) / 2 == b / 2 + h && (b + 2 * h) % 2 == b % 2;
      var u := if b % 2 == 1 then p[0] else K.add(K.one, p[0]);
      K.Swap(u, K.add(K.one, r), Weight(K, q, b / 2));
      K.Swap(u, r, Weight(K, q, b / 2));
    }
  }

  lemma {:induction false} WeightsTop(K: Field, p: seq<Elem>, r: Elem)
    requires K.Valid()
    ensures Weights(K, p + [r]) == Scale(K, K.add(K.one, r), Weights(K, p)) + Scale(K, r, Weights(K, p))
  {
    var n := Pow2(|p|);
    forall b: nat | b < n
      ensures Weights(K, p + [r])[b] == K.mul(K.add(K.one, r), Weights(K, p)[b])
      ensures Weights(K, p + [r])[b + n] == K.mul(r, Weights(K, p)[b])
    {
      WeightTop(K, p, r, b);
    }
    var S := Scale(K, K.add(K.one, r), Weights(K, p)) + Scale(K, r, Weights(K, p));
    forall b | 0 <= b < 2 * n ensures Weights(K, p + [r])[b] == S[b] {
      if b >= n {
        assert Weights(K, p + [r])[(b - n) + n] == K.mul(r, Weights(K, p)[b - n]);
      }
    }
  }

  /** Binding the top variable interpolates between the two halves of the table. */
  lemma {:induction false} MleHigh(K: Field, lo: seq<Elem>, hi: seq<Elem>, p: seq<Elem>, r: Elem)
    requires K.Valid() && |lo| == |hi| == Pow2(|p|)
    ensures |lo + hi| == Pow2(|p + [r]|)
    ensures Mle(K, lo + hi, p + [r]) == Lerp(K, Mle(K, lo, p), Mle(K, hi, p), r)
  {
    WeightsTop(K, p, r);
    var w := Weights(K, p);
    DotConcat(K, lo, Scale(K, K.add(K.one, r), w), hi, Scale(K, r, w));
    DotScale(K, lo, K.add(K.one, r), w);
    DotScale(K, hi, r, w);
    LerpWeights(K, Mle(K, lo, p), Mle(K, hi, p), r);
  }

  // ---------------------------------------------------------------- on the cube

  /** The point of an index: coordinate `i` is its bit `i`. */
  ghost function Vertex(K: Field, n: nat, b: nat): (p: seq<Elem>)
    ensures |p| == n && forall i: nat :: i < n ==> p[i] == if b / Pow2(i) % 2 == 1 then K.one else K.zero
  {
    seq(n, i requires 0 <= i < n => if b / Pow2(i) % 2 == 1 then K.one else K.zero)
  }

  lemma {:induction false} VertexTail(K: Field, n: nat, b: nat)
    requires n > 0
    ensures Vertex(K, n, b)[1..] == Vertex(K, n - 1, b / 2)
    ensures Vertex(K, n, b)[0] == if b % 2 == 1 then K.one else K.zero
  {
    assert Pow2(0) == 1;
    var tail, rest := Vertex(K, n, b)[1..], Vertex(K, n - 1, b / 2);
    forall i: nat | i < n - 1 ensures tail[i] == rest[i] {
      assert tail[i] == Vertex(K, n, b)[i + 1];
      assert Pow2(i + 1) == 2 * Pow2(i);
      N.NestedQuotient(b, Pow2(i));
    }
  }

  /** At its own vertex an index weighs one, at the others nothing. */
  lemma {:induction false} WeightAtVertex(K: Field, n: nat, b: nat, c: nat)
    requires K.Valid() && b < Pow2(n) && c < Pow2(n)
    ensures Weight(K, Vertex(K, n, b), c) == if b == c then K.one else K.zero
    decreases n
  {
    if n > 0 {
      WeightAtVertex(K, n - 1, b / 2, c / 2);
      VertexTail(K, n, b);
      VertexFactor(K, b % 2 == 1, c % 2 == 1, Weight(K, Vertex(K, n - 1, b / 2), c / 2));
    }
  }

  lemma {:induction false} VertexFactor(K: Field, b: bool, c: bool, w: Elem)
    requires K.Valid()
    ensures var p := if b then K.one else K.zero;
      K.mul(if c then p else K.add(K.one, p), w) == if b == c then w else K.zero
  {
    K.Additive();
    K.Units(w);
  }

  lemma {:induction false} DotNothing(K: Field, t: seq<Elem>, w: seq<Elem>)
    requires K.Valid() && |t| == |w| && forall i :: 0 <= i < |w| ==> w[i] == K.zero
    ensures Dot(K, t, w) == K.zero
  {
    if |t| > 0 {
      var n := |t| - 1;
      DotNothing(K, t[..n], w[..n]);
      K.Units(t[n]);
      K.Additive();
    }
  }

  lemma {:induction false} DotSingle(K: Field, t: seq<Elem>, w: seq<Elem>, b: nat)
    requires K.Valid() && b < |t| == |w|
    requires forall i :: 0 <= i < |w| ==> w[i] == if i == b then K.one else K.zero
    ensures Dot(K, t, w) == t[b]
  {
    var n := |t| - 1;
    K.Units(t[n]);
    K.Additive();
    if b == n { DotNothing(K, t[..n], w[..n]); } else { DotSingle(K, t[..n], w[..n], b); }
  }

  /** On the cube the extension is the table. */
  lemma {:induction false} Interpolates(K: Field, t: seq<Elem>, n: nat, b: nat)
    requires K.Valid() && |t| == Pow2(n) && b < Pow2(n)
    ensures Mle(K, t, Vertex(K, n, b)) == t[b]
  {
    hide Vertex, Weight;
    forall c: nat | c < |t| ensures Weights(K, Vertex(K, n, b))[c] == if c == b then K.one else K.zero {
      WeightAtVertex(K, n, b, c);
    }
    DotSingle(K, t, Weights(K, Vertex(K, n, b)), b);
  }

  /** The table with its lowest variable bound at `c`. */
  function Folded(K: Field, t: seq<Elem>, c: Elem): (s: seq<Elem>)
    ensures |s| == |t| / 2
  {
    seq(|t| / 2, i requires 0 <= i < |t| / 2 => Lerp(K, t[2 * i], t[2 * i + 1], c))
  }

  // ---------------------------------------------------------------- evaluation kernels

  /** The unrolled high-variable recursion. */
  function EvaluateExact(K: Field, e: seq<Elem>, r: seq<Elem>): (v: Elem)
    requires |e| == Pow2(|r|)
    decreases |r|
  {
    var at := (zero: Elem, one: Elem, c: Elem) => K.add(zero, K.mul(c, K.add(one, zero)));
    if |r| == 0 then e[0]
    else if |r| == 1 then at(e[0], e[1], r[0])
    else if |r| == 2 then
      assert |e| == 4;
      var a0, a1 := at(e[0], e[1], r[0]), at(e[2], e[3], r[0]);
      at(a0, a1, r[1])
    else if |r| == 3 then
      assert |e| == 8;
      var a00, a01 := at(e[0], e[1], r[0]), at(e[2], e[3], r[0]);
      var a10, a11 := at(e[4], e[5], r[0]), at(e[6], e[7], r[0]);
      var a0, a1 := at(a00, a01, r[1]), at(a10, a11, r[1]);
      at(a0, a1, r[2])
    else if |r| == 4 then
      assert |e| == 16;
      var a000, a001 := at(e[0], e[1], r[0]), at(e[2], e[3], r[0]);
      var a010, a011 := at(e[4], e[5], r[0]), at(e[6], e[7], r[0]);
      var a100, a101 := at(e[8], e[9], r[0]), at(e[10], e[11], r[0]);
      var a110, a111 := at(e[12], e[13], r[0]), at(e[14], e[15], r[0]);
      var a00, a01 := at(a000, a001, r[1]), at(a010, a011, r[1]);
      var a10, a11 := at(a100, a101, r[1]), at(a110, a111, r[1]);
      var a0, a1 := at(a00, a01, r[2]), at(a10, a11, r[2]);
      at(a0, a1, r[3])
    else
      var n := |r| - 1;
      at(EvaluateExact(K, e[..Pow2(n)], r[..n]), EvaluateExact(K, e[Pow2(n)..], r[..n]), r[n])
  }

  lemma {:induction false} EvaluateExactHalves(K: Field, e: seq<Elem>, r: seq<Elem>)
    requires |r| > 0 && |e| == Pow2(|r|)
    ensures EvaluateExact(K, e, r)
      == Lerp(K, EvaluateExact(K, e[..Pow2(|r| - 1)], r[..|r| - 1]),
              EvaluateExact(K, e[Pow2(|r| - 1)..], r[..|r| - 1]), r[|r| - 1])
  {
    if |r| == 1 {
    } else if |r| == 2 {
      assert Pow2(2) == 4 && Pow2(1) == 2;
    } else if |r| == 3 {
      assert Pow2(3) == 8 && Pow2(2) == 4;
    } else if |r| == 4 {
      assert Pow2(4) == 16 && Pow2(3) == 8;
    }
  }

  lemma {:induction false} EvaluateExactIsMle(K: Field, e: seq<Elem>, r: seq<Elem>)
    requires K.Valid() && |e| == Pow2(|r|)
    ensures EvaluateExact(K, e, r) == Mle(K, e, r)
    decreases |r|
  {
    if |r| == 0 {
      SingleEntry(K, e, r);
    } else {
      var n := |r| - 1;
      var lo, hi := e[..Pow2(n)], e[Pow2(n)..];
      EvaluateExactHalves(K, e, r);
      EvaluateExactIsMle(K, lo, r[..n]);
      EvaluateExactIsMle(K, hi, r[..n]);
      MleHigh(K, lo, hi, r[..n], r[n]);
      assert lo + hi == e && r[..n] + [r[n]] == r;
    }
  }

  /** One level of the equality table: the lower half holds the parents, the upper half receives
      their one-children. */
  method DoubleLevel(K: Field, table: array<Elem>, half: nat, c: Elem)
    requires K.Valid() && 2 * half <= table.Length
    modifies table
    ensures table[..2 * half] == Scale(K, K.add(K.one, c), old(table[..half])) + Scale(K, c, old(table[..half]))
  {
    for j := 0 to half
      invariant forall k :: 0 <= k < j ==> table[k] == K.mul(K.add(K.one, c), old(table[k]))
      invariant forall k :: 0 <= k < j ==> table[half + k] == K.mul(c, old(table[k]))
      invariant forall k :: j <= k < half ==> table[k] == old(table[k])
    {
      var parent := table[j];
      var oneValue := K.mul(parent, c);
      K.Dist(parent, K.one, c);
      K.Units(parent);
      K.Comm(parent, c);
      table[j] := K.add(parent, oneValue);
      table[half + j] := oneValue;
    }
  }

  /** The equality table, doubled in place level by level. */
  method EqTable(K: Field, r: seq<Elem>) returns (table: array<Elem>)
    requires K.Valid()
    ensures fresh(table) && table[..] == Weights(K, r)
  {
    table := new Elem[Pow2(|r|)](_ => K.zero);
    table[0] := K.one;
    assert table[..1] == Weights(K, r[..0]);
    for i := 0 to |r|
      invariant Pow2(i) <= table.Length && table[..Pow2(i)] == Weights(K, r[..i])
    {
      Pow2Monotone(i + 1, |r|);
      DoubleLevel(K, table, Pow2(i), r[i]);
      WeightsTop(K, r[..i], r[i]);
      assert r[..i] + [r[i]] == r[..i + 1];
    }
    assert r[..|r|] == r;
    assert table[..table.Length] == table[..];
  }

  // ---------------------------------------------------------------- the factored evaluation

  const LOW_BITS := 7

  /** The weight vector of a split point is the tensor product of the factors' vectors. */
  function Tensor(K: Field, rows: seq<Elem>, columns: seq<Elem>): seq<Elem>
  {
    if |columns| == 0 then []
    else Tensor(K, rows, columns[..|columns| - 1]) + Scale(K, columns[|columns| - 1], rows)
  }

  lemma {:induction false} TensorConcat(K: Field, rows: seq<Elem>, a: seq<Elem>, b: seq<Elem>)
    ensures Tensor(K, rows, a + b) == Tensor(K, rows, a) + Tensor(K, rows, b)
  {
    if |b| == 0 {
      assert a + b == a;
    } else {
      TensorConcat(K, rows, a, b[..|b| - 1]);
      assert (a + b)[..|a + b| - 1] == a + b[..|b| - 1];
    }
  }

  lemma {:induction false} TensorScale(K: Field, rows: seq<Elem>, r: Elem, a: seq<Elem>)
    requires K.Valid()
    ensures Tensor(K, rows, Scale(K, r, a)) == Scale(K, r, Tensor(K, rows, a))
  {
    if |a| > 0 {
      var n := |a| - 1;
      TensorScale(K, rows, r, a[..n]);
      assert Scale(K, r, a)[..n] == Scale(K, r, a[..n]);
      forall i | 0 <= i < |rows|
        ensures K.mul(K.mul(r, a[n]), rows[i]) == K.mul(r, K.mul(a[n], rows[i]))
      {
        K.Assoc(r, a[n], rows[i]);
      }
    }
  }

  lemma {:induction false} WeightsTensor(K: Field, low: seq<Elem>, high: seq<Elem>)
    requires K.Valid()
    ensures Weights(K, low + high) == Tensor(K, Weights(K, low), Weights(K, high))
    decreases |high|
  {
    var w := Weights(K, low);
    if |high| == 0 {
      assert low + high == low;
      assert Weights(K, high) == [K.one];
      forall i | 0 <= i < |w| ensures K.mul(K.one, w[i]) == w[i] { K.Units(w[i]); }
      assert Scale(K, K.one, w) == w;
      assert Tensor(K, w, [K.one]) == [] + Scale(K, K.one, w);
    } else {
      var n := |high| - 1;
      var h, r := high[..n], high[n];
      WeightsTensor(K, low, h);
      assert low + high == (low + h) + [r] && high == h + [r];
      WeightsTop(K, low + h, r);
      WeightsTop(K, h, r);
      var wh := Weights(K, h);
      TensorConcat(K, w, Scale(K, K.add(K.one, r), wh), Scale(K, r, wh));
      TensorScale(K, w, K.add(K.one, r), wh);
      TensorScale(K, w, r, wh);
    }
  }

  /** The chunk sums, one per entry of `high`, weighted by it. */
  function ChunkSum(K: Field, e: seq<Elem>, low: seq<Elem>, high: seq<Elem>): Elem
    requires |e| == |low| * |high|
  {
    if |high| == 0 then K.zero
    else
      var n := |high| - 1;
      assert |low| * |high| == |low| * n + |low|;
      K.add(ChunkSum(K, e[..|low| * n], low, high[..n]), K.mul(high[n], Dot(K, e[|low| * n..], low)))
  }

  /** The table read in chunks of the low factor's width. */
  function EvaluateSerial(K: Field, e: seq<Elem>, point: seq<Elem>): Elem
    requires |e| == Pow2(|point|)
  {
    var cut := if |point| < LOW_BITS then |point| else LOW_BITS;
    Pow2Sum(cut, |point| - cut);
    ChunkSum(K, e, Weights(K, point[..cut]), Weights(K, point[cut..]))
  }

  lemma {:induction false} ChunkSumIsTensor(K: Field, e: seq<Elem>, low: seq<Elem>, high: seq<Elem>)
    requires K.Valid() && |e| == |low| * |high|
    ensures |Tensor(K, low, high)| == |e|
    ensures ChunkSum(K, e, low, high) == Dot(K, e, Tensor(K, low, high))
    decreases |high|
  {
    if |high| > 0 {
      var n := |high| - 1;
      assert |low| * |high| == |low| * n + |low|;
      var front, back := e[..|low| * n], e[|low| * n..];
      ChunkSumIsTensor(K, front, low, high[..n]);
      DotConcat(K, front, Tensor(K, low, high[..n]), back, Scale(K, high[n], low));
      DotScale(K, back, high[n], low);
      assert front + back == e;
    }
  }

  lemma {:induction false} EvaluateSerialIsMle(K: Field, e: seq<Elem>, point: seq<Elem>)
    requires K.Valid() && |e| == Pow2(|point|)
    ensures EvaluateSerial(K, e, point) == Mle(K, e, point)
  {
    var cut := if |point| < LOW_BITS then |point| else LOW_BITS;
    Pow2Sum(cut, |point| - cut);
    ChunkSumIsTensor(K, e, Weights(K, point[..cut]), Weights(K, point[cut..]));
    WeightsTensor(K, point[..cut], point[cut..]);
    assert point[..cut] + point[cut..] == point;
  }
}
