/** Reverse-mode differentiation of a recorded graph, over the integers: the adjoints of the inputs are
    the columns of the weighted row sum. */
module WengertAdjoint {
  import opened Circuits
  import opened Wengert
  import opened WengertMeaning
  import opened WengertGroups

  function Inner(a: seq<int>, b: seq<int>): int
    requires |a| == |b|
  {
    if |a| == 0 then 0 else Inner(a[..|a| - 1], b[..|b| - 1]) + a[|a| - 1] * b[|b| - 1]
  }

  lemma {:induction false} InnerUpdate(a: seq<int>, b: seq<int>, i: nat, d: int)
    requires |a| == |b| && i < |a|
    ensures Inner(a[i := a[i] + d], b) == Inner(a, b) + d * b[i]
  {
    var n := |a| - 1;
    var c := a[i := a[i] + d];
    if i == n {
      assert c[..n] == a[..n];
      SumTimes(a[i], d, b[i]);
    } else {
      InnerUpdate(a[..n], b[..n], i, d);
      assert c[..n] == a[..n][i := a[..n][i] + d];
    }
  }

  lemma {:induction false} InnerZero(a: seq<int>, b: seq<int>)
    requires |a| == |b| && forall i :: 0 <= i < |a| ==> a[i] == 0
    ensures Inner(a, b) == 0
  {
    if |a| > 0 { InnerZero(a[..|a| - 1], b[..|b| - 1]); }
  }

  // ---------------------------------------------------------------- the sweep

  /** The adjoints below a node once its own, `a`, has been passed to its terms. */
  function Scattered(s: seq<int>, n: RawNode, a: int): (r: seq<int>)
    ensures |r| == |s| && forall o :: 0 <= o < |s| ==> r[o] == s[o] + Uses(n, o) * a
  {
    seq(|s|, o requires 0 <= o < |s| => s[o] + Uses(n, o) * a)
  }

  /** All adjoints, from the last node down, for the seeds `s`. */
  function Sweep(nodes: seq<RawNode>, s: seq<int>): (adjoints: seq<int>)
    requires |nodes| == |s|
    ensures |adjoints| == |nodes|
  {
    if |nodes| == 0 then []
    else
      var n := |nodes| - 1;
      Sweep(nodes[..n], Scattered(s[..n], nodes[n], s[n])) + [s[n]]
  }

  lemma {:induction false} ScatteredInner(s: seq<int>, terms: seq<RawTerm>, a: int, v: seq<int>)
    requires |s| == |v| && Below(terms, |s|)
    ensures Inner(Scattered(s, Sum(terms), a), v) == Inner(s, v) + a * TermsAt(terms, v)
  {
    if |terms| == 0 {
      assert Scattered(s, Sum(terms), a) == s;
    } else {
      var k := |terms| - 1;
      var before, last := terms[..k], terms[k];
      ScatteredInner(s, before, a, v);
      var t := Scattered(s, Sum(before), a);
      forall o | 0 <= o < |s|
        ensures Scattered(s, Sum(terms), a)[o] == t[last.node := t[last.node] + last.coefficient * a][o]
      {
        SumTimes(CoefficientSum(before, o), last.coefficient, a);
      }
      assert Scattered(s, Sum(terms), a) == t[last.node := t[last.node] + last.coefficient * a];
      InnerUpdate(t, v, last.node, last.coefficient * a);
      Regroup(a, TermsAt(before, v), last.coefficient, v[last.node]);
    }
  }

  lemma {:induction false} Regroup(a: int, t: int, c: int, v: int)
    ensures a * (t + c * v) == a * t + (c * a) * v
  {
  }

  /** Duality: seeding the nodes and evaluating column `j` meets the adjoint of input `j`. */
  lemma {:induction false} SweepDual(nodes: seq<RawNode>, s: seq<int>, j: nat)
    requires |nodes| == |s|
    requires forall t :: 0 <= t < |nodes| && nodes[t].Sum? ==> Below(nodes[t].terms, t)
    ensures |InputsOf(nodes)| == InputCount(nodes)
    ensures j < InputCount(nodes) ==> InputsOf(nodes)[j] < |nodes|
    ensures Inner(s, NodesAt(nodes, j)) ==
      if j < InputCount(nodes) then Sweep(nodes, s)[InputsOf(nodes)[j]] else 0
  {
    InputsCounted(nodes);
    if |nodes| > 0 {
      var n := |nodes| - 1;
      var before, last, a := nodes[..n], nodes[n], s[n];
      var v := NodesAt(before, j);
      SweepDual(before, Scattered(s[..n], last, a), j);
      if j < InputCount(nodes) { InputsOfNodes(nodes, j); }
      if last.Sum? {
        ScatteredInner(s[..n], last.terms, a, v);
      } else {
        assert Scattered(s[..n], last, a) == s[..n];
        InputsCounted(before);
      }
      assert NodesAt(nodes, j)[..n] == v;
    }
  }

  // ---------------------------------------------------------------- the gathered form

  /** What the nodes after `o` and before `k` pass down to it. */
  function Later(nodes: seq<RawNode>, adjoints: seq<int>, o: nat, k: nat): int
    requires k <= |nodes| && k <= |adjoints|
    decreases k
  {
    if k <= o + 1 then 0 else Later(nodes, adjoints, o, k - 1) + Uses(nodes[k - 1], o) * adjoints[k - 1]
  }

  /** Each adjoint is its seed and what its users pass down. */
  ghost predicate Gathered(nodes: seq<RawNode>, s: seq<int>, adjoints: seq<int>)
    requires |nodes| == |s| == |adjoints|
  {
    forall o :: 0 <= o < |nodes| ==> adjoints[o] == s[o] + Later(nodes, adjoints, o, |nodes|)
  }

  lemma {:induction false} LaterPrefix(nodes: seq<RawNode>, adjoints: seq<int>, n: RawNode, a: int, o: nat, k: nat)
    requires |nodes| == |adjoints| && k <= |nodes|
    ensures Later(nodes + [n], adjoints + [a], o, k) == Later(nodes, adjoints, o, k)
    decreases k
  {
    if k > o + 1 { LaterPrefix(nodes, adjoints, n, a, o, k - 1); }
  }

  lemma {:induction false} SweepGathers(nodes: seq<RawNode>, s: seq<int>)
    requires |nodes| == |s|
    ensures Gathered(nodes, s, Sweep(nodes, s))
  {
    if |nodes| > 0 {
      var n := |nodes| - 1;
      var before, below := nodes[..n], Scattered(s[..n], nodes[n], s[n]);
      var adjoints := Sweep(before, below);
      SweepGathers(before, below);
      assert before + [nodes[n]] == nodes && adjoints + [s[n]] == Sweep(nodes, s);
      forall o | 0 <= o < |nodes| ensures Sweep(nodes, s)[o] == s[o] + Later(nodes, Sweep(nodes, s), o, |nodes|) {
        if o < n {
          LaterPrefix(before, adjoints, nodes[n], s[n], o, n);
        }
      }
    }
  }

  // ---------------------------------------------------------------- seeds

  /** The three weights of a row. */
  datatype Weights = Weights(a: int, b: int, c: int)

  function Weight(w: seq<Weights>, row: nat, kind: Kind): int {
    if row >= |w| then 0
    else match kind case A => w[row].a case B => w[row].b case C => w[row].c
  }

  /** `r`, `r x` and `r x^2` for every row. */
  function WeightsOf(r: seq<int>, x: int): (w: seq<Weights>)
    ensures |w| == |r| && forall i :: 0 <= i < |r| ==> w[i] == Weights(r[i], r[i] * x, r[i] * (x * x))
  {
    seq(|r|, i requires 0 <= i < |r| => Weights(r[i], r[i] * x, r[i] * (x * x)))
  }

  /** The seed of one node: the weighted coefficients of the roots on it. */
  function Seed(roots: seq<RawRoot>, w: seq<Weights>, o: nat): int {
    if |roots| == 0 then 0
    else
      var last := roots[|roots| - 1];
      Seed(roots[..|roots| - 1], w, o)
        + (if last.term.node == o then Weight(w, last.row, last.kind) * last.term.coefficient else 0)
  }

  function Seeds(roots: seq<RawRoot>, w: seq<Weights>, n: nat): (s: seq<int>)
    ensures |s| == n && forall o :: 0 <= o < n ==> s[o] == Seed(roots, w, o)
  {
    seq(n, o requires 0 <= o < n => Seed(roots, w, o))
  }

  function RootsTotal(roots: seq<RawRoot>, w: seq<Weights>, v: seq<int>): int {
    if |roots| == 0 then 0
    else
      var last := roots[|roots| - 1];
      RootsTotal(roots[..|roots| - 1], w, v) + Weight(w, last.row, last.kind) * TermAt(last.term, v)
  }

  lemma {:induction false} LastSeed(roots: seq<RawRoot>, w: seq<Weights>, n: nat)
    requires |roots| > 0 && roots[|roots| - 1].term.node < n
    ensures var last, s := roots[|roots| - 1], Seeds(roots[..|roots| - 1], w, n);
      Seeds(roots, w, n) == s[last.term.node := s[last.term.node] + Weight(w, last.row, last.kind) * last.term.coefficient]
  {
  }

  lemma {:induction false} Reassociate(a: int, b: int, c: int)
    ensures (a * b) * c == a * (b * c)
  {
  }

  lemma {:induction false} SeedsTotal(roots: seq<RawRoot>, w: seq<Weights>, v: seq<int>)
    requires forall r :: 0 <= r < |roots| ==> roots[r].term.node < |v|
    ensures Inner(Seeds(roots, w, |v|), v) == RootsTotal(roots, w, v)
  {
    hide Inner, Seed, Weight;
    if |roots| == 0 {
      assert forall o :: 0 <= o < |v| ==> Seeds(roots, w, |v|)[o] == 0 by { NoSeed(w, |v|); }
      InnerZero(Seeds(roots, w, |v|), v);
    } else {
      var last, before := roots[|roots| - 1], roots[..|roots| - 1];
      var weight := Weight(w, last.row, last.kind);
      SeedsTotal(before, w, v);
      LastSeed(roots, w, |v|);
      InnerUpdate(Seeds(before, w, |v|), v, last.term.node, weight * last.term.coefficient);
      Reassociate(weight, last.term.coefficient, v[last.term.node]);
    }
  }

  lemma {:induction false} NoSeed(w: seq<Weights>, n: nat)
    ensures forall o :: 0 <= o < n ==> Seeds([], w, n)[o] == 0
  {
  }

  lemma {:induction false} NextRoot(roots: seq<RawRoot>, w: seq<Weights>, v: seq<int>, n: nat)
    requires n < |roots|
    ensures RootsTotal(roots[..n + 1], w, v)
      == RootsTotal(roots[..n], w, v) + Weight(w, roots[n].row, roots[n].kind) * TermAt(roots[n].term, v)
  {
    assert roots[..n + 1][..n] == roots[..n];
  }

  lemma {:induction false} NextRow(rec: Recording, m: Meaning, j: nat, r: seq<int>, x: int, i: nat)
    requires i < |m.rows| == |r| && |rec.roots| == 3 * |m.rows| && GraphValid(rec) && RowAgrees(rec, m, j, i)
    ensures RootsTotal(rec.roots[..3 * (i + 1)], WeightsOf(r, x), NodesAt(rec.nodes, j))
      == RootsTotal(rec.roots[..3 * i], WeightsOf(r, x), NodesAt(rec.nodes, j))
        + r[i] * m.rows[i].0 + r[i] * x * m.rows[i].1 + r[i] * (x * x) * m.rows[i].2
  {
    hide RootsTotal, NodesAt, TermAt, InputsOf;
    var v, w, k := NodesAt(rec.nodes, j), WeightsOf(r, x), 3 * i;
    assert RootValid(rec, k) && RootValid(rec, k + 1) && RootValid(rec, k + 2);
    NextRoot(rec.roots, w, v, k);
    NextRoot(rec.roots, w, v, k + 1);
    NextRoot(rec.roots, w, v, k + 2);
  }

  lemma {:induction false} RowsTotal(rec: Recording, m: Meaning, j: nat, r: seq<int>, x: int, i: nat)
    requires i <= |m.rows| == |r| && |rec.roots| == 3 * |m.rows| && GraphValid(rec)
    requires forall k :: 0 <= k < |m.rows| ==> RowAgrees(rec, m, j, k)
    ensures RootsTotal(rec.roots[..3 * i], WeightsOf(r, x), NodesAt(rec.nodes, j)) == Combined(r, x, m.rows[..i])
    decreases i
  {
    hide RowAgrees, GraphValid, NodesAt;
    if i > 0 {
      RowsTotal(rec, m, j, r, x, i - 1);
      NextRow(rec, m, j, r, x, i - 1);
      assert m.rows[..i][..i - 1] == m.rows[..i - 1];
    }
  }

  // ---------------------------------------------------------------- the adjoints of a recording

  function Adjoints(rec: Recording, w: seq<Weights>): (a: seq<int>)
    ensures |a| == |rec.nodes|
  {
    Sweep(rec.nodes, Seeds(rec.roots, w, |rec.nodes|))
  }

  /** The adjoint of column `j` is column `j` of `r (A + x B + x^2 C)`. */
  lemma {:induction false} AdjointIsColumn(rec: Recording, values: seq<Value>, m: Meaning, j: nat, r: seq<int>, x: int)
    requires Agrees(rec, values, m, j) && |r| == |m.rows| && j < m.columns
    ensures rec.inputs[j] < |rec.nodes|
    ensures Adjoints(rec, WeightsOf(r, x))[rec.inputs[j]] == Combined(r, x, m.rows)
  {
    var w, v := WeightsOf(r, x), NodesAt(rec.nodes, j);
    forall k | 0 <= k < |rec.roots| ensures rec.roots[k].term.node < |v| { assert RootValid(rec, k); }
    SeedsTotal(rec.roots, w, v);
    SweepDual(rec.nodes, Seeds(rec.roots, w, |rec.nodes|), j);
    RowsTotal(rec, m, j, r, x, |r|);
    assert rec.roots[..3 * |r|] == rec.roots && m.rows[..|r|] == m.rows;
  }
}
