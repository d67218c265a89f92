/** A tape made by the preparation is scheduled, and applying it gives `r (A + x B + x^2 C)`. */
module WengertTheorem {
  import opened Wrappers
  import opened Powers
  import opened Circuits
  import opened Wengert
  import opened WengertMeaning
  import opened WengertGroups
  import opened WengertAdjoint
  import opened Buckets
  import opened WengertTape
  import opened WengertTables
  import opened WengertApply

  // ---------------------------------------------------------------- the adjoints of the tape

  function Reordered(ordering: seq<nat>, adjoints: seq<int>): (a: seq<int>)
    ensures |a| == |ordering| && forall v :: 0 <= v < |a| ==> a[v] == At(adjoints, ordering[v])
  {
    seq(|ordering|, v requires 0 <= v < |ordering| => At(adjoints, ordering[v]))
  }

  lemma {:induction false} EdgeItem(item: (nat, Edge), raw: RawEdge, renumber: seq<Option<nat>>, ordering: seq<nat>,
      list: seq<int>, adjoints: seq<int>, v: nat)
    requires EdgeMatches(item, raw, renumber, list) && Renumbered(ordering, renumber, |renumber|) && v < |ordering|
    ensures item.0 == v <==> raw.source == ordering[v]
    ensures At(Reordered(ordering, adjoints), item.1.dependent) * At(list, item.1.coefficient)
      == raw.coefficient * At(adjoints, raw.target)
  {
  }

  lemma {:induction false} RootItem(item: (nat, Root), raw: RawRoot, renumber: seq<Option<nat>>, ordering: seq<nat>,
      list: seq<int>, w: seq<Weights>, v: nat)
    requires RootMatches(item, raw, renumber, list) && Renumbered(ordering, renumber, |renumber|) && v < |ordering|
    ensures item.0 == v <==> raw.term.node == ordering[v]
    ensures Weight(w, item.1.row, item.1.kind) * At(list, item.1.coefficient) == Weight(w, raw.row, raw.kind) * raw.term.coefficient
  {
  }

  lemma {:induction false} EdgesMatchPrefix(items: seq<(nat, Edge)>, raws: seq<RawEdge>, renumber: seq<Option<nat>>, list: seq<int>, n: nat)
    requires EdgesMatch(items, raws, renumber, list) && n <= |items|
    ensures EdgesMatch(items[..n], raws[..n], renumber, list)
  {
    hide EdgeMatches;
    forall i | 0 <= i < n ensures EdgeMatches(items[..n][i], raws[..n][i], renumber, list) {
      assert EdgeMatches(items[i], raws[i], renumber, list);
    }
  }

  lemma {:induction false} RootsMatchPrefix(items: seq<(nat, Root)>, raws: seq<RawRoot>, renumber: seq<Option<nat>>, list: seq<int>, n: nat)
    requires RootsMatch(items, raws, renumber, list) && n <= |items|
    ensures RootsMatch(items[..n], raws[..n], renumber, list)
  {
    hide RootMatches;
    forall i | 0 <= i < n ensures RootMatches(items[..n][i], raws[..n][i], renumber, list) {
      assert RootMatches(items[i], raws[i], renumber, list);
    }
  }

  lemma {:induction false} EdgeValueAppend(edges: seq<Edge>, last: Edge, a: seq<int>, list: seq<int>)
    ensures EdgeValue(edges + [last], a, list) == EdgeValue(edges, a, list) + At(a, last.dependent) * At(list, last.coefficient)
  {
    assert (edges + [last])[..|edges|] == edges;
  }

  lemma {:induction false} RootValueAppend(roots: seq<Root>, last: Root, w: seq<Weights>, list: seq<int>)
    ensures RootValue(roots + [last], w, list) == RootValue(roots, w, list) + Weight(w, last.row, last.kind) * At(list, last.coefficient)
  {
    assert (roots + [last])[..|roots|] == roots;
  }

  /** The edge table's slice for a node passes down what the recorded edges do. */
  lemma {:induction false} PickedEdges(items: seq<(nat, Edge)>, raws: seq<RawEdge>, renumber: seq<Option<nat>>,
      ordering: seq<nat>, list: seq<int>, adjoints: seq<int>, v: nat)
    requires EdgesMatch(items, raws, renumber, list) && Renumbered(ordering, renumber, |renumber|) && v < |ordering|
    ensures EdgeValue(Picked(items, v), Reordered(ordering, adjoints), list) == PassedDown(raws, ordering[v], adjoints)
    decreases |items|
  {
    hide Renumbered, EdgeMatches, EdgeValue, At;
    var a := Reordered(ordering, adjoints);
    if |items| == 0 {
      NoEdges(a, list);
    } else {
      var n := |items| - 1;
      EdgesMatchPrefix(items, raws, renumber, list, n);
      PickedEdges(items[..n], raws[..n], renumber, ordering, list, adjoints, v);
      EdgeItem(items[n], raws[n], renumber, ordering, list, adjoints, v);
      EdgeValueAppend(Picked(items[..n], v), items[n].1, a, list);
      assert Picked(items[..n], v) + [] == Picked(items[..n], v);
    }
  }

  lemma {:induction false} PickedRoots(items: seq<(nat, Root)>, raws: seq<RawRoot>, renumber: seq<Option<nat>>,
      ordering: seq<nat>, list: seq<int>, w: seq<Weights>, v: nat)
    requires RootsMatch(items, raws, renumber, list) && Renumbered(ordering, renumber, |renumber|) && v < |ordering|
    ensures RootValue(Picked(items, v), w, list) == Seed(raws, w, ordering[v])
    decreases |items|
  {
    hide Renumbered, RootMatches, RootValue, At, Weight;
    if |items| == 0 {
      NoRoots(w, list);
    } else {
      var n := |items| - 1;
      RootsMatchPrefix(items, raws, renumber, list, n);
      PickedRoots(items[..n], raws[..n], renumber, ordering, list, w, v);
      RootItem(items[n], raws[n], renumber, ordering, list, w, v);
      RootValueAppend(Picked(items[..n], v), items[n].1, w, list);
      assert Picked(items[..n], v) + [] == Picked(items[..n], v);
    }
  }

  /** Sums are never inputs of a group. */
  lemma {:induction false} SumsAreFree(rec: Recording, t: nat)
    requires GraphValid(rec) && t < |rec.nodes| && rec.nodes[t].Sum?
    ensures Free(rec, t)
  {
    forall a | 0 <= a < |rec.groups| ensures FreeOf(rec, rec.groups[a], t) {
      forall c | 0 <= c < |rec.inputs| ensures rec.inputs[c] != t { InputsOfNodes(rec.nodes, c); }
    }
  }

  lemma {:induction false} UnreachedAdjoint(rec: Recording, reached: seq<bool>, w: seq<Weights>, o: nat)
    requires GraphValid(rec) && Live(rec, reached) && o < |rec.nodes| && !reached[o]
    ensures Adjoints(rec, w)[o] == 0
  {
    hide ClosedAt, Sweep;
    var s := Seeds(rec.roots, w, |rec.nodes|);
    SweepGathers(rec.nodes, s);
    forall t | 0 <= t < |rec.nodes| && !reached[t] ensures s[t] == 0 { DeadSeed(rec.roots, reached, w, t); }
    DeadAdjoint(rec, reached, s, Adjoints(rec, w), o);
  }

  lemma {:induction false} PrunedSum(rec: Recording, reached: seq<bool>, live: seq<bool>, w: seq<Weights>, t: nat)
    requires GraphValid(rec) && KeptLive(rec, reached, live) && t < |rec.nodes| && rec.nodes[t].Sum? && !live[t]
    ensures Adjoints(rec, w)[t] == 0
  {
    SumsAreFree(rec, t);
    UnreachedAdjoint(rec, reached, w, t);
  }

  lemma {:induction false} SolvesAt(rec: Recording, tape: Tape, l: Layout, w: seq<Weights>, v: nat)
    requires GraphValid(rec) && TapeFor(rec, tape, l) && v < |l.ordering|
    ensures var a := Reordered(l.ordering, Adjoints(rec, w));
      a[v] == RootValue(RootSlice(tape, v), w, tape.coefficients) + EdgeValue(EdgeSlice(tape, v), a, tape.coefficients)
  {
    hide LiveEdges, LiveRoots, Sweep, InputsOf, Picked, RootValue, EdgeValue, Bucketed, Internal, DeeperAt, Reached, NoLevelEmpty, Live;
    var n, o, adjoints := |rec.nodes|, l.ordering[v], Adjoints(rec, w);
    SliceIsPicked(l.edges, |l.ordering|, tape.edgeOffsets, tape.edges, v);
    SliceIsPicked(l.roots, |l.ordering|, tape.rootOffsets, tape.roots, v);
    PickedEdges(l.edges, LiveEdges(rec.nodes, l.live, n), l.renumber, l.ordering, tape.coefficients, adjoints, v);
    PickedRoots(l.roots, LiveRoots(rec.roots), l.renumber, l.ordering, tape.coefficients, w, v);
    LiveRootsSeed(rec.roots, w, o);
    forall t | 0 <= t < n && rec.nodes[t].Sum? && !l.live[t] ensures adjoints[t] == 0 {
      PrunedSum(rec, l.reached, l.live, w, t);
    }
    LiveEdgesPass(rec.nodes, l.live, adjoints, o, n);
    SweepGathers(rec.nodes, Seeds(rec.roots, w, n));
  }

  // ---------------------------------------------------------------- the schedule

  lemma {:induction false} RootsReadAt(rec: Recording, tape: Tape, l: Layout, v: nat)
    requires GraphValid(rec) && TapeFor(rec, tape, l) && v < |l.ordering|
    ensures RootsRead(RootSlice(tape, v), tape.constraints, tape.coefficients)
  {
    hide LiveEdges, LiveRoots, InputsOf, Picked, Bucketed, DeeperAt, Reached, NoLevelEmpty, NodesOrdered;
    SliceIsPicked(l.roots, |l.ordering|, tape.rootOffsets, tape.roots, v);
    var slice := RootSlice(tape, v);
    forall p | 0 <= p < |slice| ensures slice[p].row < tape.constraints && slice[p].coefficient < |tape.coefficients| {
      var i := PickedFrom(l.roots, v, p);
      assert RootMatches(l.roots[i], LiveRoots(rec.roots)[i], l.renumber, tape.coefficients);
      LiveRootFrom(rec.roots, i);
      var r :| 0 <= r < |rec.roots| && rec.roots[r] == LiveRoots(rec.roots)[i];
      assert RootValid(rec, r);
    }
  }

  /** The recorded edge behind an entry of a node's slice. */
  lemma {:induction false} SliceEdge(rec: Recording, tape: Tape, l: Layout, v: nat, p: nat) returns (e: RawEdge)
    requires GraphValid(rec) && TapeFor(rec, tape, l) && v < |l.ordering| && p < |EdgeSlice(tape, v)|
    ensures EdgeFits(rec.nodes, l.live, e) && e.source == l.ordering[v]
    ensures EdgeSlice(tape, v)[p].coefficient < |tape.coefficients|
    ensures e.target < |l.renumber| && l.renumber[e.target] == Some(EdgeSlice(tape, v)[p].dependent)
  {
    hide LiveEdges, LiveRoots, InputsOf, Picked, Bucketed, DeeperAt, Reached, NoLevelEmpty, NodesOrdered, EdgeFits;
    SliceIsPicked(l.edges, |l.ordering|, tape.edgeOffsets, tape.edges, v);
    var i := PickedFrom(l.edges, v, p);
    var raws := LiveEdges(rec.nodes, l.live, |rec.nodes|);
    assert EdgeMatches(l.edges[i], raws[i], l.renumber, tape.coefficients);
    LiveEdgesFit(rec.nodes, l.live, |rec.nodes|, i);
    e := raws[i];
  }

  lemma {:induction false} EdgesReadAt(rec: Recording, tape: Tape, l: Layout, v: nat)
    requires GraphValid(rec) && TapeFor(rec, tape, l) && v < |l.ordering|
    ensures EdgesRead(EdgeSlice(tape, v), Internals(tape), tape.coefficients)
  {
    hide LiveEdges, LiveRoots, InputsOf, Bucketed, DeeperAt, Reached, NoLevelEmpty, EdgeSlice;
    var slice := EdgeSlice(tape, v);
    forall p | 0 <= p < |slice| ensures slice[p].dependent < Internals(tape) && slice[p].coefficient < |tape.coefficients| {
      var e := SliceEdge(rec, tape, l, v, p);
    }
  }

  lemma {:induction false} Rises(lo: seq<nat>, a: nat, b: nat)
    requires a < |lo| && b < |lo| && forall k, l :: 0 <= k <= l < |lo| ==> lo[k] <= lo[l]
    ensures a <= b ==> lo[a] <= lo[b]
  {
  }

  /** The levels of an order do not overlap. */
  lemma {:induction false} LevelUnique(lo: seq<nat>, v: nat, d: nat, k: nat)
    requires d + 1 < |lo| && k + 1 < |lo| && forall k, l :: 0 <= k <= l < |lo| ==> lo[k] <= lo[l]
    requires lo[d] <= v < lo[d + 1] && lo[k] <= v < lo[k + 1]
    ensures d == k
  {
    Rises(lo, d + 1, k);
    Rises(lo, k + 1, d);
  }

  /** Every edge of a level's node comes from a strictly earlier level. */
  lemma {:induction false} LevelReadsAt(rec: Recording, tape: Tape, l: Layout, k: nat)
    requires GraphValid(rec) && TapeFor(rec, tape, l) && k + 1 < |tape.levelOffsets|
    ensures LevelReads(tape, k)
  {
    hide LiveEdges, LiveRoots, InputsOf, Bucketed, EdgeSlice, EdgesMatch, RootsMatch;
    var lo := tape.levelOffsets;
    forall v | lo[k] <= v < lo[k + 1] ensures EdgesRead(EdgeSlice(tape, v), lo[k], tape.coefficients) {
      assert lo[k + 1] <= lo[|lo| - 1];
      assert AtItsLevel(l.depth, l.ordering, lo, v);
      var d := l.depth[l.ordering[v]];
      LevelUnique(lo, v, d, k);
      var slice := EdgeSlice(tape, v);
      forall p | 0 <= p < |slice| ensures slice[p].dependent < lo[k] && slice[p].coefficient < |tape.coefficients| {
        var e := SliceEdge(rec, tape, l, v, p);
        EarlierDependent(rec, tape, l, e, slice[p].dependent, k);
      }
    }
  }

  lemma {:induction false} EarlierDependent(rec: Recording, tape: Tape, l: Layout, e: RawEdge, dependent: nat, k: nat)
    requires TapeFor(rec, tape, l) && EdgeFits(rec.nodes, l.live, e) && k < |tape.levelOffsets|
    requires l.renumber[e.target] == Some(dependent) && l.depth[e.source] == k
    ensures dependent < tape.levelOffsets[k]
  {
    hide LiveEdges, LiveRoots, Bucketed, EdgesMatch, RootsMatch;
    var lo, terms, t := tape.levelOffsets, rec.nodes[e.target].terms, e.target;
    assert DeeperAt(rec.nodes, l.live, l.depth, t);
    var i :| 0 <= i < |terms| && terms[i] == RawTerm(e.source, e.coefficient);
    assert l.depth[e.source] > l.depth[t];
    assert AtItsLevel(l.depth, l.ordering, lo, dependent);
    assert lo[l.depth[t] + 1] <= lo[k];
  }

  lemma {:induction false} OffsetsAt<T>(items: seq<(nat, T)>, n: nat, offsets: seq<nat>, table: seq<T>)
    requires Bucketed(items, n, offsets, table)
    ensures OffsetsValid(offsets, n, |table|)
  {
    forall v | 0 <= v < n ensures StepsUp(offsets, v, |table|) { SliceIsPicked(items, n, offsets, table, v); }
  }

  lemma {:induction false} TapeScheduled(rec: Recording, tape: Tape, l: Layout)
    requires GraphValid(rec) && TapeFor(rec, tape, l)
    ensures Scheduled(tape, |l.ordering|)
  {
    hide LiveEdges, LiveRoots, InputsOf, Bucketed, DeeperAt, Reached, NoLevelEmpty, EdgesMatch, RootsMatch, LevelReads, EdgesRead, RootsRead, AtItsLevel;
    var n, lo := |l.ordering|, tape.levelOffsets;
    OffsetsAt(l.edges, n, tape.edgeOffsets, tape.edges);
    OffsetsAt(l.roots, n, tape.rootOffsets, tape.roots);
    forall k | 0 <= k < |lo| - 1 ensures StepsUp(lo, k, Internals(tape)) {
      var k' := k + 1;
      assert lo[k] <= lo[k'] && lo[k'] <= lo[|lo| - 1];
    }
    forall v | 0 <= v < n ensures RootsRead(RootSlice(tape, v), tape.constraints, tape.coefficients) { RootsReadAt(rec, tape, l, v); }
    forall v | 0 <= v < n ensures EdgesRead(EdgeSlice(tape, v), Internals(tape), tape.coefficients) { EdgesReadAt(rec, tape, l, v); }
    forall k | 0 <= k < |lo| - 1 ensures LevelReads(tape, k) { LevelReadsAt(rec, tape, l, k); }
    forall c | 0 <= c < |tape.inputNodes| && tape.inputNodes[c].Some? ensures tape.inputNodes[c].value < n {
      assert tape.inputNodes[c] == Renamed(l.renumber, rec.inputs[c]);
    }
  }

  // ---------------------------------------------------------------- the columns

  /** Only the two sums of its group pass anything down to a private input. */
  lemma {:induction false} LaterOfBit(rec: Recording, g: RawPowerGroup, i: nat, adjoints: seq<int>, k: nat)
    requires GraphValid(rec) && g.first + i < |rec.inputs| && BitHolds(rec, g, i) && k <= |rec.nodes| == |adjoints|
    requires g.full < |rec.nodes| && (g.low.Some? ==> g.low.value < |rec.nodes|)
    requires g.full > rec.inputs[g.first + i] && (g.low.Some? && i < g.lowLen ==> g.low.value > rec.inputs[g.first + i])
    ensures Later(rec.nodes, adjoints, rec.inputs[g.first + i], k) ==
      (if g.full < k then Pow2(i) * adjoints[g.full] else 0)
      + (if g.low.Some? && i < g.lowLen && g.low.value < k then Pow2(i) * adjoints[g.low.value] else 0)
    decreases k
  {
    hide Pow2, InputsOf, Uses;
    var o := rec.inputs[g.first + i];
    if k > o + 1 {
      LaterOfBit(rec, g, i, adjoints, k - 1);
      assert Uses(rec.nodes[k - 1], o) == Expected(g, i, k - 1);
      ExpectedTimes(g, i, k - 1, adjoints[k - 1]);
    }
  }

  lemma {:induction false} ExpectedTimes(g: RawPowerGroup, i: nat, t: nat, a: int)
    ensures Expected(g, i, t) * a == (if t == g.full then Pow2(i) * a else 0)
      + (if g.low == Some(t) && i < g.lowLen then Pow2(i) * a else 0)
  {
    SumTimes(if t == g.full then Pow2(i) else 0, if g.low == Some(t) && i < g.lowLen then Pow2(i) else 0, a);
  }

  /** A sum that uses an input comes after it. */
  lemma {:induction false} UserIsLater(rec: Recording, t: nat, o: nat)
    requires GraphValid(rec) && t < |rec.nodes| && Uses(rec.nodes[t], o) != 0
    ensures t > o
  {
    if t <= o && rec.nodes[t].Sum? { NoUse(rec.nodes[t].terms, o); }
  }

  lemma {:induction false} NoRootSeed(roots: seq<RawRoot>, w: seq<Weights>, o: nat)
    requires forall r :: 0 <= r < |roots| ==> roots[r].term.node != o
    ensures Seed(roots, w, o) == 0
  {
    if |roots| > 0 { NoRootSeed(roots[..|roots| - 1], w, o); }
  }

  /** The adjoint of bit `i` is `2^i` times what its sums receive. */
  lemma {:induction false} BitAdjoint(rec: Recording, g: RawPowerGroup, i: nat, w: seq<Weights>)
    requires GraphValid(rec) && GroupHolds(rec, g) && i < g.len
    ensures rec.inputs[g.first + i] < |rec.nodes|
    ensures var adjoints := Adjoints(rec, w);
      adjoints[rec.inputs[g.first + i]]
        == Pow2(i) * (adjoints[g.full] + (if i < g.lowLen then adjoints[g.low.value] else 0))
  {
    hide Sweep, Pow2, Uses;
    var n, o, adjoints := |rec.nodes|, rec.inputs[g.first + i], Adjoints(rec, w);
    InputsOfNodes(rec.nodes, g.first + i);
    assert BitHolds(rec, g, i);
    SweepGathers(rec.nodes, Seeds(rec.roots, w, n));
    NoRootSeed(rec.roots, w, o);
    assert Uses(rec.nodes[g.full], o) == Expected(g, i, g.full);
    assert Pow2(i) > 0;
    UserIsLater(rec, g.full, o);
    if i < g.lowLen {
      assert Uses(rec.nodes[g.low.value], o) == Expected(g, i, g.low.value);
      UserIsLater(rec, g.low.value, o);
      SumOfProducts(Pow2(i), adjoints[g.full], adjoints[g.low.value]);
    }
    LaterOfBit(rec, g, i, adjoints, n);
  }

  lemma {:induction false} SumOfProducts(p: int, x: int, y: int)
    ensures p * (x + y) == p * x + p * y
  {
  }

  /** A renumbered node reads its adjoint, a pruned one reads zero, and both are right. */
  lemma {:induction false} NodeReads(rec: Recording, tape: Tape, l: Layout, w: seq<Weights>, t: nat)
    requires GraphValid(rec) && TapeFor(rec, tape, l) && t < |rec.nodes| && Free(rec, t)
    ensures NodeValue(Reordered(l.ordering, Adjoints(rec, w)), Renamed(l.renumber, t)) == Adjoints(rec, w)[t]
  {
    hide LiveEdges, LiveRoots, Bucketed, EdgesMatch, RootsMatch, Sweep, InputsOf, DeeperAt, Reached, NoLevelEmpty, AtItsLevel, Free;
    LiveRenumbered(rec.nodes, l.live, l.depth, l.ordering, tape.levelOffsets, l.renumber, t);
    if !l.live[t] { UnreachedAdjoint(rec, l.reached, w, t); }
  }

  /** What each column should receive. */
  function ColumnAdjoints(rec: Recording, w: seq<Weights>): (columns: seq<int>)
    ensures |columns| == |rec.inputs|
    ensures forall c :: 0 <= c < |columns| ==> columns[c] == At(Adjoints(rec, w), rec.inputs[c])
  {
    seq(|rec.inputs|, c requires 0 <= c < |rec.inputs| => At(Adjoints(rec, w), rec.inputs[c]))
  }

  lemma {:induction false} GroupColumn(rec: Recording, tape: Tape, l: Layout, w: seq<Weights>, k: nat, c: nat)
    requires GraphValid(rec) && GroupsHold(rec) && TapeFor(rec, tape, l) && k < |tape.groups| && c < |rec.inputs|
    requires InGroup(tape.groups[k], c)
    ensures ColumnAdjoints(rec, w)[c]
      == GroupValue(tape.groups[k], Reordered(l.ordering, Adjoints(rec, w)), c - tape.groups[k].first)
  {
    hide LiveEdges, LiveRoots, Bucketed, EdgesMatch, RootsMatch, Sweep, InputsOf, DeeperAt, Reached, NoLevelEmpty, NodesOrdered, Pow2, NodeValue, Free;
    var g := rec.groups[k];
    assert GroupHolds(rec, g) && tape.groups[k] == RenamedGroup(g, l.renumber);
    BitAdjoint(rec, g, c - g.first, w);
    SumsAreFree(rec, g.full);
    NodeReads(rec, tape, l, w, g.full);
    if g.low.Some? {
      SumsAreFree(rec, g.low.value);
      NodeReads(rec, tape, l, w, g.low.value);
    }
  }

  lemma {:induction false} ScalarColumn(rec: Recording, tape: Tape, l: Layout, w: seq<Weights>, c: nat)
    requires GraphValid(rec) && TapeFor(rec, tape, l) && c < |rec.inputs|
    requires forall k :: 0 <= k < |tape.groups| ==> !InGroup(tape.groups[k], c)
    ensures ColumnAdjoints(rec, w)[c] == NodeValue(Reordered(l.ordering, Adjoints(rec, w)), tape.inputNodes[c])
  {
    hide LiveEdges, LiveRoots, Bucketed, EdgesMatch, RootsMatch, Sweep, DeeperAt, Reached, NoLevelEmpty, NodesOrdered;
    var o := rec.inputs[c];
    InputsOfNodes(rec.nodes, c);
    forall a | 0 <= a < |rec.groups| ensures FreeOf(rec, rec.groups[a], o) {
      var g := rec.groups[a];
      assert tape.groups[a] == RenamedGroup(g, l.renumber) && !InGroup(tape.groups[a], c);
      forall d | g.first <= d < g.first + g.len && d < |rec.inputs| ensures rec.inputs[d] != o {
        if d < c { InputsIncrease(rec.nodes, d, c); } else { InputsIncrease(rec.nodes, c, d); }
      }
    }
    NodeReads(rec, tape, l, w, o);
    assert tape.inputNodes[c] == Renamed(l.renumber, o);
  }

  lemma {:induction false} ColumnsAreSolved(rec: Recording, tape: Tape, l: Layout, w: seq<Weights>)
    requires GraphValid(rec) && GroupsHold(rec) && TapeFor(rec, tape, l)
    ensures ColumnsSolve(tape, Reordered(l.ordering, Adjoints(rec, w)), ColumnAdjoints(rec, w))
  {
    hide GraphValid, GroupsHold, Adjoints, Reordered, GroupValue, KeptLive, NodesOrdered, Renumbered, EdgesMatch, RootsMatch, Bucketed, LiveEdges, LiveRoots, DeeperAt, Reached, NoLevelEmpty;
    var columns := ColumnAdjoints(rec, w);
    forall k, c | 0 <= k < |tape.groups| && 0 <= c < |columns| && InGroup(tape.groups[k], c)
      ensures columns[c] == GroupValue(tape.groups[k], Reordered(l.ordering, Adjoints(rec, w)), c - tape.groups[k].first)
    {
      GroupColumn(rec, tape, l, w, k, c);
    }
    forall c | 0 <= c < |columns| && (forall k :: 0 <= k < |tape.groups| ==> !InGroup(tape.groups[k], c))
      ensures columns[c] == NodeValue(Reordered(l.ordering, Adjoints(rec, w)), tape.inputNodes[c])
    {
      ScalarColumn(rec, tape, l, w, c);
    }
  }

  lemma {:induction false} GroupsAreOrdered(rec: Recording, tape: Tape, l: Layout)
    requires GraphValid(rec) && GroupsHold(rec) && TapeFor(rec, tape, l)
    ensures GroupsInOrder(tape.groups, |rec.inputs|) && GroupNodesRead(tape)
  {
    hide LiveEdges, LiveRoots, Bucketed, EdgesMatch, RootsMatch, InputsOf, DeeperAt, Reached, NoLevelEmpty, AtItsLevel, BitHolds, KeptLive;
    forall k | 0 <= k < |tape.groups|
      ensures GroupInside(tape.groups[k], |rec.inputs|)
      ensures tape.groups[k].full.Some? ==> tape.groups[k].full.value < Internals(tape)
      ensures tape.groups[k].low.Some? ==> tape.groups[k].low.value < Internals(tape)
    {
      assert GroupHolds(rec, rec.groups[k]) && tape.groups[k] == RenamedGroup(rec.groups[k], l.renumber);
    }
    forall k, j | 0 <= k < j < |tape.groups| ensures tape.groups[k].first + tape.groups[k].len <= tape.groups[j].first {
      assert tape.groups[k] == RenamedGroup(rec.groups[k], l.renumber) && tape.groups[j] == RenamedGroup(rec.groups[j], l.renumber);
    }
  }

  lemma {:induction false} TapeSolves(rec: Recording, tape: Tape, l: Layout, w: seq<Weights>)
    requires GraphValid(rec) && TapeFor(rec, tape, l)
    ensures Solves(tape, |l.ordering|, w, Reordered(l.ordering, Adjoints(rec, w)))
  {
    hide GraphValid, TapeFor, Adjoints, RootValue, EdgeValue;
    forall v | 0 <= v < |l.ordering|
      ensures Reordered(l.ordering, Adjoints(rec, w))[v] == RootValue(RootSlice(tape, v), w, tape.coefficients)
        + EdgeValue(EdgeSlice(tape, v), Reordered(l.ordering, Adjoints(rec, w)), tape.coefficients)
    {
      SolvesAt(rec, tape, l, w, v);
    }
  }

  // ---------------------------------------------------------------- the theorem

  /** The adjoints of a recorded program are the columns of its weighted matrices. */
  lemma {:induction false} ProgramAdjoints(steps: seq<Step>, inputs: nat, r: seq<int>, x: int)
    requires Valid(steps, inputs) && Exact(steps) && |r| == Rows(steps)
    ensures ColumnAdjoints(Record(steps).0, WeightsOf(r, x)) == ProgramColumns(steps, r, x)
  {
    hide Agrees, Adjoints, Record, MeaningAt, Combined;
    var rec, values := Record(steps).0, Record(steps).1;
    ProgramShape(steps, inputs);
    forall j: nat | j < |rec.inputs|
      ensures ColumnAdjoints(rec, WeightsOf(r, x))[j] == ProgramColumns(steps, r, x)[j]
    {
      RecordAgrees(steps, inputs, j);
      SameShape(steps, 0, j);
      AdjointIsColumn(rec, values, MeaningAt(steps, j), j, r, x);
    }
  }

  lemma {:induction false} ProgramShape(steps: seq<Step>, inputs: nat)
    requires Valid(steps, inputs) && Exact(steps)
    ensures var rec := Record(steps).0;
      GraphValid(rec) && GroupsHold(rec) && |rec.inputs| == Columns(steps) && rec.constraints == Rows(steps)
  {
    RecordAgrees(steps, inputs, 0);
    RecordGroups(steps, inputs);
  }

  /** Everything the evaluator needs of a tape, for the columns of the program it was recorded from. */
  lemma {:induction false} TapeOfProgram(steps: seq<Step>, inputs: nat, tape: Tape, l: Layout, r: seq<int>, x: int)
    requires Valid(steps, inputs) && Exact(steps) && TapeFor(Record(steps).0, tape, l) && |r| == Rows(steps)
    ensures |tape.inputNodes| == Columns(steps) && tape.constraints == Rows(steps)
    ensures var n, w := |l.ordering|, WeightsOf(r, x);
      var a := Reordered(l.ordering, Adjoints(Record(steps).0, w));
      && Scheduled(tape, n) && Solves(tape, n, w, a)
      && GroupsInOrder(tape.groups, Columns(steps)) && GroupNodesRead(tape)
      && ColumnsSolve(tape, a, ProgramColumns(steps, r, x))
  {
    hide Scheduled, Solves, ColumnsSolve, GroupsInOrder, GroupNodesRead, GraphValid, GroupsHold, Record, Adjoints, KeptLive, NodesOrdered, Renumbered, EdgesMatch, RootsMatch, Bucketed, LiveEdges, LiveRoots, DeeperAt, Reached, NoLevelEmpty;
    var rec := Record(steps).0;
    ProgramShape(steps, inputs);
    ProgramAdjoints(steps, inputs, r, x);
    TapeScheduled(rec, tape, l);
    TapeSolves(rec, tape, l, WeightsOf(r, x));
    GroupsAreOrdered(rec, tape, l);
    ColumnsAreSolved(rec, tape, l, WeightsOf(r, x));
  }
}
