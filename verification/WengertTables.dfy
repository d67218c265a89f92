/** The edge and root tables of a tape, over interned coefficients, and the whole preparation. */
module WengertTables {
  import opened Wrappers
  import opened Circuits
  import opened Wengert
  import opened WengertMeaning
  import opened WengertGroups
  import opened WengertAdjoint
  import opened Buckets
  import opened WengertTape

  // ---------------------------------------------------------------- coefficients

  /** The distinct coefficients, one and minus one first, and where each is. */
  datatype Interner = Interner(index: map<int, nat>, list: seq<int>)

  ghost predicate Interned(t: Interner) {
    && |t.list| >= 2 && t.list[0] == 1 && t.list[1] == -1
    && (forall c :: c in t.index ==> t.index[c] < |t.list| && t.list[t.index[c]] == c)
  }

  const FIRST := Interner(map[1 := 0, -1 := 1], [1, -1])

  function Intern(t: Interner, c: int): (Interner, nat) {
    if c in t.index then (t, t.index[c])
    else (Interner(t.index[c := |t.list|], t.list + [c]), |t.list|)
  }

  lemma {:induction false} InternKeeps(t: Interner, c: int)
    requires Interned(t)
    ensures var (after, i) := Intern(t, c);
      Interned(after) && t.list <= after.list && i < |after.list| && after.list[i] == c
  {
  }

  // ---------------------------------------------------------------- edges

  datatype RawEdge = RawEdge(source: nat, target: nat, coefficient: int)

  function TermEdges(terms: seq<RawTerm>, target: nat, live: seq<bool>): seq<RawEdge> {
    if |terms| == 0 then []
    else
      var last := terms[|terms| - 1];
      TermEdges(terms[..|terms| - 1], target, live)
        + (if last.node < |live| && live[last.node] && last.coefficient != 0
           then [RawEdge(last.node, target, last.coefficient)] else [])
  }

  /** The edges between live nodes with a target among the first `k`, in recording order. */
  function LiveEdges(nodes: seq<RawNode>, live: seq<bool>, k: nat): seq<RawEdge>
    requires |live| == |nodes| && k <= |nodes|
  {
    if k == 0 then []
    else
      LiveEdges(nodes, live, k - 1)
        + (if Internal(nodes, live, k - 1) then TermEdges(nodes[k - 1].terms, k - 1, live) else [])
  }

  /** What an edge list passes down to `o`. */
  function PassedDown(edges: seq<RawEdge>, o: nat, a: seq<int>): int {
    if |edges| == 0 then 0
    else
      var last := edges[|edges| - 1];
      PassedDown(edges[..|edges| - 1], o, a) + (if last.source == o then last.coefficient * At(a, last.target) else 0)
  }

  lemma {:induction false} PassedDownConcat(x: seq<RawEdge>, y: seq<RawEdge>, o: nat, a: seq<int>)
    ensures PassedDown(x + y, o, a) == PassedDown(x, o, a) + PassedDown(y, o, a)
    decreases |y|
  {
    if |y| == 0 {
      assert x + y == x;
    } else {
      PassedDownConcat(x, y[..|y| - 1], o, a);
      assert (x + y)[..|x + y| - 1] == x + y[..|y| - 1];
    }
  }

  lemma {:induction false} ZeroProduct(x: int, y: int)
    requires x == 0 || y == 0
    ensures x * y == 0
  {
  }

  lemma {:induction false} TermEdgesPass(terms: seq<RawTerm>, target: nat, live: seq<bool>, o: nat, a: seq<int>)
    requires o < |live| && live[o]
    ensures PassedDown(TermEdges(terms, target, live), o, a) == CoefficientSum(terms, o) * At(a, target)
  {
    if |terms| > 0 {
      var before, last := terms[..|terms| - 1], terms[|terms| - 1];
      TermEdgesPass(before, target, live, o, a);
      var edge := RawEdge(last.node, target, last.coefficient);
      if last.node < |live| && live[last.node] && last.coefficient != 0 {
        PassedDownConcat(TermEdges(before, target, live), [edge], o, a);
        assert [edge][..0] == [];
        assert PassedDown([edge], o, a) == PassedDown([], o, a) + (if edge.source == o then edge.coefficient * At(a, target) else 0);
      } else {
        assert TermEdges(terms, target, live) == TermEdges(before, target, live);
      }
      SumTimes(CoefficientSum(before, o), last.coefficient, At(a, target));
      if last.coefficient == 0 { ZeroProduct(last.coefficient, At(a, target)); }
    }
  }

  /** Pruned targets pass nothing down, so the live edges carry the whole adjoint. */
  lemma {:induction false} LiveEdgesPass(nodes: seq<RawNode>, live: seq<bool>, a: seq<int>, o: nat, k: nat)
    requires |live| == |nodes| == |a| && k <= |nodes| && o < |nodes| && live[o]
    requires forall t :: 0 <= t < |nodes| && nodes[t].Sum? ==> Below(nodes[t].terms, t)
    requires forall t :: 0 <= t < |nodes| && nodes[t].Sum? && !live[t] ==> a[t] == 0
    ensures PassedDown(LiveEdges(nodes, live, k), o, a) == Later(nodes, a, o, k)
  {
    if k > 0 {
      var t := k - 1;
      LiveEdgesPass(nodes, live, a, o, t);
      if Internal(nodes, live, t) {
        PassedDownConcat(LiveEdges(nodes, live, t), TermEdges(nodes[t].terms, t, live), o, a);
        TermEdgesPass(nodes[t].terms, t, live, o, a);
        if t <= o { NoUse(nodes[t].terms, o); LaterNone(nodes, a, o, t); }
      } else {
        assert LiveEdges(nodes, live, k) == LiveEdges(nodes, live, t);
        if t <= o { LaterNone(nodes, a, o, t); } else { ZeroProduct(Uses(nodes[t], o), a[t]); }
      }
    }
  }

  lemma {:induction false} LaterNone(nodes: seq<RawNode>, a: seq<int>, o: nat, k: nat)
    requires k <= |nodes| && k <= |a| && k <= o + 1
    ensures Later(nodes, a, o, k) == 0
  {
  }

  /** Both ends of a live edge are live, the target a later sum that uses the source. */
  ghost predicate EdgeFits(nodes: seq<RawNode>, live: seq<bool>, e: RawEdge)
    requires |live| == |nodes|
  {
    && e.source < e.target < |nodes| && live[e.source] && Internal(nodes, live, e.target) && e.coefficient != 0
    && RawTerm(e.source, e.coefficient) in nodes[e.target].terms
  }

  lemma {:induction false} TermEdgesFit(terms: seq<RawTerm>, target: nat, live: seq<bool>, i: nat)
    requires i < |TermEdges(terms, target, live)|
    ensures var e := TermEdges(terms, target, live)[i];
      e.source < |live| && live[e.source] && e.target == target && e.coefficient != 0
      && RawTerm(e.source, e.coefficient) in terms
  {
    if |terms| > 0 && i < |TermEdges(terms[..|terms| - 1], target, live)| {
      TermEdgesFit(terms[..|terms| - 1], target, live, i);
    }
  }

  lemma {:induction false} LiveEdgesFit(nodes: seq<RawNode>, live: seq<bool>, k: nat, i: nat)
    requires |live| == |nodes| && k <= |nodes| && i < |LiveEdges(nodes, live, k)|
    requires forall t :: 0 <= t < |nodes| && nodes[t].Sum? ==> Below(nodes[t].terms, t)
    ensures EdgeFits(nodes, live, LiveEdges(nodes, live, k)[i])
  {
    var before := LiveEdges(nodes, live, k - 1);
    if i < |before| {
      LiveEdgesFit(nodes, live, k - 1, i);
    } else {
      TermEdgesFit(nodes[k - 1].terms, k - 1, live, i - |before|);
    }
  }

  /** An entry of the edge table, keyed by its renumbered source. */
  ghost predicate EdgeMatches(item: (nat, Edge), raw: RawEdge, renumber: seq<Option<nat>>, list: seq<int>) {
    && raw.source < |renumber| && renumber[raw.source] == Some(item.0)
    && raw.target < |renumber| && renumber[raw.target] == Some(item.1.dependent)
    && item.1.coefficient < |list| && list[item.1.coefficient] == raw.coefficient
  }

  ghost predicate EdgesMatch(items: seq<(nat, Edge)>, raws: seq<RawEdge>, renumber: seq<Option<nat>>, list: seq<int>) {
    |items| == |raws| && forall i :: 0 <= i < |items| ==> EdgeMatches(items[i], raws[i], renumber, list)
  }

  method EdgeItems(raws: seq<RawEdge>, renumber: seq<Option<nat>>, interner: Interner)
      returns (items: seq<(nat, Edge)>, after: Interner)
    requires Interned(interner)
    requires forall i :: 0 <= i < |raws| ==> raws[i].source < |renumber| && renumber[raws[i].source].Some?
    requires forall i :: 0 <= i < |raws| ==> raws[i].target < |renumber| && renumber[raws[i].target].Some?
    ensures Interned(after) && interner.list <= after.list
    ensures EdgesMatch(items, raws, renumber, after.list)
  {
    items, after := [], interner;
    for i := 0 to |raws|
      invariant Interned(after) && interner.list <= after.list
      invariant EdgesMatch(items, raws[..i], renumber, after.list)
    {
      InternKeeps(after, raws[i].coefficient);
      ghost var before := after;
      var (next, index) := Intern(after, raws[i].coefficient);
      after := next;
      forall k | 0 <= k < i ensures EdgeMatches(items[k], raws[k], renumber, after.list) {
        assert EdgeMatches(items[k], raws[..i][k], renumber, before.list);
      }
      items := items + [(renumber[raws[i].source].value, Edge(renumber[raws[i].target].value, index))];
    }
    assert raws[..|raws|] == raws;
  }

  // ---------------------------------------------------------------- roots

  /** The roots with a nonzero coefficient. */
  function LiveRoots(roots: seq<RawRoot>): seq<RawRoot> {
    if |roots| == 0 then []
    else
      var last := roots[|roots| - 1];
      LiveRoots(roots[..|roots| - 1]) + (if last.term.coefficient != 0 then [last] else [])
  }

  lemma {:induction false} LiveRootsSeed(roots: seq<RawRoot>, w: seq<Weights>, o: nat)
    ensures Seed(LiveRoots(roots), w, o) == Seed(roots, w, o)
  {
    if |roots| > 0 {
      var before, last := roots[..|roots| - 1], roots[|roots| - 1];
      LiveRootsSeed(before, w, o);
      if last.term.coefficient == 0 {
        ZeroProduct(Weight(w, last.row, last.kind), last.term.coefficient);
        assert LiveRoots(roots) == LiveRoots(before);
      } else {
        assert LiveRoots(roots)[..|LiveRoots(before)|] == LiveRoots(before);
      }
    }
  }

  lemma {:induction false} LiveRootFrom(roots: seq<RawRoot>, i: nat)
    requires i < |LiveRoots(roots)|
    ensures LiveRoots(roots)[i] in roots && LiveRoots(roots)[i].term.coefficient != 0
  {
    if i < |LiveRoots(roots[..|roots| - 1])| { LiveRootFrom(roots[..|roots| - 1], i); }
  }

  ghost predicate RootMatches(item: (nat, Root), raw: RawRoot, renumber: seq<Option<nat>>, list: seq<int>) {
    && raw.term.node < |renumber| && renumber[raw.term.node] == Some(item.0)
    && item.1.row == raw.row && item.1.kind == raw.kind
    && item.1.coefficient < |list| && list[item.1.coefficient] == raw.term.coefficient
  }

  ghost predicate RootsMatch(items: seq<(nat, Root)>, raws: seq<RawRoot>, renumber: seq<Option<nat>>, list: seq<int>) {
    |items| == |raws| && forall i :: 0 <= i < |items| ==> RootMatches(items[i], raws[i], renumber, list)
  }

  method RootItems(raws: seq<RawRoot>, renumber: seq<Option<nat>>, interner: Interner)
      returns (items: seq<(nat, Root)>, after: Interner)
    requires Interned(interner)
    requires forall i :: 0 <= i < |raws| ==> raws[i].term.node < |renumber| && renumber[raws[i].term.node].Some?
    ensures Interned(after) && interner.list <= after.list
    ensures RootsMatch(items, raws, renumber, after.list)
  {
    items, after := [], interner;
    for i := 0 to |raws|
      invariant Interned(after) && interner.list <= after.list
      invariant RootsMatch(items, raws[..i], renumber, after.list)
    {
      InternKeeps(after, raws[i].term.coefficient);
      ghost var before := after;
      var (next, index) := Intern(after, raws[i].term.coefficient);
      after := next;
      forall k | 0 <= k < i ensures RootMatches(items[k], raws[k], renumber, after.list) {
        assert RootMatches(items[k], raws[..i][k], renumber, before.list);
      }
      items := items + [(renumber[raws[i].term.node].value, Root(raws[i].row, index, raws[i].kind))];
    }
    assert raws[..|raws|] == raws;
  }

  // ---------------------------------------------------------------- the whole preparation

  /** How a tape lays out the recording it was made from. */
  datatype Layout = Layout(reached: seq<bool>, live: seq<bool>, depth: seq<nat>, ordering: seq<nat>,
    renumber: seq<Option<nat>>, edges: seq<(nat, Edge)>, roots: seq<(nat, Root)>)

  /** Reached from the roots, and not the input of a packed lift. */
  ghost predicate KeptLive(rec: Recording, reached: seq<bool>, live: seq<bool>) {
    && Live(rec, reached) && |live| == |rec.nodes|
    && (forall o :: 0 <= o < |live| ==> live[o] == (reached[o] && Free(rec, o)))
  }

  function Renamed(renumber: seq<Option<nat>>, o: nat): Option<nat> {
    if o < |renumber| then renumber[o] else None
  }

  function RenamedGroup(g: RawPowerGroup, renumber: seq<Option<nat>>): PowerGroup {
    PowerGroup(g.first, g.len, g.lowLen, Renamed(renumber, g.full),
      if g.low.None? then None else Renamed(renumber, g.low.value))
  }

  ghost predicate TapeFor(rec: Recording, tape: Tape, l: Layout) {
    var n := |rec.nodes|;
    && KeptLive(rec, l.reached, l.live)
    && |l.depth| == n && (forall t :: 0 <= t < n ==> DeeperAt(rec.nodes, l.live, l.depth, t))
    && (forall o: nat :: o < n ==> Reached(rec.nodes, l.live, l.depth, 0, o)) && NoLevelEmpty(tape.levelOffsets)
    && NodesOrdered(rec.nodes, l.live, l.depth, l.ordering, tape.levelOffsets)
    && Renumbered(l.ordering, l.renumber, n)
    && EdgesMatch(l.edges, LiveEdges(rec.nodes, l.live, n), l.renumber, tape.coefficients)
    && Bucketed(l.edges, |l.ordering|, tape.edgeOffsets, tape.edges)
    && RootsMatch(l.roots, LiveRoots(rec.roots), l.renumber, tape.coefficients)
    && Bucketed(l.roots, |l.ordering|, tape.rootOffsets, tape.roots)
    && |tape.coefficients| >= 2 && tape.coefficients[0] == 1 && tape.coefficients[1] == -1
    && tape.constraints == rec.constraints
    && |tape.inputNodes| == |rec.inputs|
    && (forall c :: 0 <= c < |rec.inputs| ==> tape.inputNodes[c] == Renamed(l.renumber, rec.inputs[c]))
    && |tape.groups| == |rec.groups|
    && (forall a :: 0 <= a < |rec.groups| ==> tape.groups[a] == RenamedGroup(rec.groups[a], l.renumber))
  }

  lemma {:induction false} LiveRenumbered(nodes: seq<RawNode>, live: seq<bool>, depth: seq<nat>, ordering: seq<nat>,
      levelOffsets: seq<nat>, renumber: seq<Option<nat>>, o: nat)
    requires |live| == |depth| == |nodes| && NodesOrdered(nodes, live, depth, ordering, levelOffsets)
    requires Renumbered(ordering, renumber, |nodes|) && o < |nodes|
    ensures renumber[o].Some? <==> live[o]
  {
    if live[o] {
      var v :| 0 <= v < |ordering| && ordering[v] == o;
    }
  }

  /** A root lies on a live node. */
  lemma {:induction false} RootLive(rec: Recording, reached: seq<bool>, live: seq<bool>, i: nat)
    requires GraphValid(rec) && GroupsHold(rec) && KeptLive(rec, reached, live) && i < |LiveRoots(rec.roots)|
    ensures LiveRoots(rec.roots)[i].term.node < |rec.nodes| && live[LiveRoots(rec.roots)[i].term.node]
  {
    LiveRootFrom(rec.roots, i);
    var root := LiveRoots(rec.roots)[i];
    var r :| 0 <= r < |rec.roots| && rec.roots[r] == root;
    assert RootValid(rec, r);
    forall a | 0 <= a < |rec.groups| ensures FreeOf(rec, rec.groups[a], root.term.node) {
      var g := rec.groups[a];
      assert GroupHolds(rec, g);
      forall c | g.first <= c < g.first + g.len && c < |rec.inputs| ensures rec.inputs[c] != root.term.node {
        assert BitHolds(rec, g, c - g.first);
      }
    }
  }

  method Tables(rec: Recording, live: seq<bool>, renumber: seq<Option<nat>>, count: nat)
      returns (interner: Interner, edgeOffsets: seq<nat>, edges: seq<Edge>, rootOffsets: seq<nat>, roots: seq<Root>,
               ghost edgeItems: seq<(nat, Edge)>, ghost rootItems: seq<(nat, Root)>)
    requires GraphValid(rec) && |live| == |rec.nodes| == |renumber|
    requires forall o :: 0 <= o < |rec.nodes| ==> (renumber[o].Some? <==> live[o])
    requires forall o :: 0 <= o < |rec.nodes| && live[o] ==> renumber[o].value < count
    requires forall i :: 0 <= i < |LiveRoots(rec.roots)| ==>
      LiveRoots(rec.roots)[i].term.node < |rec.nodes| && live[LiveRoots(rec.roots)[i].term.node]
    ensures Interned(interner)
    ensures EdgesMatch(edgeItems, LiveEdges(rec.nodes, live, |rec.nodes|), renumber, interner.list)
    ensures Bucketed(edgeItems, count, edgeOffsets, edges)
    ensures RootsMatch(rootItems, LiveRoots(rec.roots), renumber, interner.list)
    ensures Bucketed(rootItems, count, rootOffsets, roots)
  {
    hide InputsOf, LiveEdges, LiveRoots, Bucketed;
    var raws := LiveEdges(rec.nodes, live, |rec.nodes|);
    forall i | 0 <= i < |raws| ensures EdgeFits(rec.nodes, live, raws[i]) { LiveEdgesFit(rec.nodes, live, |rec.nodes|, i); }
    var items, withEdges := EdgeItems(raws, renumber, FIRST);
    EdgeKeys(items, raws, renumber, live, withEdges.list, count);
    edgeOffsets, edges := Distribute(items, count, Edge(0, 0));
    var rawRoots := LiveRoots(rec.roots);
    var others;
    others, interner := RootItems(rawRoots, renumber, withEdges);
    RootKeys(others, rawRoots, renumber, live, interner.list, count);
    rootOffsets, roots := Distribute(others, count, Root(0, 0, Kind.A));
    EdgesMatchLater(items, raws, renumber, withEdges.list, interner.list);
    edgeItems, rootItems := items, others;
  }

  lemma {:induction false} EdgeKeys(items: seq<(nat, Edge)>, raws: seq<RawEdge>, renumber: seq<Option<nat>>, live: seq<bool>,
      list: seq<int>, count: nat)
    requires EdgesMatch(items, raws, renumber, list) && |live| == |renumber|
    requires forall i :: 0 <= i < |raws| ==> raws[i].source < |live| && live[raws[i].source]
    requires forall o :: 0 <= o < |live| && live[o] ==> renumber[o].Some? && renumber[o].value < count
    ensures KeysBelow(items, count)
  {
    forall i | 0 <= i < |items| ensures items[i].0 < count { assert EdgeMatches(items[i], raws[i], renumber, list); }
  }

  lemma {:induction false} RootKeys(items: seq<(nat, Root)>, raws: seq<RawRoot>, renumber: seq<Option<nat>>, live: seq<bool>,
      list: seq<int>, count: nat)
    requires RootsMatch(items, raws, renumber, list) && |live| == |renumber|
    requires forall i :: 0 <= i < |raws| ==> raws[i].term.node < |live| && live[raws[i].term.node]
    requires forall o :: 0 <= o < |live| && live[o] ==> renumber[o].Some? && renumber[o].value < count
    ensures KeysBelow(items, count)
  {
    forall i | 0 <= i < |items| ensures items[i].0 < count { assert RootMatches(items[i], raws[i], renumber, list); }
  }

  lemma {:induction false} EdgesMatchLater(items: seq<(nat, Edge)>, raws: seq<RawEdge>, renumber: seq<Option<nat>>,
      list: seq<int>, later: seq<int>)
    requires EdgesMatch(items, raws, renumber, list) && list <= later
    ensures EdgesMatch(items, raws, renumber, later)
  {
    forall i | 0 <= i < |items| ensures EdgeMatches(items[i], raws[i], renumber, later) {
      assert EdgeMatches(items[i], raws[i], renumber, list);
    }
  }

  /** The tape of a recording. */
  method FromRecorder(rec: Recording) returns (tape: Tape, ghost layout: Layout)
    requires GraphValid(rec) && GroupsHold(rec)
    ensures TapeFor(rec, tape, layout)
  {
    hide GroupsHold, Free, InputsOf, LiveEdges, LiveRoots, Bucketed, DeeperAt, Reached, NoLevelEmpty, ClosedAt, RootsLive;
    var reached := MarkLive(rec);
    var live := RemoveGroupInputs(rec, reached);
    var depth := Depths(rec.nodes, live);
    var ordering, levelOffsets := Order(rec.nodes, rec.inputs, live, depth);
    var renumber := Renumber(ordering, |rec.nodes|);
    forall o | 0 <= o < |rec.nodes| ensures renumber[o].Some? <==> live[o] {
      LiveRenumbered(rec.nodes, live, depth, ordering, levelOffsets, renumber, o);
    }
    forall i | 0 <= i < |LiveRoots(rec.roots)|
      ensures LiveRoots(rec.roots)[i].term.node < |rec.nodes| && live[LiveRoots(rec.roots)[i].term.node]
    {
      RootLive(rec, reached, live, i);
    }
    ghost var edgeItems, rootItems;
    var interner, edgeOffsets, edges, rootOffsets, roots;
    interner, edgeOffsets, edges, rootOffsets, roots, edgeItems, rootItems := Tables(rec, live, renumber, |ordering|);
    var inputNodes := seq(|rec.inputs|, c requires 0 <= c < |rec.inputs| => Renamed(renumber, rec.inputs[c]));
    var groups := seq(|rec.groups|, a requires 0 <= a < |rec.groups| => RenamedGroup(rec.groups[a], renumber));
    tape := Tape(rec.constraints, inputNodes, levelOffsets, edgeOffsets, edges, rootOffsets, roots, groups, interner.list);
    layout := Layout(reached, live, depth, ordering, renumber, edgeItems, rootItems);
  }
}
