/** From a recording to a tape: pruning, reverse-depth order, renumbering, and per-node edge and root
    tables over interned coefficients. */
module WengertTape {
  import opened Wrappers
  import opened Wengert
  import opened WengertGroups
  import opened WengertAdjoint
  import opened Buckets

  datatype Edge = Edge(dependent: nat, coefficient: nat)

  datatype Root = Root(row: nat, coefficient: nat, kind: Kind)

  datatype PowerGroup = PowerGroup(first: nat, len: nat, lowLen: nat, full: Option<nat>, low: Option<nat>)

  datatype Tape = Tape(constraints: nat, inputNodes: seq<Option<nat>>, levelOffsets: seq<nat>,
    edgeOffsets: seq<nat>, edges: seq<Edge>, rootOffsets: seq<nat>, roots: seq<Root>,
    groups: seq<PowerGroup>, coefficients: seq<int>)

  // ---------------------------------------------------------------- liveness

  ghost predicate TermsLive(terms: seq<RawTerm>, live: seq<bool>) {
    forall k :: 0 <= k < |terms| && terms[k].coefficient != 0 && terms[k].node < |live| ==> live[terms[k].node]
  }

  /** A live sum keeps its nonzero terms alive. */
  ghost predicate ClosedAt(nodes: seq<RawNode>, live: seq<bool>, t: nat)
    requires |live| == |nodes| && t < |nodes|
  {
    live[t] && nodes[t].Sum? ==> TermsLive(nodes[t].terms, live)
  }

  ghost predicate RootsLive(roots: seq<RawRoot>, live: seq<bool>) {
    forall r :: 0 <= r < |roots| && roots[r].term.coefficient != 0 && roots[r].term.node < |live| ==> live[roots[r].term.node]
  }

  /** Everything a root can reach is live. */
  ghost predicate Live(rec: Recording, live: seq<bool>) {
    && |live| == |rec.nodes|
    && RootsLive(rec.roots, live)
    && (forall t :: 0 <= t < |rec.nodes| ==> ClosedAt(rec.nodes, live, t))
  }

  method MarkTerms(terms: seq<RawTerm>, t: nat, live: seq<bool>) returns (after: seq<bool>)
    requires Below(terms, t) && t <= |live|
    ensures |after| == |live| && TermsLive(terms, after)
    ensures forall o :: 0 <= o < |live| ==> live[o] ==> after[o]
    ensures forall o :: t <= o < |live| ==> after[o] == live[o]
  {
    after := live;
    for k := 0 to |terms|
      invariant |after| == |live| && TermsLive(terms[..k], after)
      invariant forall o :: 0 <= o < |live| ==> live[o] ==> after[o]
      invariant forall o :: t <= o < |live| ==> after[o] == live[o]
    {
      if terms[k].coefficient != 0 { after := after[terms[k].node := true]; }
    }
    assert terms[..|terms|] == terms;
  }

  lemma {:induction false} ClosedKept(nodes: seq<RawNode>, before: seq<bool>, after: seq<bool>, t: nat)
    requires |before| == |after| == |nodes| && t < |nodes| && ClosedAt(nodes, before, t)
    requires before[t] == after[t] && forall o :: 0 <= o < |before| ==> before[o] ==> after[o]
    ensures ClosedAt(nodes, after, t)
  {
  }

  method MarkLive(rec: Recording) returns (live: seq<bool>)
    requires GraphValid(rec)
    ensures Live(rec, live)
  {
    var n := |rec.nodes|;
    live := seq(n, _ => false);
    for r := 0 to |rec.roots|
      invariant |live| == n && RootsLive(rec.roots[..r], live)
    {
      assert RootValid(rec, r);
      if rec.roots[r].term.coefficient != 0 { live := live[rec.roots[r].term.node := true]; }
    }
    assert rec.roots[..|rec.roots|] == rec.roots;
    for node := n downto 0
      invariant |live| == n && RootsLive(rec.roots, live)
      invariant forall t :: node <= t < n ==> ClosedAt(rec.nodes, live, t)
    {
      if live[node] {
        match rec.nodes[node]
        case Input =>
        case Sum(terms) =>
          var before := live;
          live := MarkTerms(terms, node, live);
          forall t | node < t < n ensures ClosedAt(rec.nodes, live, t) { ClosedKept(rec.nodes, before, live, t); }
      }
    }
  }

  /** A node no root reaches has adjoint zero. */
  lemma {:induction false} DeadAdjoint(rec: Recording, live: seq<bool>, s: seq<int>, a: seq<int>, o: nat)
    requires |s| == |a| == |rec.nodes| && Live(rec, live) && Gathered(rec.nodes, s, a) && o < |rec.nodes| && !live[o]
    requires forall t :: 0 <= t < |rec.nodes| && !live[t] ==> s[t] == 0
    ensures a[o] == 0
    decreases |rec.nodes| - o
  {
    DeadLater(rec, live, s, a, o, |rec.nodes|);
  }

  lemma {:induction false} DeadLater(rec: Recording, live: seq<bool>, s: seq<int>, a: seq<int>, o: nat, k: nat)
    requires |s| == |a| == |rec.nodes| && Live(rec, live) && Gathered(rec.nodes, s, a) && o < |rec.nodes| && !live[o]
    requires forall t :: 0 <= t < |rec.nodes| && !live[t] ==> s[t] == 0
    requires k <= |rec.nodes|
    ensures Later(rec.nodes, a, o, k) == 0
    decreases |rec.nodes| - o, 0, k
  {
    if k > o + 1 {
      DeadLater(rec, live, s, a, o, k - 1);
      assert ClosedAt(rec.nodes, live, k - 1);
      if live[k - 1] {
        if rec.nodes[k - 1].Sum? { NoLiveUse(rec.nodes[k - 1].terms, live, o); }
      } else {
        DeadAdjoint(rec, live, s, a, k - 1);
      }
    }
  }

  lemma {:induction false} NoLiveUse(terms: seq<RawTerm>, live: seq<bool>, o: nat)
    requires TermsLive(terms, live) && o < |live| && !live[o]
    ensures CoefficientSum(terms, o) == 0
  {
    if |terms| > 0 { NoLiveUse(terms[..|terms| - 1], live, o); }
  }

  lemma {:induction false} DeadSeed(roots: seq<RawRoot>, live: seq<bool>, w: seq<Weights>, o: nat)
    requires RootsLive(roots, live) && o < |live| && !live[o]
    ensures Seed(roots, w, o) == 0
  {
    if |roots| > 0 { DeadSeed(roots[..|roots| - 1], live, w, o); }
  }

  /** Packed lifts are differentiated as groups, so their inputs leave the graph. */
  method RemoveGroupInputs(rec: Recording, live: seq<bool>) returns (kept: seq<bool>)
    requires GraphValid(rec) && GroupsHold(rec) && |live| == |rec.nodes|
    ensures |kept| == |live|
    ensures forall o :: 0 <= o < |live| ==> kept[o] == (live[o] && Free(rec, o))
  {
    kept := live;
    for a := 0 to |rec.groups|
      invariant |kept| == |live|
      invariant forall o :: 0 <= o < |live| ==> kept[o] == (live[o] && FreeOfFirst(rec, a, o))
    {
      var g := rec.groups[a];
      assert GroupHolds(rec, g);
      ghost var before := kept;
      for c := g.first to g.first + g.len
        invariant |kept| == |live|
        invariant forall o :: 0 <= o < |live| ==> kept[o] == (before[o] && FreeOfColumns(rec, g.first, c, o))
      {
        InputsOfNodes(rec.nodes, c);
        kept := kept[rec.inputs[c] := false];
      }
    }
  }

  ghost predicate FreeOfFirst(rec: Recording, n: nat, o: nat)
    requires n <= |rec.groups|
  {
    forall a :: 0 <= a < n ==> FreeOf(rec, rec.groups[a], o)
  }

  ghost predicate FreeOfColumns(rec: Recording, from: nat, to: nat, o: nat) {
    forall c :: from <= c < to && c < |rec.inputs| ==> rec.inputs[c] != o
  }

  // ---------------------------------------------------------------- reverse depth

  /** A source lies at least one level after its dependents. */
  ghost predicate TermsDeeper(terms: seq<RawTerm>, live: seq<bool>, depth: seq<nat>, d: nat)
    requires |live| == |depth|
  {
    forall k :: 0 <= k < |terms| && terms[k].coefficient != 0 && terms[k].node < |live| && live[terms[k].node] ==>
      depth[terms[k].node] > d
  }

  ghost predicate DeeperAt(nodes: seq<RawNode>, live: seq<bool>, depth: seq<nat>, t: nat)
    requires |live| == |depth| == |nodes| && t < |nodes|
  {
    live[t] && nodes[t].Sum? ==> TermsDeeper(nodes[t].terms, live, depth, depth[t])
  }

  lemma {:induction false} DeeperKept(nodes: seq<RawNode>, live: seq<bool>, before: seq<nat>, after: seq<nat>, t: nat)
    requires |before| == |after| == |nodes| == |live| && t < |nodes| && DeeperAt(nodes, live, before, t)
    requires before[t] == after[t] && forall o :: 0 <= o < |before| ==> before[o] <= after[o]
    ensures DeeperAt(nodes, live, after, t)
  {
  }

  ghost predicate UsesNode(terms: seq<RawTerm>, o: nat) {
    exists k :: 0 <= k < |terms| && terms[k].node == o && terms[k].coefficient != 0
  }

  /** A positive depth is one more than that of some dependent among the nodes from `from` on. */
  ghost predicate Reached(nodes: seq<RawNode>, live: seq<bool>, depth: seq<nat>, from: nat, o: nat)
    requires |live| == |depth| == |nodes| && o < |nodes|
  {
    depth[o] == 0 || exists t: nat :: ReachedFrom(nodes, live, depth, from, o, t)
  }

  ghost predicate ReachedFrom(nodes: seq<RawNode>, live: seq<bool>, depth: seq<nat>, from: nat, o: nat, t: nat)
    requires |live| == |depth| == |nodes| && o < |nodes|
  {
    from <= t < |nodes| && live[t] && nodes[t].Sum? && UsesNode(nodes[t].terms, o) && depth[o] == depth[t] + 1
  }

  lemma {:induction false} ReachedKept(nodes: seq<RawNode>, live: seq<bool>, before: seq<nat>, after: seq<nat>, from: nat, o: nat)
    requires |before| == |after| == |nodes| == |live| && o < |nodes| && from < |nodes|
    requires Reached(nodes, live, before, from + 1, o) && live[from] && nodes[from].Sum?
    requires forall t :: from <= t < |nodes| ==> after[t] == before[t]
    requires after[o] == before[o] || (UsesNode(nodes[from].terms, o) && after[o] == before[from] + 1)
    ensures Reached(nodes, live, after, from, o)
  {
    hide UsesNode;
    if after[o] != before[o] {
      assert ReachedFrom(nodes, live, after, from, o, from);
    } else if before[o] > 0 {
      var t: nat :| ReachedFrom(nodes, live, before, from + 1, o, t);
      assert ReachedFrom(nodes, live, after, from, o, t);
    }
  }

  /** The same nodes from one earlier on. */
  lemma {:induction false} ReachedEarlier(nodes: seq<RawNode>, live: seq<bool>, depth: seq<nat>, from: nat, o: nat)
    requires |depth| == |nodes| == |live| && o < |nodes| && Reached(nodes, live, depth, from + 1, o)
    ensures Reached(nodes, live, depth, from, o)
  {
    hide UsesNode;
    if depth[o] > 0 {
      var t: nat :| ReachedFrom(nodes, live, depth, from + 1, o, t);
      assert ReachedFrom(nodes, live, depth, from, o, t);
    }
  }

  method PushDepth(terms: seq<RawTerm>, t: nat, live: seq<bool>, depth: seq<nat>) returns (after: seq<nat>)
    requires |live| == |depth| && t < |live| && Below(terms, t)
    ensures |after| == |depth| && TermsDeeper(terms, live, after, depth[t])
    ensures forall o :: 0 <= o < |depth| ==> depth[o] <= after[o]
    ensures forall o: nat :: o < |depth| ==> after[o] == depth[o] || (UsesNode(terms, o) && after[o] == depth[t] + 1)
    ensures forall o :: t <= o < |depth| ==> after[o] == depth[o]
  {
    after := depth;
    for k := 0 to |terms|
      invariant |after| == |depth| && TermsDeeper(terms[..k], live, after, depth[t])
      invariant forall o :: 0 <= o < |depth| ==> depth[o] <= after[o]
      invariant forall o: nat :: o < |depth| ==> after[o] == depth[o] || (UsesNode(terms, o) && after[o] == depth[t] + 1)
      invariant forall o :: t <= o < |depth| ==> after[o] == depth[o]
    {
      var o := terms[k].node;
      if live[o] && terms[k].coefficient != 0 && after[o] < after[t] + 1 {
        after := after[o := after[t] + 1];
      }
    }
    assert terms[..|terms|] == terms;
  }

  method Depths(nodes: seq<RawNode>, live: seq<bool>) returns (depth: seq<nat>)
    requires |live| == |nodes| && forall t :: 0 <= t < |nodes| && nodes[t].Sum? ==> Below(nodes[t].terms, t)
    ensures |depth| == |nodes| && forall t :: 0 <= t < |nodes| ==> DeeperAt(nodes, live, depth, t)
    ensures forall o: nat :: o < |nodes| ==> Reached(nodes, live, depth, 0, o)
  {
    var n := |nodes|;
    depth := seq(n, _ => 0);
    for target := n downto 0
      invariant |depth| == n && forall t :: target <= t < n ==> DeeperAt(nodes, live, depth, t)
      invariant forall o: nat :: o < n ==> Reached(nodes, live, depth, target, o)
    {
      ghost var before := depth;
      if live[target] && nodes[target].Sum? {
        depth := PushDepth(nodes[target].terms, target, live, depth);
        forall t | target < t < n ensures DeeperAt(nodes, live, depth, t) { DeeperKept(nodes, live, before, depth, t); }
      }
      forall o: nat | o < n ensures Reached(nodes, live, depth, target, o) {
        if live[target] && nodes[target].Sum? { ReachedKept(nodes, live, before, depth, target, o); }
        else { ReachedEarlier(nodes, live, depth, target, o); }
      }
    }
  }

  // ---------------------------------------------------------------- the order of the nodes

  predicate Internal(nodes: seq<RawNode>, live: seq<bool>, o: nat)
    requires |live| == |nodes| && o < |nodes|
  {
    live[o] && nodes[o].Sum?
  }

  /** The live sums among the first `k` nodes, each with its depth. */
  function InternalItems(nodes: seq<RawNode>, live: seq<bool>, depth: seq<nat>, k: nat): seq<(nat, nat)>
    requires |live| == |depth| == |nodes| && k <= |nodes|
  {
    if k == 0 then []
    else InternalItems(nodes, live, depth, k - 1) + (if Internal(nodes, live, k - 1) then [(depth[k - 1], k - 1)] else [])
  }

  lemma {:induction false} InternalItem(nodes: seq<RawNode>, live: seq<bool>, depth: seq<nat>, k: nat, i: nat)
    requires |live| == |depth| == |nodes| && k <= |nodes| && i < |InternalItems(nodes, live, depth, k)|
    ensures var (d, o) := InternalItems(nodes, live, depth, k)[i];
      o < k && Internal(nodes, live, o) && d == depth[o]
  {
    if i < |InternalItems(nodes, live, depth, k - 1)| { InternalItem(nodes, live, depth, k - 1, i); }
  }

  lemma {:induction false} InternalListed(nodes: seq<RawNode>, live: seq<bool>, depth: seq<nat>, k: nat, o: nat) returns (i: nat)
    requires |live| == |depth| == |nodes| && k <= |nodes| && o < k && Internal(nodes, live, o)
    ensures i < |InternalItems(nodes, live, depth, k)| && InternalItems(nodes, live, depth, k)[i] == (depth[o], o)
  {
    if o < k - 1 {
      i := InternalListed(nodes, live, depth, k - 1, o);
    } else {
      i := |InternalItems(nodes, live, depth, k - 1)|;
    }
  }

  ghost predicate Increasing(items: seq<(nat, nat)>) {
    forall i, j :: 0 <= i < j < |items| ==> items[i].1 < items[j].1
  }

  lemma {:induction false} InternalIncreasing(nodes: seq<RawNode>, live: seq<bool>, depth: seq<nat>, k: nat)
    requires |live| == |depth| == |nodes| && k <= |nodes|
    ensures Increasing(InternalItems(nodes, live, depth, k))
  {
    if k > 0 {
      var before := InternalItems(nodes, live, depth, k - 1);
      InternalIncreasing(nodes, live, depth, k - 1);
      forall i | 0 <= i < |before| ensures before[i].1 < k - 1 { InternalItem(nodes, live, depth, k - 1, i); }
    }
  }

  lemma {:induction false} PickedIncreasing(items: seq<(nat, nat)>, k: nat, p: nat, q: nat)
    requires Increasing(items) && p < q < |Picked(items, k)|
    ensures Picked(items, k)[p] < Picked(items, k)[q]
  {
    var n := |items| - 1;
    if q < |Picked(items[..n], k)| {
      PickedIncreasing(items[..n], k, p, q);
    } else {
      var i := PickedFrom(items[..n], k, p);
    }
  }

  /** Distinct payloads stay distinct in the table. */
  lemma {:induction false} TableDistinct(items: seq<(nat, nat)>, n: nat, offsets: seq<nat>, table: seq<nat>, u: nat, v: nat)
    requires Bucketed(items, n, offsets, table) && u < v < |table| && Increasing(items)
    requires KeysBelow(items, n)
    ensures table[u] != table[v]
  {
    hide Start, Picked, Bucketed;
    var k, i := TableEntry(items, n, offsets, table, u);
    var l, j := TableEntry(items, n, offsets, table, v);
    if table[u] == table[v] {
      assert i == j && k == l;
      SliceIsPicked(items, n, offsets, table, k);
      var slice := table[offsets[k]..offsets[k + 1]];
      var p, q := u - offsets[k], v - offsets[k];
      assert slice[p] == table[u] && slice[q] == table[v];
      PickedIncreasing(items, k, p, q);
    }
  }

  /** Where an item lands. */
  lemma {:induction false} TableHas<T>(items: seq<(nat, T)>, n: nat, offsets: seq<nat>, table: seq<T>, i: nat) returns (v: nat)
    requires Bucketed(items, n, offsets, table) && i < |items| && items[i].0 < n
    ensures offsets[items[i].0] <= v < offsets[items[i].0 + 1] && v < |table| && table[v] == items[i].1
  {
    var k := items[i].0;
    SliceIsPicked(items, n, offsets, table, k);
    PickedHas(items, i);
    var p :| 0 <= p < |Picked(items, k)| && Picked(items, k)[p] == items[i].1;
    v := offsets[k] + p;
    assert table[offsets[k]..offsets[k + 1]][p] == table[v];
  }

  /** Some internal node has the depth. */
  ghost predicate OnLevel(nodes: seq<RawNode>, live: seq<bool>, depth: seq<nat>, d: nat)
    requires |live| == |depth| == |nodes|
  {
    exists o: nat :: o < |nodes| && Internal(nodes, live, o) && depth[o] == d
  }

  /** Down from an occupied level every level is. */
  lemma {:induction false} LevelsOccupied(nodes: seq<RawNode>, live: seq<bool>, depth: seq<nat>, d: nat, l: nat)
    requires |live| == |depth| == |nodes| && d <= l && OnLevel(nodes, live, depth, l)
    requires forall o: nat :: o < |nodes| ==> Reached(nodes, live, depth, 0, o)
    ensures OnLevel(nodes, live, depth, d)
    decreases l
  {
    hide UsesNode;
    if d < l {
      var o: nat :| o < |nodes| && Internal(nodes, live, o) && depth[o] == l;
      assert Reached(nodes, live, depth, 0, o);
      var t: nat :| ReachedFrom(nodes, live, depth, 0, o, t);
      assert Internal(nodes, live, t) && depth[t] == l - 1;
      LevelsOccupied(nodes, live, depth, d, l - 1);
    }
  }

  ghost predicate NoLevelEmpty(levelOffsets: seq<nat>) {
    forall l :: 0 <= l && l + 1 < |levelOffsets| ==> levelOffsets[l] < levelOffsets[l + 1]
  }

  lemma {:induction false} LevelsFilled(nodes: seq<RawNode>, live: seq<bool>, depth: seq<nat>, levels: nat, offsets: seq<nat>, table: seq<nat>)
    requires |live| == |depth| == |nodes| && |offsets| == levels + 1
    requires Bucketed(InternalItems(nodes, live, depth, |nodes|), levels, offsets, table)
    requires levels == 0 || OnLevel(nodes, live, depth, levels - 1)
    requires forall o: nat :: o < |nodes| ==> Reached(nodes, live, depth, 0, o)
    ensures NoLevelEmpty(offsets)
  {
    hide InternalItems, Bucketed, Reached;
    forall l | 0 <= l && l + 1 < |offsets| ensures offsets[l] < offsets[l + 1] {
      LevelsOccupied(nodes, live, depth, l, levels - 1);
      var o: nat :| o < |nodes| && Internal(nodes, live, o) && depth[o] == l;
      var i := InternalListed(nodes, live, depth, |nodes|, o);
      var v := TableHas(InternalItems(nodes, live, depth, |nodes|), levels, offsets, table, i);
    }
  }

  method LevelCount(nodes: seq<RawNode>, live: seq<bool>, depth: seq<nat>) returns (levels: nat)
    requires |live| == |depth| == |nodes|
    ensures forall o :: 0 <= o < |nodes| && Internal(nodes, live, o) ==> depth[o] < levels
    ensures levels == 0 || OnLevel(nodes, live, depth, levels - 1)
  {
    levels := 0;
    for o := 0 to |nodes|
      invariant forall u :: 0 <= u < o && Internal(nodes, live, u) ==> depth[u] < levels
      invariant levels == 0 || OnLevel(nodes, live, depth, levels - 1)
    {
      if live[o] && nodes[o].Sum? && levels < depth[o] + 1 { levels := depth[o] + 1; }
    }
  }

  lemma {:induction false} InputListed(nodes: seq<RawNode>, o: nat)
    requires o < |nodes| && nodes[o].Input?
    ensures o in InputsOf(nodes)
  {
    if o < |nodes| - 1 { InputListed(nodes[..|nodes| - 1], o); }
  }

  /** The order of the nodes: internal ones by level, then the live inputs. */
  ghost predicate NodesOrdered(nodes: seq<RawNode>, live: seq<bool>, depth: seq<nat>, ordering: seq<nat>, levelOffsets: seq<nat>)
    requires |live| == |depth| == |nodes|
  {
    && |levelOffsets| > 0 && levelOffsets[0] == 0 && levelOffsets[|levelOffsets| - 1] <= |ordering|
    && (forall v :: 0 <= v < |ordering| ==> ordering[v] < |nodes| && live[ordering[v]])
    && (forall v :: 0 <= v < |ordering| ==> (nodes[ordering[v]].Sum? <==> v < levelOffsets[|levelOffsets| - 1]))
    && (forall u, v :: 0 <= u < v < |ordering| ==> ordering[u] != ordering[v])
    && (forall o :: 0 <= o < |nodes| && live[o] ==> o in ordering)
    && (forall k, l :: 0 <= k <= l < |levelOffsets| ==> levelOffsets[k] <= levelOffsets[l])
    && (forall v :: 0 <= v < levelOffsets[|levelOffsets| - 1] ==> AtItsLevel(depth, ordering, levelOffsets, v))
  }

  /** An internal node stands in the slice of its depth. */
  ghost predicate AtItsLevel(depth: seq<nat>, ordering: seq<nat>, levelOffsets: seq<nat>, v: nat) {
    v < |ordering| && ordering[v] < |depth| && depth[ordering[v]] + 1 < |levelOffsets|
    && levelOffsets[depth[ordering[v]]] <= v < levelOffsets[depth[ordering[v]] + 1]
  }

  lemma {:induction false} LevelsBounded(nodes: seq<RawNode>, live: seq<bool>, depth: seq<nat>, levels: nat)
    requires |live| == |depth| == |nodes|
    requires forall o :: 0 <= o < |nodes| && Internal(nodes, live, o) ==> depth[o] < levels
    ensures KeysBelow(InternalItems(nodes, live, depth, |nodes|), levels)
  {
    var items := InternalItems(nodes, live, depth, |nodes|);
    forall i | 0 <= i < |items| ensures items[i].0 < levels { InternalItem(nodes, live, depth, |nodes|, i); }
  }

  lemma {:induction false} OrderedEntry(nodes: seq<RawNode>, live: seq<bool>, depth: seq<nat>, levels: nat, offsets: seq<nat>, table: seq<nat>, v: nat)
    requires |live| == |depth| == |nodes| && v < |table|
    requires forall o :: 0 <= o < |nodes| && Internal(nodes, live, o) ==> depth[o] < levels
    requires Bucketed(InternalItems(nodes, live, depth, |nodes|), levels, offsets, table)
    ensures |offsets| == levels + 1 && table[v] < |nodes| && Internal(nodes, live, table[v]) && AtItsLevel(depth, table, offsets, v)
  {
    hide InternalItems, Start, Picked, Slot;
    var items := InternalItems(nodes, live, depth, |nodes|);
    LevelsBounded(nodes, live, depth, levels);
    var k, i := TableEntry(items, levels, offsets, table, v);
    InternalItem(nodes, live, depth, |nodes|, i);
  }

  lemma {:induction false} OrderedListed(nodes: seq<RawNode>, live: seq<bool>, depth: seq<nat>, levels: nat, offsets: seq<nat>, table: seq<nat>, o: nat)
    requires |live| == |depth| == |nodes| && o < |nodes| && Internal(nodes, live, o)
    requires forall o :: 0 <= o < |nodes| && Internal(nodes, live, o) ==> depth[o] < levels
    requires Bucketed(InternalItems(nodes, live, depth, |nodes|), levels, offsets, table)
    ensures o in table
  {
    hide InternalItems, Start, Picked, Slot;
    var i := InternalListed(nodes, live, depth, |nodes|, o);
    var v := TableHas(InternalItems(nodes, live, depth, |nodes|), levels, offsets, table, i);
  }

  lemma {:induction false} BucketedOffsets<T>(items: seq<(nat, T)>, n: nat, offsets: seq<nat>, table: seq<T>)
    requires Bucketed(items, n, offsets, table)
    requires KeysBelow(items, n)
    ensures |offsets| == n + 1 && offsets[0] == 0 && offsets[n] == |table|
    ensures forall k, l :: 0 <= k <= l < |offsets| ==> offsets[k] <= offsets[l]
  {
    hide Picked, Slot;
    StartZero(items);
    StartAll(items, n);
    forall k, l | 0 <= k <= l < |offsets| ensures offsets[k] <= offsets[l] { StartMonotone(items, k, l); }
  }

  /** The internal part of the order. */
  lemma {:induction false} InternalOrder(nodes: seq<RawNode>, live: seq<bool>, depth: seq<nat>, levels: nat, offsets: seq<nat>, table: seq<nat>)
    requires |live| == |depth| == |nodes|
    requires forall o :: 0 <= o < |nodes| && Internal(nodes, live, o) ==> depth[o] < levels
    requires Bucketed(InternalItems(nodes, live, depth, |nodes|), levels, offsets, table)
    ensures |offsets| == levels + 1 && offsets[0] == 0 && offsets[levels] == |table|
    ensures forall v :: 0 <= v < |table| ==>
      table[v] < |nodes| && Internal(nodes, live, table[v]) && AtItsLevel(depth, table, offsets, v)
    ensures forall u, v :: 0 <= u < v < |table| ==> table[u] != table[v]
    ensures forall o :: 0 <= o < |nodes| && Internal(nodes, live, o) ==> o in table
    ensures forall k, l :: 0 <= k <= l < |offsets| ==> offsets[k] <= offsets[l]
  {
    hide InternalItems, Bucketed, AtItsLevel;
    var items := InternalItems(nodes, live, depth, |nodes|);
    LevelsBounded(nodes, live, depth, levels);
    InternalIncreasing(nodes, live, depth, |nodes|);
    BucketedOffsets(items, levels, offsets, table);
    forall v | 0 <= v < |table|
      ensures table[v] < |nodes| && Internal(nodes, live, table[v]) && AtItsLevel(depth, table, offsets, v)
    {
      OrderedEntry(nodes, live, depth, levels, offsets, table, v);
    }
    forall u, v | 0 <= u < v < |table| ensures table[u] != table[v] { TableDistinct(items, levels, offsets, table, u, v); }
    forall o | 0 <= o < |nodes| && Internal(nodes, live, o) ensures o in table {
      OrderedListed(nodes, live, depth, levels, offsets, table, o);
    }
  }

  /** The live inputs, in column order. */
  method LiveInputs(nodes: seq<RawNode>, inputs: seq<nat>, live: seq<bool>) returns (kept: seq<nat>)
    requires |live| == |nodes| && inputs == InputsOf(nodes)
    ensures forall v :: 0 <= v < |kept| ==> kept[v] < |nodes| && nodes[kept[v]].Input? && live[kept[v]]
    ensures forall u, v :: 0 <= u < v < |kept| ==> kept[u] < kept[v]
    ensures forall o :: 0 <= o < |nodes| && nodes[o].Input? && live[o] ==> o in kept
  {
    kept := [];
    for c := 0 to |inputs|
      invariant forall v :: 0 <= v < |kept| ==> kept[v] < |nodes| && nodes[kept[v]].Input? && live[kept[v]]
      invariant forall u, v :: 0 <= u < v < |kept| ==> kept[u] < kept[v]
      invariant forall v, d :: 0 <= v < |kept| && c <= d < |inputs| ==> kept[v] < inputs[d]
      invariant forall d :: 0 <= d < c && inputs[d] < |live| && live[inputs[d]] ==> inputs[d] in kept
    {
      InputsOfNodes(nodes, c);
      forall d | c < d < |inputs| ensures inputs[c] < inputs[d] { InputsIncrease(nodes, c, d); }
      ghost var before := kept;
      if live[inputs[c]] { kept := kept + [inputs[c]]; }
      assert forall o :: o in before ==> o in kept;
    }
    forall o | 0 <= o < |nodes| && nodes[o].Input? && live[o] ensures o in kept { InputListed(nodes, o); }
  }

  method Order(nodes: seq<RawNode>, inputs: seq<nat>, live: seq<bool>, depth: seq<nat>)
      returns (ordering: seq<nat>, levelOffsets: seq<nat>)
    requires |live| == |depth| == |nodes| && inputs == InputsOf(nodes)
    requires forall o: nat :: o < |nodes| ==> Reached(nodes, live, depth, 0, o)
    ensures NodesOrdered(nodes, live, depth, ordering, levelOffsets) && NoLevelEmpty(levelOffsets)
  {
    hide Reached, OnLevel;
    var levels := LevelCount(nodes, live, depth);
    var items := InternalItems(nodes, live, depth, |nodes|);
    LevelsBounded(nodes, live, depth, levels);
    var table;
    levelOffsets, table := Distribute(items, levels, 0);
    InternalOrder(nodes, live, depth, levels, levelOffsets, table);
    LevelsFilled(nodes, live, depth, levels, levelOffsets, table);
    var kept := LiveInputs(nodes, inputs, live);
    ordering := table + kept;
    JoinOrder(nodes, live, depth, table, kept, levelOffsets);
  }

  lemma {:induction false} JoinOrder(nodes: seq<RawNode>, live: seq<bool>, depth: seq<nat>, table: seq<nat>, kept: seq<nat>, offsets: seq<nat>)
    requires |live| == |depth| == |nodes| && |offsets| > 0 && offsets[0] == 0 && offsets[|offsets| - 1] == |table|
    requires forall v :: 0 <= v < |table| ==>
      table[v] < |nodes| && Internal(nodes, live, table[v]) && AtItsLevel(depth, table, offsets, v)
    requires forall u, v :: 0 <= u < v < |table| ==> table[u] != table[v]
    requires forall o :: 0 <= o < |nodes| && Internal(nodes, live, o) ==> o in table
    requires forall k, l :: 0 <= k <= l < |offsets| ==> offsets[k] <= offsets[l]
    requires forall v :: 0 <= v < |kept| ==> kept[v] < |nodes| && nodes[kept[v]].Input? && live[kept[v]]
    requires forall u, v :: 0 <= u < v < |kept| ==> kept[u] < kept[v]
    requires forall o :: 0 <= o < |nodes| && nodes[o].Input? && live[o] ==> o in kept
    ensures NodesOrdered(nodes, live, depth, table + kept, offsets)
  {
    var ordering, n := table + kept, |table|;
    forall v | 0 <= v < n ensures AtItsLevel(depth, ordering, offsets, v) { assert AtItsLevel(depth, table, offsets, v); }
    forall v | 0 <= v < |ordering|
      ensures ordering[v] < |nodes| && live[ordering[v]] && (nodes[ordering[v]].Sum? <==> v < n)
    {
      if v < n { assert ordering[v] == table[v]; } else { assert ordering[v] == kept[v - n]; }
    }
    forall u, v | 0 <= u < v < |ordering| ensures ordering[u] != ordering[v] {
      if v < n {
        assert ordering[u] == table[u] && ordering[v] == table[v];
      } else if u >= n {
        assert ordering[u] == kept[u - n] && ordering[v] == kept[v - n];
      }
    }
  }

  /** The inverse of the order; a node that was pruned has no new number. */
  ghost predicate Renumbered(ordering: seq<nat>, renumber: seq<Option<nat>>, n: nat) {
    && |renumber| == n
    && (forall v :: 0 <= v < |ordering| ==> ordering[v] < n && renumber[ordering[v]] == Some(v))
    && (forall o :: 0 <= o < n && renumber[o].Some? ==> renumber[o].value < |ordering| && ordering[renumber[o].value] == o)
  }

  method Renumber(ordering: seq<nat>, n: nat) returns (renumber: seq<Option<nat>>)
    requires forall v :: 0 <= v < |ordering| ==> ordering[v] < n
    requires forall u, v :: 0 <= u < v < |ordering| ==> ordering[u] != ordering[v]
    ensures Renumbered(ordering, renumber, n)
  {
    renumber := seq(n, _ => None);
    for v := 0 to |ordering|
      invariant |renumber| == n
      invariant forall u :: 0 <= u < v ==> renumber[ordering[u]] == Some(u)
      invariant forall o :: 0 <= o < n && renumber[o].Some? ==> renumber[o].value < v && ordering[renumber[o].value] == o
    {
      renumber := renumber[ordering[v] := Some(v)];
    }
  }
}
