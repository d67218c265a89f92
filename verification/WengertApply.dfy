/** Applying a tape: the reverse pass level by level in Montgomery form, and the chunked output pass that
    spreads power groups by doubling. */
module WengertApply {
  import opened Wrappers
  import opened Powers
  import opened Circuits
  import opened Wengert
  import opened WengertAdjoint
  import opened WengertTape
  import opened Residues
  import M = Montgomery

  // ---------------------------------------------------------------- what a tape computes exactly

  function RootValue(roots: seq<Root>, w: seq<Weights>, list: seq<int>): int {
    if |roots| == 0 then 0
    else
      var last := roots[|roots| - 1];
      RootValue(roots[..|roots| - 1], w, list) + Weight(w, last.row, last.kind) * At(list, last.coefficient)
  }

  function EdgeValue(edges: seq<Edge>, a: seq<int>, list: seq<int>): int {
    if |edges| == 0 then 0
    else
      var last := edges[|edges| - 1];
      EdgeValue(edges[..|edges| - 1], a, list) + At(a, last.dependent) * At(list, last.coefficient)
  }

  ghost predicate StepsUp(offsets: seq<nat>, v: nat, size: nat) {
    v + 1 < |offsets| && offsets[v] <= offsets[v + 1] <= size
  }

  ghost predicate OffsetsValid(offsets: seq<nat>, n: nat, size: nat) {
    |offsets| == n + 1 && forall v :: 0 <= v < n ==> StepsUp(offsets, v, size)
  }

  function EdgeSlice(tape: Tape, v: nat): seq<Edge> {
    if v + 1 < |tape.edgeOffsets| && tape.edgeOffsets[v] <= tape.edgeOffsets[v + 1] <= |tape.edges|
    then tape.edges[tape.edgeOffsets[v]..tape.edgeOffsets[v + 1]] else []
  }

  function RootSlice(tape: Tape, v: nat): seq<Root> {
    if v + 1 < |tape.rootOffsets| && tape.rootOffsets[v] <= tape.rootOffsets[v + 1] <= |tape.roots|
    then tape.roots[tape.rootOffsets[v]..tape.rootOffsets[v + 1]] else []
  }

  ghost predicate EdgesRead(edges: seq<Edge>, bound: nat, list: seq<int>) {
    forall i :: 0 <= i < |edges| ==> edges[i].dependent < bound && edges[i].coefficient < |list|
  }

  ghost predicate RootsRead(roots: seq<Root>, rows: nat, list: seq<int>) {
    forall i :: 0 <= i < |roots| ==> roots[i].row < rows && roots[i].coefficient < |list|
  }

  function Internals(tape: Tape): nat {
    if |tape.levelOffsets| == 0 then 0 else tape.levelOffsets[|tape.levelOffsets| - 1]
  }

  /** The schedule: every node of a level reads only adjoints of earlier levels, every input only
      internal ones, and every number points into its table. */
  ghost predicate Scheduled(tape: Tape, n: nat) {
    && OffsetsValid(tape.edgeOffsets, n, |tape.edges|) && OffsetsValid(tape.rootOffsets, n, |tape.roots|)
    && |tape.levelOffsets| > 0 && tape.levelOffsets[0] == 0 && Internals(tape) <= n
    && (forall k :: 0 <= k < |tape.levelOffsets| - 1 ==> StepsUp(tape.levelOffsets, k, Internals(tape)))
    && |tape.coefficients| >= 2 && tape.coefficients[0] == 1 && tape.coefficients[1] == -1
    && (forall v :: 0 <= v < n ==> RootsRead(RootSlice(tape, v), tape.constraints, tape.coefficients))
    && (forall v :: 0 <= v < n ==> EdgesRead(EdgeSlice(tape, v), Internals(tape), tape.coefficients))
    && (forall k :: 0 <= k < |tape.levelOffsets| - 1 ==> LevelReads(tape, k))
    && (forall c :: 0 <= c < |tape.inputNodes| && tape.inputNodes[c].Some? ==> tape.inputNodes[c].value < n)
  }

  ghost predicate LevelReads(tape: Tape, k: nat)
    requires k + 1 < |tape.levelOffsets|
  {
    forall v :: tape.levelOffsets[k] <= v < tape.levelOffsets[k + 1] ==>
      EdgesRead(EdgeSlice(tape, v), tape.levelOffsets[k], tape.coefficients)
  }

  /** Exact adjoints of the tape's nodes. */
  ghost predicate Solves(tape: Tape, n: nat, w: seq<Weights>, a: seq<int>) {
    |a| == n && forall v :: 0 <= v < n ==>
      a[v] == RootValue(RootSlice(tape, v), w, tape.coefficients) + EdgeValue(EdgeSlice(tape, v), a, tape.coefficients)
  }

  function NodeValue(a: seq<int>, node: Option<nat>): int {
    if node.None? then 0 else At(a, node.value)
  }

  /** The value at bit `i` of a group. */
  function GroupValue(g: PowerGroup, a: seq<int>, i: nat): int {
    Pow2(i) * (NodeValue(a, g.full) + (if i < g.lowLen then NodeValue(a, g.low) else 0))
  }

  ghost predicate GroupsInOrder(groups: seq<PowerGroup>, columns: nat) {
    && (forall k :: 0 <= k < |groups| ==> GroupInside(groups[k], columns))
    && (forall k, l :: 0 <= k < l < |groups| ==> groups[k].first + groups[k].len <= groups[l].first)
  }

  ghost predicate GroupInside(g: PowerGroup, columns: nat) {
    0 < g.len && g.first + g.len <= columns && g.lowLen <= g.len
  }

  ghost predicate InGroup(g: PowerGroup, c: nat) {
    g.first <= c < g.first + g.len
  }

  /** Exact values of the columns: spread over a group, or the adjoint of the column's own input. */
  ghost predicate ColumnsSolve(tape: Tape, a: seq<int>, columns: seq<int>) {
    && |columns| == |tape.inputNodes|
    && (forall k, c :: 0 <= k < |tape.groups| && 0 <= c < |columns| && InGroup(tape.groups[k], c) ==>
          columns[c] == GroupValue(tape.groups[k], a, c - tape.groups[k].first))
    && (forall c :: 0 <= c < |columns| && (forall k :: 0 <= k < |tape.groups| ==> !InGroup(tape.groups[k], c)) ==>
          columns[c] == NodeValue(a, tape.inputNodes[c]))
  }

  // ---------------------------------------------------------------- the prepared program

  /** The tape with everything that depends on the modulus. */
  datatype Context = Context(tape: Tape, modulus: Modulus, coefficients: seq<M.Pair>)

  ghost predicate Prepared(c: Context) {
    && Ready(c.modulus)
    && |c.coefficients| == |c.tape.coefficients|
    && (forall i :: 0 <= i < |c.coefficients| ==> c.coefficients[i] == Enc(c.modulus, c.tape.coefficients[i]))
  }

  /** A source times a coefficient; one and minus one need no product. */
  method Scaled(c: Context, source: M.Pair, coefficient: nat, ghost x: int) returns (r: M.Pair)
    requires Prepared(c) && source == Enc(c.modulus, x) && coefficient < |c.coefficients|
    requires |c.tape.coefficients| >= 2 && c.tape.coefficients[0] == 1 && c.tape.coefficients[1] == -1
    ensures r == Enc(c.modulus, x * c.tape.coefficients[coefficient])
  {
    hide M.Encode;
    if coefficient == 0 {
      r := source;
    } else if coefficient == 1 {
      r := Negate(c.modulus, source, x);
    } else {
      r := Multiply(c.modulus, source, c.coefficients[coefficient], x, c.tape.coefficients[coefficient]);
    }
  }

  // ---------------------------------------------------------------- one node

  ghost predicate AdjointsEncoded(c: Context, adjoints: seq<M.Pair>, a: seq<int>, n: nat)
    requires c.modulus.P() > 0
  {
    n <= |adjoints| && n <= |a| && forall v :: 0 <= v < n ==> adjoints[v] == Enc(c.modulus, a[v])
  }

  lemma {:induction false} RootValueNext(roots: seq<Root>, w: seq<Weights>, list: seq<int>, i: nat)
    requires i < |roots|
    ensures RootValue(roots[..i + 1], w, list)
      == RootValue(roots[..i], w, list) + Weight(w, roots[i].row, roots[i].kind) * At(list, roots[i].coefficient)
  {
    assert roots[..i + 1][..i] == roots[..i];
  }

  lemma {:induction false} EdgeValueNext(edges: seq<Edge>, a: seq<int>, list: seq<int>, i: nat)
    requires i < |edges|
    ensures EdgeValue(edges[..i + 1], a, list)
      == EdgeValue(edges[..i], a, list) + At(a, edges[i].dependent) * At(list, edges[i].coefficient)
  {
    assert edges[..i + 1][..i] == edges[..i];
  }

  /** The roots of a node, from nothing. */
  method SumRoots(c: Context, roots: seq<Root>, weighted: seq<Weighted>, ghost w: seq<Weights>)
      returns (value: M.Pair, initialized: bool)
    requires Prepared(c) && WeightsEncoded(c.modulus, weighted, w) && RootsRead(roots, |weighted|, c.tape.coefficients)
    requires |c.tape.coefficients| >= 2 && c.tape.coefficients[0] == 1 && c.tape.coefficients[1] == -1
    ensures value == Enc(c.modulus, RootValue(roots, w, c.tape.coefficients)) && initialized == (|roots| > 0)
  {
    hide M.Encode, Enc, RootValue;
    value, initialized := M.Pair(0, 0), false;
    ZeroIsEncoded(c.modulus);
    NoRoots(w, c.tape.coefficients);
    assert roots[..0] == [];
    for i := 0 to |roots|
      invariant value == Enc(c.modulus, RootValue(roots[..i], w, c.tape.coefficients)) && initialized == (i > 0)
    {
      var root := roots[i];
      ghost var x, y := RootValue(roots[..i], w, c.tape.coefficients), Weight(w, root.row, root.kind);
      var contribution := Scaled(c, Pick(weighted[root.row], root.kind), root.coefficient, y);
      RootValueNext(roots, w, c.tape.coefficients, i);
      value := Accumulate(c.modulus, value, initialized, contribution, x, y * c.tape.coefficients[root.coefficient]);
      initialized := true;
    }
    assert roots[..|roots|] == roots;
  }

  lemma {:induction false} NoRoots(w: seq<Weights>, list: seq<int>)
    ensures RootValue([], w, list) == 0
  {
  }

  lemma {:induction false} NoEdges(a: seq<int>, list: seq<int>)
    ensures EdgeValue([], a, list) == 0
  {
  }

  /** The dependents of a node, added to what its roots gave. */
  method SumEdges(c: Context, edges: seq<Edge>, prior: seq<M.Pair>, from: M.Pair, fromInitialized: bool,
      ghost x0: int, ghost a: seq<int>) returns (value: M.Pair)
    requires Prepared(c) && AdjointsEncoded(c, prior, a, |prior|) && EdgesRead(edges, |prior|, c.tape.coefficients)
    requires |c.tape.coefficients| >= 2 && c.tape.coefficients[0] == 1 && c.tape.coefficients[1] == -1
    requires from == Enc(c.modulus, x0) && (!fromInitialized ==> x0 == 0)
    ensures value == Enc(c.modulus, x0 + EdgeValue(edges, a, c.tape.coefficients))
  {
    hide M.Encode, Enc, EdgeValue;
    value := from;
    var initialized := fromInitialized;
    NoEdges(a, c.tape.coefficients);
    assert edges[..0] == [];
    for i := 0 to |edges|
      invariant value == Enc(c.modulus, x0 + EdgeValue(edges[..i], a, c.tape.coefficients)) && initialized == (fromInitialized || i > 0)
    {
      var edge := edges[i];
      ghost var x, y := x0 + EdgeValue(edges[..i], a, c.tape.coefficients), a[edge.dependent];
      var contribution := Scaled(c, prior[edge.dependent], edge.coefficient, y);
      EdgeValueNext(edges, a, c.tape.coefficients, i);
      value := Accumulate(c.modulus, value, initialized, contribution, x, y * c.tape.coefficients[edge.coefficient]);
      initialized := true;
    }
    assert edges[..|edges|] == edges;
  }

  lemma {:induction false} OneEdge(edges: seq<Edge>, roots: seq<Root>, w: seq<Weights>, a: seq<int>, list: seq<int>)
    requires |roots| == 0 && |edges| == 1
    ensures RootValue(roots, w, list) + EdgeValue(edges, a, list) == At(a, edges[0].dependent) * At(list, edges[0].coefficient)
  {
    assert edges[..0] == [];
  }

  /** The adjoint of one node from the adjoints before its level. */
  method Evaluate(c: Context, node: nat, weighted: seq<Weighted>, prior: seq<M.Pair>, ghost n: nat, ghost w: seq<Weights>, ghost a: seq<int>)
      returns (value: M.Pair)
    requires Prepared(c) && Scheduled(c.tape, n) && Solves(c.tape, n, w, a) && node < n
    requires WeightsEncoded(c.modulus, weighted, w) && |w| == c.tape.constraints
    requires AdjointsEncoded(c, prior, a, |prior|) && EdgesRead(EdgeSlice(c.tape, node), |prior|, c.tape.coefficients)
    ensures value == Enc(c.modulus, a[node])
  {
    hide M.Encode, Enc, RootValue, EdgeValue;
    assert StepsUp(c.tape.rootOffsets, node, |c.tape.roots|) && StepsUp(c.tape.edgeOffsets, node, |c.tape.edges|);
    var roots := c.tape.roots[c.tape.rootOffsets[node]..c.tape.rootOffsets[node + 1]];
    var edges := c.tape.edges[c.tape.edgeOffsets[node]..c.tape.edgeOffsets[node + 1]];
    assert RootSlice(c.tape, node) == roots && EdgeSlice(c.tape, node) == edges;
    if |roots| == 0 && |edges| == 1 {
      OneEdge(edges, roots, w, a, c.tape.coefficients);
      value := Scaled(c, prior[edges[0].dependent], edges[0].coefficient, a[edges[0].dependent]);
      return;
    }
    var initialized;
    value, initialized := SumRoots(c, roots, weighted, w);
    if !initialized { NoRoots(w, c.tape.coefficients); assert roots == []; }
    value := SumEdges(c, edges, prior, value, initialized, RootValue(roots, w, c.tape.coefficients), a);
  }

  // ---------------------------------------------------------------- the reverse pass

  /** One level: its nodes see only the adjoints before it. */
  method EvaluateLevel(c: Context, level: nat, weighted: seq<Weighted>, adjoints: seq<M.Pair>, ghost n: nat, ghost w: seq<Weights>, ghost a: seq<int>)
      returns (after: seq<M.Pair>)
    requires Prepared(c) && Scheduled(c.tape, n) && Solves(c.tape, n, w, a) && level + 1 < |c.tape.levelOffsets|
    requires WeightsEncoded(c.modulus, weighted, w) && |w| == c.tape.constraints
    requires |adjoints| == Internals(c.tape) && AdjointsEncoded(c, adjoints, a, c.tape.levelOffsets[level])
    ensures |after| == |adjoints| && AdjointsEncoded(c, after, a, c.tape.levelOffsets[level + 1])
  {
    hide M.Encode, Enc, Solves;
    assert StepsUp(c.tape.levelOffsets, level, Internals(c.tape)) && LevelReads(c.tape, level);
    var start, end := c.tape.levelOffsets[level], c.tape.levelOffsets[level + 1];
    var prior := adjoints[..start];
    AdjointsFit(c.tape, n, w, a);
    after := adjoints;
    for node := start to end
      invariant |after| == |adjoints| && after[..start] == prior && AdjointsEncoded(c, after, a, node)
    {
      var value := Evaluate(c, node, weighted, prior, n, w, a);
      after := after[node := value];
    }
  }

  lemma {:induction false} AdjointsFit(tape: Tape, n: nat, w: seq<Weights>, a: seq<int>)
    requires Solves(tape, n, w, a)
    ensures |a| == n
  {
  }

  /** All levels: every internal adjoint is the exact one. */
  method ReversePass(c: Context, weighted: seq<Weighted>, workspace: seq<M.Pair>, ghost n: nat, ghost w: seq<Weights>, ghost a: seq<int>)
      returns (adjoints: seq<M.Pair>)
    requires Prepared(c) && Scheduled(c.tape, n) && Solves(c.tape, n, w, a)
    requires WeightsEncoded(c.modulus, weighted, w) && |w| == c.tape.constraints
    requires |workspace| == Internals(c.tape)
    ensures |adjoints| == Internals(c.tape) && AdjointsEncoded(c, adjoints, a, |adjoints|)
  {
    hide M.Encode, Enc, LevelReads;
    adjoints := workspace;
    for level := 0 to |c.tape.levelOffsets| - 1
      invariant |adjoints| == Internals(c.tape) && AdjointsEncoded(c, adjoints, a, c.tape.levelOffsets[level])
    {
      adjoints := EvaluateLevel(c, level, weighted, adjoints, n, w, a);
    }
  }

  // ---------------------------------------------------------------- the output pass

  /** The doubled powers of the longest group. */
  method PowersOfTwo(c: Context, count: nat) returns (powers: seq<M.Pair>)
    requires Prepared(c) && |c.coefficients| >= 1 && c.tape.coefficients[0] == 1
    ensures |powers| == count && forall k :: 0 <= k < count ==> powers[k] == Enc(c.modulus, Pow2(k))
  {
    hide M.Encode, Enc, Pow2;
    powers := [];
    var power := c.coefficients[0];
    PowerZero();
    for k := 0 to count
      invariant |powers| == k && power == Enc(c.modulus, Pow2(k))
      invariant forall i :: 0 <= i < k ==> powers[i] == Enc(c.modulus, Pow2(i))
    {
      powers := powers + [power];
      DoublePower(k, 1);
      power := AddUp(c.modulus, power, power, Pow2(k), Pow2(k));
    }
  }

  lemma {:induction false} PowerZero()
    ensures Pow2(0) == 1
  {
  }

  ghost predicate PowersReady(c: Context, powers: seq<M.Pair>)
    requires c.modulus.P() > 0
  {
    && (forall k :: 0 <= k < |powers| ==> powers[k] == Enc(c.modulus, Pow2(k)))
    && (forall g :: 0 <= g < |c.tape.groups| ==> c.tape.groups[g].len <= |powers|)
  }

  /** The first group that ends after a column. */
  method PartitionPoint(groups: seq<PowerGroup>, start: nat, ghost columns: nat) returns (i: nat)
    requires GroupsInOrder(groups, columns)
    ensures i <= |groups|
    ensures forall k :: 0 <= k < i ==> groups[k].first + groups[k].len <= start
    ensures forall k :: i <= k < |groups| ==> groups[k].first + groups[k].len > start
  {
    i := 0;
    var size := |groups|;
    while i < size
      invariant i <= size <= |groups|
      invariant forall k :: 0 <= k < i ==> groups[k].first + groups[k].len <= start
      invariant forall k :: size <= k < |groups| ==> groups[k].first + groups[k].len > start
    {
      var half := (i + size) / 2;
      assert GroupInside(groups[half], columns);
      if groups[half].first + groups[half].len <= start {
        forall k | 0 <= k <= half ensures groups[k].first + groups[k].len <= start {
          if k < half { assert groups[k].first + groups[k].len <= groups[half].first; }
        }
        i := half + 1;
      } else {
        forall k | half <= k < |groups| ensures groups[k].first + groups[k].len > start {
          if k > half { assert GroupInside(groups[k], columns); }
        }
        size := half;
      }
    }
  }

  function ReadAdjoint(adjoints: seq<M.Pair>, node: Option<nat>): M.Pair {
    if node.Some? && node.value < |adjoints| then adjoints[node.value] else M.Pair(0, 0)
  }

  lemma {:induction false} ReadAdjointIs(c: Context, adjoints: seq<M.Pair>, node: Option<nat>, a: seq<int>)
    requires Prepared(c) && AdjointsEncoded(c, adjoints, a, |adjoints|) && (node.Some? ==> node.value < |adjoints|)
    ensures ReadAdjoint(adjoints, node) == Enc(c.modulus, NodeValue(a, node))
  {
    ZeroIsEncoded(c.modulus);
  }

  ghost predicate GroupNodesRead(tape: Tape) {
    forall k :: 0 <= k < |tape.groups| ==>
      && (tape.groups[k].full.Some? ==> tape.groups[k].full.value < Internals(tape))
      && (tape.groups[k].low.Some? ==> tape.groups[k].low.value < Internals(tape))
  }

  /** A stretch of one group, all of it inside or all of it outside the low part. */
  method FillSegment(c: Context, group: PowerGroup, column: nat, segmentEnd: nat, adjoints: seq<M.Pair>, powers: seq<M.Pair>,
      ghost a: seq<int>) returns (values: seq<M.Pair>)
    requires Prepared(c) && AdjointsEncoded(c, adjoints, a, |adjoints|)
    requires group.full.Some? ==> group.full.value < |adjoints|
    requires group.low.Some? ==> group.low.value < |adjoints|
    requires group.first <= column < segmentEnd <= group.first + group.len <= group.first + |powers|
    requires column < group.first + group.lowLen ==> segmentEnd <= group.first + group.lowLen
    requires forall k :: 0 <= k < |powers| ==> powers[k] == Enc(c.modulus, Pow2(k))
    ensures |values| == segmentEnd - column
    ensures forall k :: 0 <= k < |values| ==> values[k] == Enc(c.modulus, GroupValue(group, a, column + k - group.first))
  {
    hide M.Encode, Enc, Pow2;
    var inLow := column < group.first + group.lowLen;
    ghost var exact := NodeValue(a, group.full) + (if inLow then NodeValue(a, group.low) else 0);
    var base := ReadAdjoint(adjoints, group.full);
    ReadAdjointIs(c, adjoints, group.full, a);
    if inLow {
      ReadAdjointIs(c, adjoints, group.low, a);
      base := AddUp(c.modulus, base, ReadAdjoint(adjoints, group.low), NodeValue(a, group.full), NodeValue(a, group.low));
    }
    var power := column - group.first;
    var value := Raised(c, base, power, powers, exact);
    values := [];
    for k := 0 to segmentEnd - column
      invariant |values| == k && value == Enc(c.modulus, Pow2(power + k) * exact)
      invariant forall i :: 0 <= i < k ==> values[i] == Enc(c.modulus, GroupValue(group, a, column + i - group.first))
    {
      values := values + [value];
      DoublePower(power + k, exact);
      value := AddUp(c.modulus, value, value, Pow2(power + k) * exact, Pow2(power + k) * exact);
    }
  }

  lemma {:induction false} DoublePower(k: nat, e: int)
    ensures Pow2(k + 1) * e == Pow2(k) * e + Pow2(k) * e
  {
    assert Pow2(k + 1) == Pow2(k) + Pow2(k);
    M.PlusTimes(Pow2(k), Pow2(k), e);
  }

  /** The base times its power of two; zero needs no product. */
  method Raised(c: Context, base: M.Pair, power: nat, powers: seq<M.Pair>, ghost e: int) returns (value: M.Pair)
    requires Prepared(c) && base == Enc(c.modulus, e) && power < |powers| && powers[power] == Enc(c.modulus, Pow2(power))
    ensures value == Enc(c.modulus, Pow2(power) * e)
  {
    hide M.Encode;
    if power == 0 || base == M.Pair(0, 0) {
      if power == 0 { assert Pow2(0) == 1; } else { M.EncodeZeroTimes(c.modulus.P(), Pow2(power), e); }
      value := base;
    } else {
      value := Multiply(c.modulus, base, powers[power], e, Pow2(power));
      M.Reorder(1, Pow2(power), e);
    }
  }

  /** Columns outside every group, each from its own input. */
  method FillScalars(c: Context, from: nat, to: nat, weighted: seq<Weighted>, adjoints: seq<M.Pair>,
      ghost n: nat, ghost w: seq<Weights>, ghost a: seq<int>) returns (values: seq<M.Pair>)
    requires Prepared(c) && Scheduled(c.tape, n) && Solves(c.tape, n, w, a) && from <= to <= |c.tape.inputNodes|
    requires WeightsEncoded(c.modulus, weighted, w) && |w| == c.tape.constraints
    requires |adjoints| == Internals(c.tape) && AdjointsEncoded(c, adjoints, a, |adjoints|)
    ensures |values| == to - from
    ensures forall k :: 0 <= k < |values| ==> values[k] == Enc(c.modulus, NodeValue(a, c.tape.inputNodes[from + k]))
  {
    hide M.Encode, Enc, LevelReads, EdgeSlice, RootSlice;
    AdjointsFit(c.tape, n, w, a);
    ZeroIsEncoded(c.modulus);
    values := [];
    for k := 0 to to - from
      invariant |values| == k
      invariant forall i :: 0 <= i < k ==> values[i] == Enc(c.modulus, NodeValue(a, c.tape.inputNodes[from + i]))
    {
      var node := c.tape.inputNodes[from + k];
      var value := M.Pair(0, 0);
      if node.Some? { value := Evaluate(c, node.value, weighted, adjoints, n, w, a); }
      values := values + [value];
    }
  }

  /** Columns of one chunk, exact at every position. */
  ghost predicate ColumnsEncoded(c: Context, values: seq<M.Pair>, from: nat, columns: seq<int>)
    requires c.modulus.P() > 0
  {
    from + |values| <= |columns| && forall k :: 0 <= k < |values| ==> values[k] == Enc(c.modulus, columns[from + k])
  }

  lemma {:induction false} ColumnsAppend(c: Context, values: seq<M.Pair>, more: seq<M.Pair>, from: nat, columns: seq<int>)
    requires c.modulus.P() > 0 && ColumnsEncoded(c, values, from, columns) && from + |values| + |more| <= |columns|
    requires ColumnsEncoded(c, more, from + |values|, columns)
    ensures ColumnsEncoded(c, values + more, from, columns)
  {
  }

  /** The groups before `i` end by a column, the others after it. */
  ghost predicate GroupsCut(groups: seq<PowerGroup>, i: nat, column: nat) {
    && i <= |groups|
    && (forall k :: 0 <= k < i ==> groups[k].first + groups[k].len <= column)
    && (forall k :: i <= k < |groups| ==> groups[k].first + groups[k].len > column)
  }

  /** Between two groups, no column belongs to one. */
  lemma {:induction false} OutsideGroups(tape: Tape, i: nat, column: nat, end: nat, columns: nat)
    requires GroupsInOrder(tape.groups, columns) && GroupsCut(tape.groups, i, column)
    requires i < |tape.groups| ==> end <= tape.groups[i].first
    ensures forall k, c :: 0 <= k < |tape.groups| && column <= c < end ==> !InGroup(tape.groups[k], c)
  {
    forall k, c | 0 <= k < |tape.groups| && column <= c < end ensures !InGroup(tape.groups[k], c) {
      if k > i {
        assert GroupInside(tape.groups[i], columns);
        assert tape.groups[i].first + tape.groups[i].len <= tape.groups[k].first;
      }
    }
  }

  lemma {:induction false} SegmentColumns(c: Context, values: seq<M.Pair>, i: nat, column: nat, a: seq<int>, columns: seq<int>)
    requires c.modulus.P() > 0 && ColumnsSolve(c.tape, a, columns) && i < |c.tape.groups| && column + |values| <= |columns|
    requires var g := c.tape.groups[i];
      && g.first <= column && column + |values| <= g.first + g.len
      && (forall k :: 0 <= k < |values| ==> values[k] == Enc(c.modulus, GroupValue(g, a, column + k - g.first)))
    ensures ColumnsEncoded(c, values, column, columns)
  {
    hide GroupValue, Enc;
    forall k | 0 <= k < |values| ensures values[k] == Enc(c.modulus, columns[column + k]) {
      assert InGroup(c.tape.groups[i], column + k);
    }
  }

  lemma {:induction false} ScalarColumns(c: Context, values: seq<M.Pair>, column: nat, end: nat, a: seq<int>, columns: seq<int>)
    requires c.modulus.P() > 0 && ColumnsSolve(c.tape, a, columns) && column + |values| == end <= |columns|
    requires forall k, d :: 0 <= k < |c.tape.groups| && column <= d < end ==> !InGroup(c.tape.groups[k], d)
    requires forall k :: 0 <= k < |values| ==> values[k] == Enc(c.modulus, NodeValue(a, c.tape.inputNodes[column + k]))
    ensures ColumnsEncoded(c, values, column, columns)
  {
    hide Enc;
    forall k | 0 <= k < |values| ensures values[k] == Enc(c.modulus, columns[column + k]) {
      assert forall g :: 0 <= g < |c.tape.groups| ==> !InGroup(c.tape.groups[g], column + k);
    }
  }

  /** One chunk of the output: scalars and group stretches, wherever the chunk happens to cut. */
  method FillChunk(c: Context, chunkStart: nat, chunkEnd: nat, weighted: seq<Weighted>, adjoints: seq<M.Pair>, powers: seq<M.Pair>,
      ghost n: nat, ghost w: seq<Weights>, ghost a: seq<int>, ghost columns: seq<int>) returns (chunk: seq<M.Pair>)
    requires Prepared(c) && Scheduled(c.tape, n) && Solves(c.tape, n, w, a) && chunkStart <= chunkEnd <= |columns|
    requires WeightsEncoded(c.modulus, weighted, w) && |w| == c.tape.constraints
    requires |adjoints| == Internals(c.tape) && AdjointsEncoded(c, adjoints, a, |adjoints|)
    requires PowersReady(c, powers) && GroupsInOrder(c.tape.groups, |columns|) && GroupNodesRead(c.tape)
    requires ColumnsSolve(c.tape, a, columns)
    ensures |chunk| == chunkEnd - chunkStart && ColumnsEncoded(c, chunk, chunkStart, columns)
  {
    hide M.Encode, Enc, Scheduled, Solves, WeightsEncoded, AdjointsEncoded, GroupValue;
    var groups := c.tape.groups;
    var groupIndex: nat := PartitionPoint(groups, chunkStart, |columns|);
    var column: nat := chunkStart;
    chunk := [];
    while column < chunkEnd
      invariant chunkStart <= column <= chunkEnd && |chunk| == column - chunkStart
      invariant ColumnsEncoded(c, chunk, chunkStart, columns)
      invariant GroupsCut(groups, groupIndex, column)
      decreases chunkEnd - column
    {
      var values;
      var end: nat;
      if groupIndex == |groups| || column < groups[groupIndex].first {
        end := if groupIndex == |groups| || chunkEnd < groups[groupIndex].first then chunkEnd else groups[groupIndex].first;
        values := FillScalars(c, column, end, weighted, adjoints, n, w, a);
        OutsideGroups(c.tape, groupIndex, column, end, |columns|);
        ScalarColumns(c, values, column, end, a, columns);
      } else {
        var group := groups[groupIndex];
        assert GroupInside(group, |columns|) && group.len <= |powers|;
        var lowEnd, groupEnd := group.first + group.lowLen, group.first + group.len;
        end := if column < lowEnd && lowEnd < groupEnd then lowEnd else groupEnd;
        end := if end < chunkEnd then end else chunkEnd;
        values := FillSegment(c, group, column, end, adjoints, powers, a);
        SegmentColumns(c, values, groupIndex, column, a, columns);
      }
      ColumnsAppend(c, chunk, values, chunkStart, columns);
      chunk := chunk + values;
      NextGroup(groups, groupIndex, column, end, |columns|);
      if groupIndex < |groups| && end == groups[groupIndex].first + groups[groupIndex].len {
        groupIndex := groupIndex + 1;
      }
      column := end;
    }
  }

  /** Moving on inside a gap or a group keeps the cut; reaching a group's end moves past it. */
  lemma {:induction false} NextGroup(groups: seq<PowerGroup>, i: nat, column: nat, end: nat, columns: nat)
    requires GroupsInOrder(groups, columns) && GroupsCut(groups, i, column) && column < end
    requires i < |groups| ==> end <= groups[i].first + groups[i].len
    ensures if i < |groups| && end == groups[i].first + groups[i].len then GroupsCut(groups, i + 1, end)
      else GroupsCut(groups, i, end)
  {
    forall k | i < k < |groups| ensures groups[k].first + groups[k].len > end {
      assert GroupInside(groups[k], columns) && groups[i].first + groups[i].len <= groups[k].first;
    }
  }

  const OUTPUT_CHUNK_SIZE := 4096

  /** The whole output, chunk by chunk; the result does not depend on the chunk size. */
  method OutputPass(c: Context, chunkSize: nat, weighted: seq<Weighted>, adjoints: seq<M.Pair>, powers: seq<M.Pair>,
      ghost n: nat, ghost w: seq<Weights>, ghost a: seq<int>, ghost columns: seq<int>) returns (output: seq<M.Pair>)
    requires chunkSize > 0 && |columns| == |c.tape.inputNodes|
    requires Prepared(c) && Scheduled(c.tape, n) && Solves(c.tape, n, w, a)
    requires WeightsEncoded(c.modulus, weighted, w) && |w| == c.tape.constraints
    requires |adjoints| == Internals(c.tape) && AdjointsEncoded(c, adjoints, a, |adjoints|)
    requires PowersReady(c, powers) && GroupsInOrder(c.tape.groups, |columns|) && GroupNodesRead(c.tape)
    requires ColumnsSolve(c.tape, a, columns)
    ensures |output| == |columns| && ColumnsEncoded(c, output, 0, columns)
  {
    hide M.Encode, Enc, Scheduled, Solves, WeightsEncoded, AdjointsEncoded, ColumnsSolve, GroupsInOrder;
    output := [];
    while |output| < |c.tape.inputNodes|
      invariant |output| <= |columns| && ColumnsEncoded(c, output, 0, columns)
      decreases |columns| - |output|
    {
      var end := if |output| + chunkSize < |c.tape.inputNodes| then |output| + chunkSize else |c.tape.inputNodes|;
      var chunk := FillChunk(c, |output|, end, weighted, adjoints, powers, n, w, a, columns);
      ColumnsAppend(c, output, chunk, 0, columns);
      output := output + chunk;
    }
  }
}
