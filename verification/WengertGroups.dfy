/** Power groups: the inputs of a packed lift are private to its one or two sums, so an adjoint can be
    spread over them by doubling. */
module WengertGroups {
  import opened Wrappers
  import opened Powers
  import opened Circuits
  import opened Wengert
  import opened WengertMeaning

  /** The total coefficient with which terms use a node. */
  function CoefficientSum(terms: seq<RawTerm>, o: nat): int {
    if |terms| == 0 then 0
    else
      var last := terms[|terms| - 1];
      CoefficientSum(terms[..|terms| - 1], o) + (if last.node == o then last.coefficient else 0)
  }

  function Uses(n: RawNode, o: nat): int {
    match n
    case Input => 0
    case Sum(terms) => CoefficientSum(terms, o)
  }

  /** How the node `t` must use bit `i` of a group. */
  function Expected(g: RawPowerGroup, i: nat, t: nat): int {
    (if t == g.full then Pow2(i) else 0) + (if g.low == Some(t) && i < g.lowLen then Pow2(i) else 0)
  }

  ghost predicate BitHolds(rec: Recording, g: RawPowerGroup, i: nat)
    requires g.first + i < |rec.inputs|
  {
    var o := rec.inputs[g.first + i];
    && (forall t :: 0 <= t < |rec.nodes| ==> Uses(rec.nodes[t], o) == Expected(g, i, t))
    && (forall r :: 0 <= r < |rec.roots| ==> rec.roots[r].term.node != o)
  }

  ghost predicate GroupHolds(rec: Recording, g: RawPowerGroup) {
    && g.len >= 2 && 0 < g.first && g.first + g.len <= |rec.inputs|
    && g.full < |rec.nodes| && rec.nodes[g.full].Sum?
    && (g.low.Some? <==> 0 < g.lowLen) && g.lowLen < g.len
    && (g.low.Some? ==> g.low.value < |rec.nodes| && rec.nodes[g.low.value].Sum? && g.low.value != g.full)
    && (forall i :: 0 <= i < g.len ==> BitHolds(rec, g, i))
  }

  /** All groups hold, in column order and without overlap. */
  ghost predicate GroupsHold(rec: Recording) {
    && (forall a :: 0 <= a < |rec.groups| ==> GroupHolds(rec, rec.groups[a]))
    && (forall a, b :: 0 <= a < b < |rec.groups| ==> rec.groups[a].first + rec.groups[a].len <= rec.groups[b].first)
  }

  /** Not an input of any group. */
  ghost predicate Free(rec: Recording, o: nat) {
    forall a :: 0 <= a < |rec.groups| ==> FreeOf(rec, rec.groups[a], o)
  }

  ghost predicate FreeOf(rec: Recording, g: RawPowerGroup, o: nat) {
    forall c :: g.first <= c < g.first + g.len && c < |rec.inputs| ==> rec.inputs[c] != o
  }

  ghost predicate FreeHandles(rec: Recording, values: seq<Value>) {
    forall h :: 0 <= h < |values| ==> Free(rec, Raw(values[h]).node)
  }

  // ---------------------------------------------------------------- facts about inputs

  lemma {:induction false} InputsOfNodes(nodes: seq<RawNode>, c: nat)
    requires c < |InputsOf(nodes)|
    ensures InputsOf(nodes)[c] < |nodes| && nodes[InputsOf(nodes)[c]].Input?
  {
    if |nodes| > 0 && c < |InputsOf(nodes[..|nodes| - 1])| { InputsOfNodes(nodes[..|nodes| - 1], c); }
  }

  lemma {:induction false} InputsIncrease(nodes: seq<RawNode>, c: nat, d: nat)
    requires c < d < |InputsOf(nodes)|
    ensures InputsOf(nodes)[c] < InputsOf(nodes)[d]
  {
    var before := nodes[..|nodes| - 1];
    if d < |InputsOf(before)| {
      InputsIncrease(before, c, d);
    } else {
      InputsOfNodes(before, c);
    }
  }

  lemma {:induction false} NoUse(terms: seq<RawTerm>, o: nat)
    requires forall k :: 0 <= k < |terms| ==> terms[k].node != o
    ensures CoefficientSum(terms, o) == 0
  {
    if |terms| > 0 { NoUse(terms[..|terms| - 1], o); }
  }

  // ---------------------------------------------------------------- growing

  /** One more node that no group's bit is used by. */
  lemma {:induction false} GroupKept(rec: Recording, after: Recording, g: RawPowerGroup, n: RawNode)
    requires GraphValid(rec) && GroupHolds(rec, g)
    requires after.nodes == rec.nodes + [n] && rec.inputs <= after.inputs && after.roots == rec.roots
    requires n.Sum? ==> forall k :: 0 <= k < |n.terms| ==> FreeOf(rec, g, n.terms[k].node)
    ensures GroupHolds(after, g)
  {
    forall i | 0 <= i < g.len ensures BitHolds(after, g, i) {
      assert BitHolds(rec, g, i);
      var c := g.first + i;
      var o := rec.inputs[c];
      if n.Sum? {
        assert forall k :: 0 <= k < |n.terms| ==> n.terms[k].node != o;
        NoUse(n.terms, o);
      }
    }
  }

  lemma {:induction false} FreeKept(rec: Recording, after: Recording, o: nat)
    requires after.groups == rec.groups && rec.inputs <= after.inputs && GroupsHold(rec) && Free(rec, o)
    ensures Free(after, o)
  {
    forall a | 0 <= a < |after.groups| ensures FreeOf(after, after.groups[a], o) {
      assert FreeOf(rec, rec.groups[a], o) && GroupHolds(rec, rec.groups[a]);
    }
  }

  lemma {:induction false} NewNodeFree(rec: Recording, after: Recording, o: nat)
    requires GraphValid(rec) && after.groups == rec.groups && rec.inputs <= after.inputs && GroupsHold(rec)
    requires o >= |rec.nodes|
    ensures Free(after, o)
  {
    forall a | 0 <= a < |after.groups| ensures FreeOf(after, after.groups[a], o) {
      var g := rec.groups[a];
      assert GroupHolds(rec, g);
      forall c | g.first <= c < g.first + g.len ensures after.inputs[c] != o { InputsOfNodes(rec.nodes, c); }
    }
  }

  lemma {:induction false} PushInputGroups(rec: Recording)
    requires GraphValid(rec) && GroupsHold(rec)
    ensures GroupsHold(PushInput(rec)) && Free(PushInput(rec), |rec.nodes|)
  {
    forall a | 0 <= a < |rec.groups| ensures GroupHolds(PushInput(rec), rec.groups[a]) {
      GroupKept(rec, PushInput(rec), rec.groups[a], Input);
    }
    NewNodeFree(rec, PushInput(rec), |rec.nodes|);
  }

  lemma {:induction false} PushSumGroups(rec: Recording, terms: seq<RawTerm>)
    requires GraphValid(rec) && GroupsHold(rec)
    requires forall k :: 0 <= k < |terms| ==> Free(rec, terms[k].node)
    ensures GroupsHold(PushSum(rec, terms)) && Free(PushSum(rec, terms), |rec.nodes|)
  {
    forall a | 0 <= a < |rec.groups| ensures GroupHolds(PushSum(rec, terms), rec.groups[a]) {
      assert forall k :: 0 <= k < |terms| ==> FreeOf(rec, rec.groups[a], terms[k].node);
      GroupKept(rec, PushSum(rec, terms), rec.groups[a], Sum(terms));
    }
    NewNodeFree(rec, PushSum(rec, terms), |rec.nodes|);
  }

  /** Node zero is the constant column, which belongs to no group. */
  lemma {:induction false} FirstInput(nodes: seq<RawNode>)
    requires |nodes| > 0 && nodes[0].Input?
    ensures |InputsOf(nodes)| > 0 && InputsOf(nodes)[0] == 0
  {
    if |nodes| == 1 {
      assert nodes[..0] == [];
    } else {
      FirstInput(nodes[..|nodes| - 1]);
    }
  }

  lemma {:induction false} ConstantFree(rec: Recording)
    requires GraphValid(rec) && GroupsHold(rec)
    ensures Free(rec, 0)
  {
    FirstInput(rec.nodes);
    forall a | 0 <= a < |rec.groups| ensures FreeOf(rec, rec.groups[a], 0) {
      var g := rec.groups[a];
      assert GroupHolds(rec, g);
      forall c | g.first <= c < g.first + g.len && c < |rec.inputs| ensures rec.inputs[c] != 0 {
        InputsIncrease(rec.nodes, 0, c);
      }
    }
  }

  // ---------------------------------------------------------------- the operations

  lemma {:induction false} PlusGroups(rec: Recording, x: Value, y: Value, limbs: nat)
    requires GraphValid(rec) && GroupsHold(rec) && Free(rec, Raw(x).node) && Free(rec, Raw(y).node)
    ensures var (after, sum) := Plus(rec, x, y, limbs);
      GroupsHold(after) && Free(after, Raw(sum).node) && after.groups == rec.groups && rec.inputs == after.inputs
  {
    hide GraphValid, GroupsHold, Free;
    if x.coefficient != 0 && y.coefficient != 0 && x.location != y.location {
      PushSumGroups(rec, [Raw(x), Raw(y)]);
    }
  }

  lemma {:induction false} NonZeroFree(rec: Recording, terms: seq<Value>)
    requires FreeHandles(rec, terms)
    ensures FreeHandles(rec, NonZero(terms))
  {
    if |terms| > 0 { NonZeroFree(rec, terms[..|terms| - 1]); }
  }

  lemma {:induction false} SumTermsGroups(rec: Recording, terms: seq<Value>, limbs: nat)
    requires GraphValid(rec) && GroupsHold(rec) && FreeHandles(rec, terms)
    ensures var (after, sum) := SumTerms(rec, terms, limbs);
      GroupsHold(after) && Free(after, Raw(sum).node) && after.groups == rec.groups && rec.inputs == after.inputs
  {
    hide GraphValid, GroupsHold, Free;
    NonZeroFree(rec, terms);
    ConstantFree(rec);
    if |NonZero(terms)| > 1 {
      PushSumGroups(rec, Raws(NonZero(terms)));
    }
  }

  lemma {:induction false} LiftBitsGroups(rec: Recording, n: nat, limbs: nat)
    requires GraphValid(rec) && GroupsHold(rec) && n < 64 * limbs
    ensures var (after, lifted) := LiftBits(rec, n, limbs);
      GroupsHold(after) && FreeHandles(after, lifted) && after.groups == rec.groups
    decreases n
  {
    hide GraphValid, GroupsHold, Free, Wrap;
    if n > 0 {
      LiftBitsGroups(rec, n - 1, limbs);
      LiftBitsShape(rec, n - 1, limbs);
      var (before, lifted) := LiftBits(rec, n - 1, limbs);
      PushInputGroups(before);
      forall h | 0 <= h < |lifted| ensures Free(PushInput(before), Raw(lifted[h]).node) {
        FreeKept(before, PushInput(before), Raw(lifted[h]).node);
      }
    }
  }

  // ---------------------------------------------------------------- a new group

  /** The handles of a lift: bit `i` on the `i`th new node, scaled by `2^i`. */
  ghost predicate Bits(lifted: seq<Value>, base: nat) {
    forall i :: 0 <= i < |lifted| ==> lifted[i] == Value(OnNode(base + i), Pow2(i))
  }

  lemma {:induction false} BitsAreNonZero(lifted: seq<Value>, base: nat)
    requires Bits(lifted, base)
    ensures NonZero(lifted) == lifted
  {
    if |lifted| > 0 {
      BitsAreNonZero(lifted[..|lifted| - 1], base);
      assert lifted == lifted[..|lifted| - 1] + [lifted[|lifted| - 1]];
    }
  }

  lemma {:induction false} BitsUse(lifted: seq<Value>, base: nat, i: nat)
    requires Bits(lifted, base)
    ensures CoefficientSum(Raws(lifted), base + i) == if i < |lifted| then Pow2(i) else 0
  {
    hide Pow2;
    if |lifted| > 0 {
      var before := lifted[..|lifted| - 1];
      BitsUse(before, base, i);
      assert Raws(lifted)[..|lifted| - 1] == Raws(before);
    }
  }

  /** The nodes a lift of at least two bits leaves when it forms a group. */
  ghost predicate GroupNodes(rec: Recording, after: Recording, lifted: seq<Value>, low: nat) {
    var base, n := |rec.nodes|, |lifted|;
    && Bits(lifted, base) && low <= n
    && after.roots == rec.roots && rec.nodes <= after.nodes
    && |after.inputs| == |rec.inputs| + n
    && |after.nodes| == base + n + (if 0 < low < n then 2 else 1)
    && (forall t :: base <= t < base + n ==> after.nodes[t].Input?)
    && after.nodes[base + n] == Sum(Raws(lifted))
    && (0 < low < n ==> after.nodes[base + n + 1] == Sum(Raws(lifted[..low])))
    && (forall c :: |rec.inputs| <= c < |after.inputs| ==> after.inputs[c] == base + (c - |rec.inputs|))
  }

  lemma {:induction false} SumOfBits(rec: Recording, lifted: seq<Value>, base: nat, limbs: nat)
    requires Bits(lifted, base) && |lifted| != 1
    ensures SumTerms(rec, lifted, limbs) ==
      if |lifted| == 0 then (rec, Value(OnConstant, 0))
      else (PushSum(rec, Raws(lifted)), Value(OnNode(|rec.nodes|), One(limbs)))
  {
    BitsAreNonZero(lifted, base);
  }

  lemma {:induction false} LiftNodes(rec: Recording, n: nat, low: nat, limbs: nat)
    requires GraphValid(rec) && low <= n < 64 * limbs && n >= 2 && low != 1
    ensures var (inputs, lifted) := LiftBits(rec, n, limbs);
      var (after, full, lowValue) := Lift(rec, n, low, limbs);
      && |lifted| == n && GroupNodes(rec, after, lifted, low)
      && Raw(full).node == |rec.nodes| + n && (0 < low < n ==> Raw(lowValue).node == |rec.nodes| + n + 1)
  {
    hide GraphValid, LiftBits, Pow2, SumTerms, Raws, NonZero, PowerWord, One;
    var (inputs, lifted) := LiftBits(rec, n, limbs);
    LiftBitsShape(rec, n, limbs);
    SumOfBits(inputs, lifted, |rec.nodes|, limbs);
    if low < n {
      SumOfBits(SumTerms(inputs, lifted, limbs).0, lifted[..low], |rec.nodes|, limbs);
    }
  }

  /** No older node and no root can refer to a node that did not exist. */
  lemma {:induction false} OldNodesDoNotUse(rec: Recording, o: nat)
    requires GraphValid(rec) && o >= |rec.nodes|
    ensures forall t :: 0 <= t < |rec.nodes| ==> Uses(rec.nodes[t], o) == 0
    ensures forall r :: 0 <= r < |rec.roots| ==> rec.roots[r].term.node != o
  {
    forall t | 0 <= t < |rec.nodes| ensures Uses(rec.nodes[t], o) == 0 {
      if rec.nodes[t].Sum? { NoUse(rec.nodes[t].terms, o); }
    }
    forall r | 0 <= r < |rec.roots| ensures rec.roots[r].term.node != o { assert RootValid(rec, r); }
  }

  lemma {:induction false} NewGroupBit(rec: Recording, after: Recording, lifted: seq<Value>, low: nat, g: RawPowerGroup, i: nat)
    requires GraphValid(rec) && GroupNodes(rec, after, lifted, low) && i < |lifted|
    requires g.first == |rec.inputs| && g.full == |rec.nodes| + |lifted|
    requires if 0 < low < |lifted| then g.low == Some(g.full + 1) && g.lowLen == low else g.low == None && g.lowLen == 0
    ensures BitHolds(after, g, i)
  {
    hide GraphValid, Pow2;
    var base, n := |rec.nodes|, |lifted|;
    var o := base + i;
    OldNodesDoNotUse(rec, o);
    BitsUse(lifted, base, i);
    if 0 < low < n {
      BitsUse(lifted[..low], base, i);
    }
    forall t | 0 <= t < |after.nodes| ensures Uses(after.nodes[t], o) == Expected(g, i, t) {
      if t < base { assert after.nodes[t] == rec.nodes[t]; }
    }
  }

  lemma {:induction false} NewGroupHolds(rec: Recording, n: nat, low: nat, limbs: nat)
    requires GraphValid(rec) && low <= n < 64 * limbs && n >= 2 && low != 1
    ensures var after := Lift(rec, n, low, limbs).0;
      |after.groups| > 0 && GroupHolds(after, after.groups[|after.groups| - 1])
      && after.groups[|after.groups| - 1].first == |rec.inputs|
  {
    hide InputsOf, LiftBits, Pow2, SumTerms, BitHolds;
    FirstInput(rec.nodes);
    LiftNodes(rec, n, low, limbs);
    var lifted := LiftBits(rec, n, limbs).1;
    var after := Lift(rec, n, low, limbs).0;
    var g := after.groups[|after.groups| - 1];
    forall i | 0 <= i < g.len ensures BitHolds(after, g, i) {
      NewGroupBit(rec, after, lifted, low, g, i);
    }
  }

  lemma {:induction false} GroupAside(rec: Recording, g: RawPowerGroup, groups: seq<RawPowerGroup>)
    requires GroupHolds(rec, g)
    ensures GroupHolds(rec.(groups := groups), g)
  {
    forall i | 0 <= i < g.len ensures BitHolds(rec.(groups := groups), g, i) { assert BitHolds(rec, g, i); }
  }

  /** Adding a group whose columns come after all others. */
  lemma {:induction false} AddGroup(rec: Recording, after: Recording, g: RawPowerGroup, from: nat)
    requires GroupsHold(rec) && after == rec.(groups := rec.groups + [g]) && GroupHolds(after, g)
    requires g.first == from && forall a :: 0 <= a < |rec.groups| ==> rec.groups[a].first + rec.groups[a].len <= from
    ensures GroupsHold(after)
  {
    forall a | 0 <= a < |after.groups| ensures GroupHolds(after, after.groups[a]) {
      if a < |rec.groups| { GroupAside(rec, rec.groups[a], after.groups); }
    }
  }

  lemma {:induction false} FreeAfterAdd(rec: Recording, after: Recording, g: RawPowerGroup, o: nat)
    requires Free(rec, o) && after == rec.(groups := rec.groups + [g])
    requires forall c :: g.first <= c < g.first + g.len && c < |rec.inputs| ==> rec.inputs[c] != o
    ensures Free(after, o)
  {
    forall a | 0 <= a < |after.groups| ensures FreeOf(after, after.groups[a], o) {
      if a < |rec.groups| { assert FreeOf(rec, rec.groups[a], o); }
    }
  }

  /** Everything of a lift but the group. */
  function LiftSums(rec: Recording, n: nat, low: nat, limbs: nat): (r: (Recording, Value, Value)) {
    var (inputs, lifted) := LiftBits(rec, n, limbs);
    var (withFull, full) := SumTerms(inputs, lifted, limbs);
    var (withLow, lowValue) :=
      if low == n then (withFull, full)
      else SumTerms(withFull, if low <= |lifted| then lifted[..low] else lifted, limbs);
    (withLow, full, lowValue)
  }

  lemma {:induction false} LiftIsSumsAndGroup(rec: Recording, n: nat, low: nat, limbs: nat)
    ensures var (sums, full, lowValue) := LiftSums(rec, n, low, limbs);
      var after := Lift(rec, n, low, limbs).0;
      && Lift(rec, n, low, limbs) == (after, full, lowValue)
      && (if n >= 2 && low != 1 then
            |after.groups| == |sums.groups| + 1 && after == sums.(groups := sums.groups + [after.groups[|sums.groups|]])
          else after == sums)
  {
    hide LiftBits, SumTerms;
  }

  lemma {:induction false} LiftSumsGroups(rec: Recording, n: nat, low: nat, limbs: nat)
    requires GraphValid(rec) && GroupsHold(rec) && low <= n < 64 * limbs
    ensures var (sums, full, lowValue) := LiftSums(rec, n, low, limbs);
      && GroupsHold(sums) && sums.groups == rec.groups && rec.inputs <= sums.inputs
      && Free(sums, Raw(full).node) && Free(sums, Raw(lowValue).node)
  {
    hide GroupsHold, Free, LiftBits, SumTerms, GraphValid;
    var (inputs, lifted) := LiftBits(rec, n, limbs);
    LiftBitsShape(rec, n, limbs);
    LiftBitsGroups(rec, n, limbs);
    SumTermsGroups(inputs, lifted, limbs);
    SumTermsLater(inputs, inputs, lifted, limbs, 0) by { LiftBitsMeaning(rec, n, limbs, 0, n); }
    var (withFull, full) := SumTerms(inputs, lifted, limbs);
    if low < n {
      forall h | 0 <= h < low ensures Free(withFull, Raw(lifted[h]).node) {
        FreeKept(inputs, withFull, Raw(lifted[h]).node);
      }
      SumTermsGroups(withFull, lifted[..low], limbs);
      FreeKept(withFull, SumTerms(withFull, lifted[..low], limbs).0, Raw(full).node);
    }
  }

  lemma {:induction false} LiftGroups(rec: Recording, n: nat, low: nat, limbs: nat, values: seq<Value>)
    requires GraphValid(rec) && GroupsHold(rec) && low <= n < 64 * limbs
    requires AllHandles(rec, values) && FreeHandles(rec, values)
    ensures var (after, full, lowValue) := Lift(rec, n, low, limbs);
      GroupsHold(after) && FreeHandles(after, values + [full, lowValue])
  {
    hide GroupsHold, Free, Lift, LiftSums, LiftBits, InputsOf;
    LiftSumsGroups(rec, n, low, limbs);
    LiftIsSumsAndGroup(rec, n, low, limbs);
    var (sums, full, lowValue) := LiftSums(rec, n, low, limbs);
    var after := Lift(rec, n, low, limbs).0;
    forall h | 0 <= h < |values| ensures Free(sums, Raw(values[h]).node) {
      FreeKept(rec, sums, Raw(values[h]).node);
    }
    if n >= 2 && low != 1 {
      var g := after.groups[|sums.groups|];
      NewGroupHolds(rec, n, low, limbs);
      EarlierGroupsEnd(rec);
      AddGroup(sums, after, g, |rec.inputs|);
      LiftNodes(rec, n, low, limbs);
      forall h | 0 <= h < |values| ensures Free(after, Raw(values[h]).node) {
        assert Owned(rec, values[h]);
        FreeAfterAdd(sums, after, g, Raw(values[h]).node);
      }
      FreeAfterAdd(sums, after, g, Raw(full).node);
      LowOutsideGroup(rec, n, low, limbs);
      FreeAfterAdd(sums, after, g, Raw(lowValue).node);
    }
  }

  lemma {:induction false} EarlierGroupsEnd(rec: Recording)
    requires GroupsHold(rec)
    ensures forall a :: 0 <= a < |rec.groups| ==> rec.groups[a].first + rec.groups[a].len <= |rec.inputs|
  {
    forall a | 0 <= a < |rec.groups| ensures rec.groups[a].first + rec.groups[a].len <= |rec.inputs| {
      assert GroupHolds(rec, rec.groups[a]);
    }
  }

  lemma {:induction false} LowOutsideGroup(rec: Recording, n: nat, low: nat, limbs: nat)
    requires GraphValid(rec) && low <= n < 64 * limbs && n >= 2 && low != 1
    ensures var node := Raw(Lift(rec, n, low, limbs).2).node; node >= |rec.nodes| + n || node < |rec.nodes|
  {
    hide LiftBits, SumTerms;
    LiftNodes(rec, n, low, limbs);
    if low == 0 {
      SumOfBits(SumTerms(LiftBits(rec, n, limbs).0, LiftBits(rec, n, limbs).1, limbs).0, [], 0, limbs);
    }
  }

  // ---------------------------------------------------------------- whole programs

  lemma {:induction false} RootsGroups(rec: Recording, a: Value, b: Value, c: Value)
    requires GroupsHold(rec) && Free(rec, Raw(a).node) && Free(rec, Raw(b).node) && Free(rec, Raw(c).node)
    ensures GroupsHold(AssertRow(rec, a, b, c))
  {
    var after := AssertRow(rec, a, b, c);
    forall k | 0 <= k < |after.groups| ensures GroupHolds(after, after.groups[k]) {
      var g := rec.groups[k];
      assert GroupHolds(rec, g);
      assert FreeOf(rec, g, Raw(a).node) && FreeOf(rec, g, Raw(b).node) && FreeOf(rec, g, Raw(c).node);
      forall i | 0 <= i < g.len ensures BitHolds(after, g, i) { assert BitHolds(rec, g, i); }
    }
  }

  lemma {:induction false} AllFreeKept(rec: Recording, after: Recording, values: seq<Value>)
    requires after.groups == rec.groups && rec.inputs <= after.inputs && GroupsHold(rec) && FreeHandles(rec, values)
    ensures FreeHandles(after, values)
  {
    hide GroupsHold, Free;
    forall h | 0 <= h < |values| ensures Free(after, Raw(values[h]).node) { FreeKept(rec, after, Raw(values[h]).node); }
  }

  lemma {:induction false} StepGroups(rec: Recording, values: seq<Value>, s: Step, bools: nat)
    requires GraphValid(rec) && GroupsHold(rec) && AllHandles(rec, values) && FreeHandles(rec, values)
    requires StepValid(s, bools, |values|) && StepExact(rec, values, s)
    ensures var (after, values') := RecordStep(rec, values, s);
      GroupsHold(after) && FreeHandles(after, values')
  {
    hide GroupsHold, Free, Lift, Plus, InputsOf;
    var (after, values') := RecordStep(rec, values, s);
    match s
    case Xor(_, _) | Fixed(_) | Hint(_) =>
    case Bitz(_) =>
      PushInputGroups(rec);
      AllFreeKept(rec, after, values);
    case BitzUnsigned(bits, low, limbs) =>
      LiftGroups(rec, |bits|, low, limbs, values);
    case Constant(_, _) =>
      ConstantFree(rec);
    case Add(x, y, limbs) =>
      PlusGroups(rec, values[x], values[y], limbs);
      AllFreeKept(rec, after, values);
    case Neg(_, _) | Scale(_, _, _) =>
    case AssertR1c(a, b, c) =>
      RootsGroups(rec, values[a], values[b], values[c]);
      AllFreeKept(rec, after, values);
  }

  /** Every recorded program keeps the inputs of its packed lifts private to their sums. */
  lemma {:induction false} RecordGroups(steps: seq<Step>, inputs: nat)
    requires Valid(steps, inputs) && Exact(steps)
    ensures GroupsHold(Record(steps).0) && FreeHandles(Record(steps).0, Record(steps).1)
    decreases |steps|
  {
    if |steps| > 0 {
      hide GroupsHold, FreeHandles, RecordStep;
      var before := steps[..|steps| - 1];
      RecordGroups(before, inputs);
      RecordAgrees(before, inputs, 0);
      MeaningHandles(before, inputs, 0);
      StepGroups(Record(before).0, Record(before).1, steps[|steps| - 1], Handles(before, inputs).0);
    }
  }
}
