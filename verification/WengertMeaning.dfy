/** Replaying a program into the recorder keeps its meaning, at every column. */
module WengertMeaning {
  import opened Powers
  import opened Circuits
  import opened Wengert

  // ---------------------------------------------------------------- growing graphs

  lemma {:induction false} NodesAppend(nodes: seq<RawNode>, n: RawNode, j: nat)
    ensures NodesAt(nodes + [n], j) == NodesAt(nodes, j)
      + [match n case Input => if InputCount(nodes) == j then 1 else 0 case Sum(terms) => TermsAt(terms, NodesAt(nodes, j))]
  {
    assert (nodes + [n])[..|nodes|] == nodes;
  }

  lemma {:induction false} NodesExtend(a: seq<RawNode>, b: seq<RawNode>, j: nat)
    requires a <= b
    ensures NodesAt(a, j) <= NodesAt(b, j)
    decreases |b|
  {
    if |a| < |b| {
      NodesExtend(a, b[..|b| - 1], j);
    } else {
      assert a == b;
    }
  }

  lemma {:induction false} InputsAppend(nodes: seq<RawNode>, n: RawNode)
    ensures InputsOf(nodes + [n]) == InputsOf(nodes) + if n.Input? then [|nodes|] else []
    ensures InputCount(nodes + [n]) == InputCount(nodes) + if n.Input? then 1 else 0
  {
    assert (nodes + [n])[..|nodes|] == nodes;
  }

  lemma {:induction false} InputsCounted(nodes: seq<RawNode>)
    ensures |InputsOf(nodes)| == InputCount(nodes)
  {
    if |nodes| > 0 { InputsCounted(nodes[..|nodes| - 1]); }
  }

  /** A later recording that keeps everything the handles depend on. */
  ghost predicate Grown(rec: Recording, after: Recording) {
    && rec.nodes <= after.nodes && rec.roots == after.roots && rec.constraints == after.constraints
    && GraphValid(rec) && GraphValid(after)
  }

  /** A handle of the recording: its term refers to a node there. */
  ghost predicate Owned(rec: Recording, v: Value) {
    Raw(v).node < |rec.nodes| && (v.location.OnNode? ==> v.location.node > 0)
  }

  ghost function ValueAt(rec: Recording, v: Value, j: nat): int {
    TermAt(Raw(v), NodesAt(rec.nodes, j))
  }

  lemma {:induction false} OwnedKept(rec: Recording, after: Recording, v: Value, j: nat)
    requires rec.nodes <= after.nodes && Owned(rec, v)
    ensures Owned(after, v) && ValueAt(after, v, j) == ValueAt(rec, v, j)
  {
    NodesExtend(rec.nodes, after.nodes, j);
  }

  // ---------------------------------------------------------------- the operations

  lemma {:induction false} PushInputGrows(rec: Recording)
    requires GraphValid(rec)
    ensures Grown(rec, PushInput(rec))
  {
    InputsAppend(rec.nodes, Input);
    forall i | 0 <= i < |rec.roots| ensures RootValid(PushInput(rec), i) { assert RootValid(rec, i); }
  }

  lemma {:induction false} PushInputMeaning(rec: Recording, j: nat)
    requires GraphValid(rec)
    ensures ValueAt(PushInput(rec), Value(OnNode(|rec.nodes|), 1), j) == Lifted(j, |rec.inputs|, 1)
  {
    NodesAppend(rec.nodes, Input, j);
    InputsCounted(rec.nodes);
  }

  lemma {:induction false} PushSumGrows(rec: Recording, terms: seq<RawTerm>)
    requires GraphValid(rec) && Below(terms, |rec.nodes|)
    ensures Grown(rec, PushSum(rec, terms))
  {
    InputsAppend(rec.nodes, Sum(terms));
    forall i | 0 <= i < |rec.roots| ensures RootValid(PushSum(rec, terms), i) { assert RootValid(rec, i); }
  }

  lemma {:induction false} PushSumMeaning(rec: Recording, terms: seq<RawTerm>, j: nat)
    requires GraphValid(rec)
    ensures ValueAt(PushSum(rec, terms), Value(OnNode(|rec.nodes|), 1), j) == TermsAt(terms, NodesAt(rec.nodes, j))
  {
    NodesAppend(rec.nodes, Sum(terms), j);
  }

  lemma {:induction false} OneIsOne(limbs: nat)
    requires limbs > 0
    ensures One(limbs) == 1
  {
    assert Pow2(64 * limbs) == 2 * Pow2(64 * limbs - 1) && Pow2(64 * limbs - 1) == 2 * Pow2(64 * limbs - 2);
    WrapFits(limbs, 1);
  }

  lemma {:induction false} TwoTerms(x: RawTerm, y: RawTerm, v: seq<int>)
    ensures TermsAt([x, y], v) == TermAt(x, v) + TermAt(y, v)
  {
    assert [x, y][..1] == [x] && [x][..0] == [];
    assert TermsAt([x], v) == TermsAt([], v) + TermAt(x, v);
  }

  lemma {:induction false} PlusMeaning(rec: Recording, x: Value, y: Value, limbs: nat, j: nat)
    requires GraphValid(rec) && Owned(rec, x) && Owned(rec, y) && limbs > 0
    requires Meets(x, y) ==> Fits(limbs, x.coefficient + y.coefficient)
    ensures var (after, sum) := Plus(rec, x, y, limbs);
      Grown(rec, after) && Owned(after, sum) && ValueAt(after, sum, j) == ValueAt(rec, x, j) + ValueAt(rec, y, j)
  {
    hide NodesAt, TermsAt, GraphValid;
    OneIsOne(limbs);
    if x.coefficient == 0 || y.coefficient == 0 {
    } else if x.location == y.location {
      WrapFits(limbs, x.coefficient + y.coefficient);
      SumTimes(x.coefficient, y.coefficient, At(NodesAt(rec.nodes, j), Raw(x).node));
    } else {
      PushSumGrows(rec, [Raw(x), Raw(y)]);
      PushSumMeaning(rec, [Raw(x), Raw(y)], j);
      TwoTerms(Raw(x), Raw(y), NodesAt(rec.nodes, j));
    }
  }

  lemma {:induction false} SumTimes(a: int, b: int, v: int)
    ensures (a + b) * v == a * v + b * v
  {
  }

  // ---------------------------------------------------------------- sums of handles

  lemma {:induction false} NonZeroMeaning(terms: seq<Value>, v: seq<int>)
    ensures TermsAt(Raws(NonZero(terms)), v) == TermsAt(Raws(terms), v)
  {
    if |terms| > 0 {
      var before, last := terms[..|terms| - 1], terms[|terms| - 1];
      NonZeroMeaning(before, v);
      assert Raws(terms)[..|terms| - 1] == Raws(before);
      assert TermsAt(Raws(terms), v) == TermsAt(Raws(before), v) + TermAt(Raw(last), v);
      if last.coefficient != 0 {
        assert Raws(NonZero(terms))[..|NonZero(before)|] == Raws(NonZero(before));
      } else {
        assert NonZero(terms) == NonZero(before);
      }
    }
  }

  ghost predicate AllOwned(rec: Recording, terms: seq<Value>) {
    forall i :: 0 <= i < |terms| ==> Owned(rec, terms[i])
  }

  lemma {:induction false} NonZeroOwned(rec: Recording, terms: seq<Value>)
    requires AllOwned(rec, terms)
    ensures AllOwned(rec, NonZero(terms))
  {
    if |terms| > 0 {
      NonZeroOwned(rec, terms[..|terms| - 1]);
    }
  }

  lemma {:induction false} SumTermsMeaning(rec: Recording, terms: seq<Value>, limbs: nat, j: nat)
    requires GraphValid(rec) && AllOwned(rec, terms) && limbs > 0
    ensures var (after, sum) := SumTerms(rec, terms, limbs);
      && Grown(rec, after) && Owned(after, sum)
      && ValueAt(after, sum, j) == TermsAt(Raws(terms), NodesAt(rec.nodes, j))
  {
    hide NodesAt;
    var v, kept := NodesAt(rec.nodes, j), NonZero(terms);
    OneIsOne(limbs);
    NonZeroOwned(rec, terms);
    NonZeroMeaning(terms, v);
    if |kept| == 1 {
      assert Raws(kept)[..0] == [];
    } else if |kept| > 1 {
      PushSumGrows(rec, Raws(kept));
      PushSumMeaning(rec, Raws(kept), j);
    }
  }

  // ---------------------------------------------------------------- packed lifts

  lemma {:induction false} PowerWordIs(i: nat, limbs: nat)
    requires i + 1 < 64 * limbs
    ensures PowerWord(i, limbs) == Pow2(i) && Wrap(limbs, One(limbs) * PowerWord(i, limbs)) == Pow2(i)
  {
    OneIsOne(limbs);
    Pow2Monotone(i + 1, 64 * limbs - 1);
    assert Pow2(64 * limbs) == 2 * Pow2(64 * limbs - 1);
    WrapFits(limbs, Pow2(i));
    if i > 0 {
      PowerWordIs(i - 1, limbs);
    }
  }

  /** The inputs of a lift, in order, each scaled by its power of two. */
  ghost predicate IsLift(rec: Recording, after: Recording, lifted: seq<Value>, n: nat) {
    && |lifted| == n && |after.nodes| == |rec.nodes| + n && |after.inputs| == |rec.inputs| + n
    && after.groups == rec.groups
    && (forall i :: 0 <= i < n ==> lifted[i] == Value(OnNode(|rec.nodes| + i), Pow2(i)))
    && (forall t :: |rec.nodes| <= t < |after.nodes| ==> after.nodes[t].Input?)
    && (forall c :: |rec.inputs| <= c < |after.inputs| ==> after.inputs[c] == |rec.nodes| + (c - |rec.inputs|))
  }

  lemma {:induction false} LiftBitsStep(rec: Recording, before: Recording, lifted: seq<Value>, n: nat)
    requires GraphValid(rec) && Grown(rec, before) && rec.inputs <= before.inputs && IsLift(rec, before, lifted, n)
    ensures var after := PushInput(before);
      Grown(rec, after) && rec.inputs <= after.inputs
      && IsLift(rec, after, lifted + [Value(OnNode(|before.nodes|), Pow2(n))], n + 1)
  {
    PushInputGrows(before);
    hide GraphValid, Pow2;
  }

  lemma {:induction false} LiftBitsShape(rec: Recording, n: nat, limbs: nat)
    requires GraphValid(rec) && n < 64 * limbs
    ensures var (after, lifted) := LiftBits(rec, n, limbs);
      Grown(rec, after) && rec.inputs <= after.inputs && IsLift(rec, after, lifted, n)
    decreases n
  {
    hide GraphValid, Pow2, Wrap;
    if n > 0 {
      hide IsLift;
      var (before, lifted) := LiftBits(rec, n - 1, limbs);
      LiftBitsShape(rec, n - 1, limbs);
      PowerWordIs(n - 1, limbs);
      LiftBitsStep(rec, before, lifted, n - 1);
    }
  }

  lemma {:induction false} LiftBitsUnfold(rec: Recording, n: nat, limbs: nat)
    requires n > 0
    ensures LiftBits(rec, n, limbs).0 == PushInput(LiftBits(rec, n - 1, limbs).0)
  {
  }

  /** Bit `i` of a lift is the integer column `i` places after the first. */
  lemma {:induction false} LiftedInput(rec: Recording, n: nat, limbs: nat, j: nat, i: nat)
    requires GraphValid(rec) && n < 64 * limbs && i < n
    ensures var after := LiftBits(rec, n, limbs).0;
      At(NodesAt(after.nodes, j), |rec.nodes| + i) == if j == |rec.inputs| + i then 1 else 0
    decreases n
  {
    hide LiftBits, NodesAt, InputsOf;
    var before := LiftBits(rec, n - 1, limbs).0;
    LiftBitsUnfold(rec, n, limbs);
    LiftBitsShape(rec, n - 1, limbs);
    NodesAppend(before.nodes, Input, j);
    if i < n - 1 {
      LiftedInput(rec, n - 1, limbs, j, i);
    } else {
      InputsCounted(before.nodes);
    }
  }

  lemma {:induction false} NoTerms(terms: seq<Value>, v: seq<int>)
    ensures TermsAt(Raws(terms[..0]), v) == 0
  {
  }

  lemma {:induction false} NextTerm(terms: seq<Value>, k: nat, v: seq<int>)
    requires k < |terms|
    ensures TermsAt(Raws(terms[..k + 1]), v) == TermsAt(Raws(terms[..k]), v) + TermAt(Raw(terms[k]), v)
  {
    assert Raws(terms[..k + 1])[..k] == Raws(terms[..k]);
  }

  lemma {:induction false} LiftBitsMeaning(rec: Recording, n: nat, limbs: nat, j: nat, k: nat)
    requires GraphValid(rec) && n < 64 * limbs && k <= n
    ensures var (after, lifted) := LiftBits(rec, n, limbs);
      |lifted| == n && AllOwned(after, lifted)
      && TermsAt(Raws(lifted[..k]), NodesAt(after.nodes, j)) == Lifted(j, |rec.inputs|, k)
    decreases k
  {
    hide LiftBits, NodesAt, Pow2, TermsAt;
    var (after, lifted) := LiftBits(rec, n, limbs);
    LiftBitsShape(rec, n, limbs);
    if k == 0 {
      NoTerms(lifted, NodesAt(after.nodes, j));
    } else {
      LiftBitsMeaning(rec, n, limbs, j, k - 1);
      NextTerm(lifted, k - 1, NodesAt(after.nodes, j));
      LiftedInput(rec, n, limbs, j, k - 1);
    }
  }

  lemma {:induction false} TermsKept(terms: seq<RawTerm>, v: seq<int>, w: seq<int>)
    requires v <= w && Below(terms, |v|)
    ensures TermsAt(terms, v) == TermsAt(terms, w)
  {
    if |terms| > 0 {
      TermsKept(terms[..|terms| - 1], v, w);
    }
  }

  /** A sum over handles of an earlier recording. */
  lemma {:induction false} SumTermsLater(rec: Recording, later: Recording, terms: seq<Value>, limbs: nat, j: nat)
    requires Grown(rec, later) && AllOwned(rec, terms) && limbs > 0
    ensures var (after, sum) := SumTerms(later, terms, limbs);
      && Grown(later, after) && Owned(after, sum) && after.inputs == later.inputs && after.groups == later.groups
      && ValueAt(after, sum, j) == TermsAt(Raws(terms), NodesAt(rec.nodes, j))
  {
    hide NodesAt, TermsAt, GraphValid;
    assert AllOwned(later, terms);
    SumTermsMeaning(later, terms, limbs, j);
    NodesExtend(rec.nodes, later.nodes, j);
    TermsKept(Raws(terms), NodesAt(rec.nodes, j), NodesAt(later.nodes, j));
  }

  /** Groups describe the graph without changing it. */
  lemma {:induction false} GroupsAside(rec: Recording, later: Recording, groups: seq<RawPowerGroup>)
    requires Grown(rec, later)
    ensures Grown(rec, later.(groups := groups))
  {
    hide InputsOf;
    var after := later.(groups := groups);
    forall i | 0 <= i < |after.roots| ensures RootValid(after, i) { assert RootValid(later, i); }
  }

  lemma {:induction false} LiftMeaning(rec: Recording, n: nat, low: nat, limbs: nat, j: nat)
    requires GraphValid(rec) && low <= n < 64 * limbs
    ensures var (after, full, lowValue) := Lift(rec, n, low, limbs);
      && Grown(rec, after) && |after.inputs| == |rec.inputs| + n && Owned(after, full) && Owned(after, lowValue)
      && ValueAt(after, full, j) == Lifted(j, |rec.inputs|, n)
      && ValueAt(after, lowValue, j) == Lifted(j, |rec.inputs|, low)
  {
    hide LiftBits, NodesAt, TermsAt, GraphValid, SumTerms, Raws;
    var (inputs, lifted) := LiftBits(rec, n, limbs);
    LiftBitsShape(rec, n, limbs);
    LiftBitsMeaning(rec, n, limbs, j, n);
    LiftBitsMeaning(rec, n, limbs, j, low);
    assert lifted[..n] == lifted;
    SumTermsLater(inputs, inputs, lifted, limbs, j);
    var (withFull, full) := SumTerms(inputs, lifted, limbs);
    if low < n {
      SumTermsLater(inputs, withFull, lifted[..low], limbs, j);
      var (withLow, lowValue) := SumTerms(withFull, lifted[..low], limbs);
      OwnedKept(withFull, withLow, full, j);
      GroupsAside(rec, withLow, Lift(rec, n, low, limbs).0.groups);
    } else {
      GroupsAside(rec, withFull, Lift(rec, n, low, limbs).0.groups);
    }
  }

  // ---------------------------------------------------------------- whole programs

  ghost predicate AllHandles(rec: Recording, values: seq<Value>) {
    forall h :: 0 <= h < |values| ==> Owned(rec, values[h])
  }

  /** The recording agrees with the program's meaning at one column. */
  ghost predicate Agrees(rec: Recording, values: seq<Value>, m: Meaning, j: nat) {
    && GraphValid(rec) && AllHandles(rec, values)
    && m.columns == |rec.inputs| && |m.values| == |values| && |m.rows| == rec.constraints
    && (forall h :: 0 <= h < |values| ==> ValueAt(rec, values[h], j) == m.values[h])
    && (forall i :: 0 <= i < rec.constraints ==> RowAgrees(rec, m, j, i))
  }

  ghost predicate RowAgrees(rec: Recording, m: Meaning, j: nat, i: nat)
    requires i < |m.rows| && |rec.roots| == 3 * |m.rows|
  {
    var v := NodesAt(rec.nodes, j);
    m.rows[i] == (TermAt(rec.roots[3 * i].term, v), TermAt(rec.roots[3 * i + 1].term, v), TermAt(rec.roots[3 * i + 2].term, v))
  }

  /** Growing the graph disturbs no handle and no row. */
  lemma {:induction false} AgreesKept(rec: Recording, after: Recording, values: seq<Value>, m: Meaning, j: nat)
    requires Agrees(rec, values, m, j) && Grown(rec, after)
    ensures Agrees(after, values, m.(columns := |after.inputs|), j)
  {
    var m' := m.(columns := |after.inputs|);
    forall h | 0 <= h < |values| ensures Owned(after, values[h]) && ValueAt(after, values[h], j) == m.values[h] {
      OwnedKept(rec, after, values[h], j);
    }
    NodesExtend(rec.nodes, after.nodes, j);
    forall i | 0 <= i < rec.constraints ensures RowAgrees(after, m', j, i) {
      assert RowAgrees(rec, m, j, i);
      assert RootValid(rec, 3 * i) && RootValid(rec, 3 * i + 1) && RootValid(rec, 3 * i + 2);
    }
  }

  lemma {:induction false} AgreesPush(rec: Recording, values: seq<Value>, m: Meaning, j: nat, v: Value, value: int)
    requires Agrees(rec, values, m, j) && Owned(rec, v) && ValueAt(rec, v, j) == value
    ensures Agrees(rec, values + [v], m.(values := m.values + [value]), j)
  {
    hide NodesAt, InputsOf;
    forall i | 0 <= i < rec.constraints ensures RowAgrees(rec, m.(values := m.values + [value]), j, i) {
      assert RowAgrees(rec, m, j, i);
    }
  }

  lemma {:induction false} AssertMeaning(rec: Recording, values: seq<Value>, m: Meaning, j: nat, a: nat, b: nat, c: nat)
    requires Agrees(rec, values, m, j) && a < |values| && b < |values| && c < |values|
    ensures Agrees(AssertRow(rec, values[a], values[b], values[c]), values,
      m.(rows := m.rows + [(m.values[a], m.values[b], m.values[c])]), j)
  {
    var after := AssertRow(rec, values[a], values[b], values[c]);
    var m' := m.(rows := m.rows + [(m.values[a], m.values[b], m.values[c])]);
    var n := |rec.roots|;
    assert n / 3 == rec.constraints && (n + 1) / 3 == rec.constraints && (n + 2) / 3 == rec.constraints;
    forall i | 0 <= i < |after.roots| ensures RootValid(after, i) {
      if i < n { assert RootValid(rec, i); }
    }
    forall i | 0 <= i < after.constraints ensures RowAgrees(after, m', j, i) {
      if i < rec.constraints { assert RowAgrees(rec, m, j, i); }
    }
    forall h | 0 <= h < |values| ensures Owned(after, values[h]) && ValueAt(after, values[h], j) == m.values[h] {
      assert Owned(rec, values[h]);
    }
  }

  lemma {:induction false} Negation(c: int, v: int)
    ensures (-c) * v == -(c * v)
  {
  }

  lemma {:induction false} Scaling(c: int, k: int, v: int)
    ensures (c * k) * v == (c * v) * k
  {
  }

  lemma {:induction false} ConstantMeaning(rec: Recording, value: int, j: nat)
    requires GraphValid(rec)
    ensures Owned(rec, Value(OnConstant, value))
    ensures ValueAt(rec, Value(OnConstant, value), j) == if j == 0 then value else 0
  {
    assert rec.nodes[..1] == [Input] && [Input] <= rec.nodes;
    NodesExtend([Input], rec.nodes, j);
    assert NodesAt([Input], j) == NodesAt([], j) + [if InputCount([]) == j then 1 else 0] by { NodesAppend([], Input, j); }
  }

  lemma {:induction false} LiftAgrees(rec: Recording, values: seq<Value>, m: Meaning, n: nat, low: nat, limbs: nat, j: nat)
    requires Agrees(rec, values, m, j) && low <= n < 64 * limbs
    ensures var (after, full, lowValue) := Lift(rec, n, low, limbs);
      Agrees(after, values + [full, lowValue],
        m.(values := m.values + [Lifted(j, m.columns, n), Lifted(j, m.columns, low)], columns := m.columns + n), j)
  {
    hide Agrees, Lifted, Lift;
    AgreedHandles(rec, values, m, j);
    LiftMeaning(rec, n, low, limbs, j);
    var (after, full, lowValue) := Lift(rec, n, low, limbs);
    AgreesKept(rec, after, values, m, j);
    var m' := m.(columns := m.columns + n);
    AgreesPush(after, values, m', j, full, Lifted(j, m.columns, n));
    AgreesPush(after, values + [full], m'.(values := m'.values + [Lifted(j, m.columns, n)]), j, lowValue, Lifted(j, m.columns, low));
    assert values + [full] + [lowValue] == values + [full, lowValue];
    assert m.values + [Lifted(j, m.columns, n)] + [Lifted(j, m.columns, low)]
      == m.values + [Lifted(j, m.columns, n), Lifted(j, m.columns, low)];
  }

  lemma {:induction false} AddAgrees(rec: Recording, values: seq<Value>, m: Meaning, x: nat, y: nat, limbs: nat, j: nat)
    requires Agrees(rec, values, m, j) && x < |values| == |m.values| && y < |values| && limbs > 0
    requires Meets(values[x], values[y]) ==> Fits(limbs, values[x].coefficient + values[y].coefficient)
    ensures var (after, sum) := Plus(rec, values[x], values[y], limbs);
      Agrees(after, values + [sum], m.(values := m.values + [m.values[x] + m.values[y]]), j)
  {
    hide Agrees, Plus;
    AgreedHandles(rec, values, m, j);
    PlusMeaning(rec, values[x], values[y], limbs, j);
    var (after, sum) := Plus(rec, values[x], values[y], limbs);
    PlusColumns(rec, values[x], values[y], limbs);
    AgreesKept(rec, after, values, m, j);
    AgreesPush(after, values, m, j, sum, m.values[x] + m.values[y]);
  }

  /** The handle at the same place with another coefficient. */
  lemma {:induction false} FactorAgrees(
    rec: Recording, values: seq<Value>, m: Meaning, x: nat, coefficient: int, value: int, j: nat
  )
    requires Agrees(rec, values, m, j) && x < |values| == |m.values|
    requires coefficient * At(NodesAt(rec.nodes, j), Raw(values[x]).node) == value
    ensures Agrees(rec, values + [values[x].(coefficient := coefficient)], m.(values := m.values + [value]), j)
  {
    hide Agrees, NodesAt;
    AgreedHandles(rec, values, m, j);
    AgreesPush(rec, values, m, j, values[x].(coefficient := coefficient), value);
  }

  lemma {:induction false} StepAgrees(rec: Recording, values: seq<Value>, m: Meaning, s: Step, bools: nat, j: nat)
    requires Agrees(rec, values, m, j) && StepValid(s, bools, |values|) && StepExact(rec, values, s)
    ensures var (after, values') := RecordStep(rec, values, s);
      Agrees(after, values', After(m, s, j), j)
  {
    hide Agrees, Lifted, Lift, Plus;
    AgreedHandles(rec, values, m, j);
    match s
    case Xor(_, _) | Fixed(_) | Hint(_) =>
    case Bitz(_) => BitAgrees(rec, values, m, s, j);
    case BitzUnsigned(bits, low, limbs) =>
      LiftAgrees(rec, values, m, |bits|, low, limbs, j);
    case Constant(value, limbs) =>
      WrapFits(limbs, value);
      ConstantMeaning(rec, value, j);
      AgreesPush(rec, values, m, j, Value(OnConstant, value), if j == 0 then value else 0);
    case Add(x, y, limbs) => AddAgrees(rec, values, m, x, y, limbs, j);
    case Neg(_, _) | Scale(_, _, _) => MultipleAgrees(rec, values, m, s, bools, j);
    case AssertR1c(a, b, c) =>
      AssertMeaning(rec, values, m, j, a, b, c);
  }

  lemma {:induction false} BitAgrees(rec: Recording, values: seq<Value>, m: Meaning, s: Step, j: nat)
    requires Agrees(rec, values, m, j) && s.Bitz?
    ensures var (after, values') := RecordStep(rec, values, s);
      Agrees(after, values', After(m, s, j), j)
  {
    AgreedHandles(rec, values, m, j);
    hide Agrees, Lifted;
    var (after, values') := RecordStep(rec, values, s);
    PushInputGrows(rec);
    PushInputMeaning(rec, j);
    AgreesKept(rec, after, values, m, j);
    AgreesPush(after, values, m.(columns := m.columns + 1), j, Value(OnNode(|rec.nodes|), 1), Lifted(j, m.columns, 1));
  }

  lemma {:induction false} MultipleAgrees(rec: Recording, values: seq<Value>, m: Meaning, s: Step, bools: nat, j: nat)
    requires Agrees(rec, values, m, j) && StepValid(s, bools, |values|) && StepExact(rec, values, s)
    requires s.Neg? || s.Scale?
    ensures var (after, values') := RecordStep(rec, values, s);
      Agrees(after, values', After(m, s, j), j)
  {
    hide Agrees;
    AgreedHandles(rec, values, m, j);
    match s
    case Neg(x, limbs) =>
      var v := values[x];
      WrapFits(limbs, -v.coefficient);
      Negation(v.coefficient, At(NodesAt(rec.nodes, j), Raw(v).node));
      FactorAgrees(rec, values, m, x, -v.coefficient, -m.values[x], j);
    case Scale(x, factor, limbs) =>
      var v := values[x];
      WrapFits(limbs, v.coefficient * factor);
      Scaling(v.coefficient, factor, At(NodesAt(rec.nodes, j), Raw(v).node));
      FactorAgrees(rec, values, m, x, v.coefficient * factor, m.values[x] * factor, j);
  }

  /** From handles that mean what they should, scaling keeps the meaning at a column exactly when the
      coefficient fits its width or the handle's node is zero there. */
  lemma {:induction false} ScaleKeepsMeaning(
    rec: Recording, values: seq<Value>, m: Meaning, x: nat, factor: int, limbs: nat, j: nat
  )
    requires Agrees(rec, values, m, j) && x < |values| == |m.values| && limbs > 0
    ensures var (after, values') := RecordStep(rec, values, Scale(x, factor, limbs));
      var kept := StepExact(rec, values, Scale(x, factor, limbs)) || At(NodesAt(rec.nodes, j), Raw(values[x]).node) == 0;
      ValueAt(after, values'[|values|], j) == m.values[x] * factor <==> kept
  {
    AgreedHandles(rec, values, m, j);
    hide Agrees, Wrap, Fits, NodesAt;
    var c, node := values[x].coefficient, At(NodesAt(rec.nodes, j), Raw(values[x]).node);
    WrapKeeps(limbs, c * factor);
    Scaling(c, factor, node);
    SameProduct(Wrap(limbs, c * factor), c * factor, node);
  }

  /** The same for negations. */
  lemma {:induction false} NegKeepsMeaning(rec: Recording, values: seq<Value>, m: Meaning, x: nat, limbs: nat, j: nat)
    requires Agrees(rec, values, m, j) && x < |values| == |m.values| && limbs > 0
    ensures var (after, values') := RecordStep(rec, values, Neg(x, limbs));
      var kept := StepExact(rec, values, Neg(x, limbs)) || At(NodesAt(rec.nodes, j), Raw(values[x]).node) == 0;
      ValueAt(after, values'[|values|], j) == -m.values[x] <==> kept
  {
    AgreedHandles(rec, values, m, j);
    hide Agrees, Wrap, Fits, NodesAt;
    var c, node := values[x].coefficient, At(NodesAt(rec.nodes, j), Raw(values[x]).node);
    WrapKeeps(limbs, -c);
    Negation(c, node);
    SameProduct(Wrap(limbs, -c), -c, node);
  }

  /** A constant means itself if and only if it fits. */
  lemma {:induction false} ConstantKeepsMeaning(rec: Recording, values: seq<Value>, value: int, limbs: nat)
    requires GraphValid(rec) && limbs > 0
    ensures var (after, values') := RecordStep(rec, values, Constant(value, limbs));
      ValueAt(after, values'[|values|], 0) == value <==> StepExact(rec, values, Constant(value, limbs))
  {
    ConstantMeaning(rec, Wrap(limbs, value), 0);
    WrapKeeps(limbs, value);
    hide Wrap, Fits, NodesAt, GraphValid;
  }

  /** A sum keeps the meaning unless it adds two coefficients on one node and the result does not fit. */
  lemma {:induction false} AddKeepsMeaning(rec: Recording, values: seq<Value>, m: Meaning, x: nat, y: nat, limbs: nat, j: nat)
    requires Agrees(rec, values, m, j) && x < |values| == |m.values| && y < |values| && limbs > 0
    ensures var (after, values') := RecordStep(rec, values, Add(x, y, limbs));
      var kept := StepExact(rec, values, Add(x, y, limbs)) || At(NodesAt(rec.nodes, j), Raw(values[x]).node) == 0;
      ValueAt(after, values'[|values|], j) == m.values[x] + m.values[y] <==> kept
  {
    AgreedHandles(rec, values, m, j);
    if StepExact(rec, values, Add(x, y, limbs)) {
      hide Agrees, Plus;
      PlusMeaning(rec, values[x], values[y], limbs, j);
    } else {
      hide Agrees, Wrap, Fits, NodesAt;
      var a, b, node := values[x].coefficient, values[y].coefficient, At(NodesAt(rec.nodes, j), Raw(values[x]).node);
      WrapKeeps(limbs, a + b);
      SumTimes(a, b, node);
      SameProduct(Wrap(limbs, a + b), a + b, node);
    }
  }

  /** The coefficient of bit `i` of a lift is its power of two if and only if that fits. */
  lemma {:induction false} LiftKeepsPower(i: nat, limbs: nat)
    requires limbs > 0
    ensures Wrap(limbs, One(limbs) * PowerWord(i, limbs)) == Pow2(i) <==> i + 1 < 64 * limbs
  {
    if i + 1 < 64 * limbs {
      PowerWordIs(i, limbs);
    } else {
      WrapInRange(limbs, One(limbs) * PowerWord(i, limbs));
      Pow2Monotone(64 * limbs - 1, i);
      assert Pow2(64 * limbs) == 2 * Pow2(64 * limbs - 1);
    }
  }

  lemma {:induction false} SameProduct(a: int, b: int, v: int)
    ensures a * v == b * v <==> a == b || v == 0
  {
    assert a * v - b * v == (a - b) * v;
    if a != b && v != 0 { assert (a - b) * v != 0 by { NonzeroProduct(a - b, v); } }
  }

  lemma {:induction false} NonzeroProduct(x: int, y: int)
    requires x != 0 && y != 0
    ensures x * y != 0
  {
  }

  /** A program whose recording does not mean what the program does: twice `2^62` in one signed limb. */
  lemma {:induction false} WrappedProgram()
    ensures var steps := [Constant(0x4000_0000_0000_0000, 1), Scale(0, 2, 1)];
      && Valid(steps, 0) && !Exact(steps)
      && |Record(steps).1| == |MeaningAt(steps, 0).values| == 2
      && Record(steps).1[1].coefficient == -0x8000_0000_0000_0000 && MeaningAt(steps, 0).values[1] == 0x8000_0000_0000_0000
  {
    var first := Constant(0x4000_0000_0000_0000, 1);
    assert [first, Scale(0, 2, 1)] == [] + [first] + [Scale(0, 2, 1)];
    OneMoreStep([], first, 0);
    OneMoreStep([first], Scale(0, 2, 1), 0);
    OneLimb();
    hide Pow2;
    assert [] + [first] == [first];
    assert Record([]) == (EMPTY, []) && MeaningAt([], 0) == Meaning([], 1, []) && Valid([], 0);
    hide Record, MeaningAt, Valid, Exact;
    assert Wrap(1, 0x4000_0000_0000_0000) == 0x4000_0000_0000_0000;
    assert Wrap(1, 0x8000_0000_0000_0000) == -0x8000_0000_0000_0000;
  }

  lemma {:induction false} OneMoreStep(before: seq<Step>, s: Step, inputs: nat)
    ensures Record(before + [s]) == RecordStep(Record(before).0, Record(before).1, s)
    ensures MeaningAt(before + [s], 0) == After(MeaningAt(before, 0), s, 0)
    ensures Exact(before + [s]) <==> Exact(before) && StepExact(Record(before).0, Record(before).1, s)
    ensures Valid(before + [s], inputs) <==>
      Valid(before, inputs) && StepValid(s, Handles(before, inputs).0, Handles(before, inputs).1)
  {
    assert (before + [s])[..|before|] == before;
  }

  lemma {:induction false} OneLimb()
    ensures Pow2(64 * 1) == 0x1_0000_0000_0000_0000
  {
    EightBits();
    hide Pow2;
    Pow2Sum(8, 8);
    Pow2Sum(16, 16);
    Pow2Sum(32, 32);
  }

  lemma {:induction false} EightBits()
    ensures Pow2(8) == 256
  {
    assert Pow2(4) == 16;
  }

  lemma {:induction false} AgreedHandles(rec: Recording, values: seq<Value>, m: Meaning, j: nat)
    requires Agrees(rec, values, m, j)
    ensures GraphValid(rec) && m.columns == |rec.inputs| && |m.values| == |values|
    ensures forall h :: 0 <= h < |values| ==> Owned(rec, values[h]) && ValueAt(rec, values[h], j) == m.values[h]
  {
  }

  lemma {:induction false} PlusColumns(rec: Recording, x: Value, y: Value, limbs: nat)
    ensures Plus(rec, x, y, limbs).0.inputs == rec.inputs
  {
  }

  /** The recording of every valid program whose coefficients do not wrap agrees with its meaning. */
  lemma {:induction false} RecordAgrees(steps: seq<Step>, inputs: nat, j: nat)
    requires Valid(steps, inputs) && Exact(steps)
    ensures Agrees(Record(steps).0, Record(steps).1, MeaningAt(steps, j), j)
    decreases |steps|
  {
    if |steps| == 0 {
      assert [Input][..0] == [];
      assert InputsOf([Input]) == InputsOf([]) + [0];
    } else {
      var before := steps[..|steps| - 1];
      RecordAgrees(before, inputs, j);
      MeaningHandles(before, inputs, j);
      StepAgrees(Record(before).0, Record(before).1, MeaningAt(before, j), steps[|steps| - 1], Handles(before, inputs).0, j);
    }
  }
}
