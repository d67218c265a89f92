/** The recorder of the arithmetic tape: what replaying a program leaves behind, as values. */
module Wengert {
  import opened Wrappers
  import opened Circuits

  datatype RawTerm = RawTerm(node: nat, coefficient: int)

  datatype RawNode = Input | Sum(terms: seq<RawTerm>)

  datatype Kind = A | B | C

  datatype RawRoot = RawRoot(row: nat, kind: Kind, term: RawTerm)

  /** A packed lift of `len` columns; the low part is absent when it is empty or the whole lift. */
  datatype RawPowerGroup = RawPowerGroup(first: nat, len: nat, lowLen: nat, full: nat, low: Option<nat>)

  datatype Recording = Recording(nodes: seq<RawNode>, inputs: seq<nat>, roots: seq<RawRoot>,
    groups: seq<RawPowerGroup>, constraints: nat)

  datatype Location = OnConstant | OnNode(node: nat)

  /** A scaled handle. */
  datatype Value = Value(location: Location, coefficient: int)

  function Raw(v: Value): RawTerm {
    RawTerm(if v.location.OnNode? then v.location.node else 0, v.coefficient)
  }

  const EMPTY := Recording([Input], [0], [], [], 0)

  function PushInput(rec: Recording): Recording {
    rec.(nodes := rec.nodes + [Input], inputs := rec.inputs + [|rec.nodes|])
  }

  function PushSum(rec: Recording, terms: seq<RawTerm>): Recording {
    rec.(nodes := rec.nodes + [Sum(terms)])
  }

  function One(limbs: nat): int {
    Wrap(limbs, 1)
  }

  /** The sum of two handles: no node when one is zero, or when both sit on the same node. */
  function Plus(rec: Recording, x: Value, y: Value, limbs: nat): (Recording, Value) {
    if x.coefficient == 0 then (rec, y)
    else if y.coefficient == 0 then (rec, x)
    else if x.location == y.location then
      (rec, Value(x.location, Wrap(limbs, x.coefficient + y.coefficient)))
    else (PushSum(rec, [Raw(x), Raw(y)]), Value(OnNode(|rec.nodes|), One(limbs)))
  }

  function NonZero(terms: seq<Value>): seq<Value> {
    if |terms| == 0 then []
    else NonZero(terms[..|terms| - 1]) + if terms[|terms| - 1].coefficient == 0 then [] else [terms[|terms| - 1]]
  }

  function Raws(terms: seq<Value>): (r: seq<RawTerm>)
    ensures |r| == |terms| && forall i :: 0 <= i < |terms| ==> r[i] == Raw(terms[i])
  {
    seq(|terms|, i requires 0 <= i < |terms| => Raw(terms[i]))
  }

  /** Zero and one terms need no node. */
  function SumTerms(rec: Recording, terms: seq<Value>, limbs: nat): (Recording, Value) {
    var kept := NonZero(terms);
    if |kept| == 0 then (rec, Value(OnConstant, 0))
    else if |kept| == 1 then (rec, kept[0])
    else (PushSum(rec, Raws(kept)), Value(OnNode(|rec.nodes|), One(limbs)))
  }

  /** `2^i` as the words keep it, by repeated doubling. */
  function PowerWord(i: nat, limbs: nat): int {
    if i == 0 then One(limbs) else Wrap(limbs, PowerWord(i - 1, limbs) + PowerWord(i - 1, limbs))
  }

  /** One input per bit, scaled by its power of two. */
  function LiftBits(rec: Recording, n: nat, limbs: nat): (Recording, seq<Value>) {
    if n == 0 then (rec, [])
    else
      var (before, lifted) := LiftBits(rec, n - 1, limbs);
      (PushInput(before),
       lifted + [Value(OnNode(|before.nodes|), Wrap(limbs, One(limbs) * PowerWord(n - 1, limbs)))])
  }

  function Lift(rec: Recording, n: nat, low: nat, limbs: nat): (r: (Recording, Value, Value))
  {
    var first := |rec.inputs|;
    var (inputs, lifted) := LiftBits(rec, n, limbs);
    var (withFull, full) := SumTerms(inputs, lifted, limbs);
    var (withLow, lowValue) :=
      if low == n then (withFull, full)
      else SumTerms(withFull, if low <= |lifted| then lifted[..low] else lifted, limbs);
    if n >= 2 && low != 1 then
      var lowPart := if low == 0 || low == n then None else Some(Raw(lowValue).node);
      var group := RawPowerGroup(first, n, if low == 0 || low == n then 0 else low, Raw(full).node, lowPart);
      (withLow.(groups := withLow.groups + [group]), full, lowValue)
    else (withLow, full, lowValue)
  }

  function AssertRow(rec: Recording, a: Value, b: Value, c: Value): Recording {
    var row := rec.constraints;
    rec.(constraints := row + 1,
         roots := rec.roots + [RawRoot(row, Kind.A, Raw(a)), RawRoot(row, Kind.B, Raw(b)), RawRoot(row, Kind.C, Raw(c))])
  }

  function Handle(values: seq<Value>, i: nat): Value {
    if i < |values| then values[i] else Value(OnConstant, 0)
  }

  /** One step of a program. Boolean steps leave no trace. */
  function RecordStep(rec: Recording, values: seq<Value>, s: Step): (Recording, seq<Value>) {
    match s
    case Xor(_, _) | Fixed(_) | Hint(_) => (rec, values)
    case Bitz(_) => (PushInput(rec), values + [Value(OnNode(|rec.nodes|), 1)])
    case BitzUnsigned(bits, low, limbs) =>
      var (after, full, lowValue) := Lift(rec, |bits|, low, limbs);
      (after, values + [full, lowValue])
    case Constant(value, limbs) => (rec, values + [Value(OnConstant, Wrap(limbs, value))])
    case Add(x, y, limbs) =>
      var (after, sum) := Plus(rec, Handle(values, x), Handle(values, y), limbs);
      (after, values + [sum])
    case Neg(x, limbs) =>
      var v := Handle(values, x);
      (rec, values + [v.(coefficient := Wrap(limbs, -v.coefficient))])
    case Scale(x, factor, limbs) =>
      var v := Handle(values, x);
      (rec, values + [v.(coefficient := Wrap(limbs, v.coefficient * factor))])
    case AssertR1c(a, b, c) => (AssertRow(rec, Handle(values, a), Handle(values, b), Handle(values, c)), values)
  }

  function Record(steps: seq<Step>): (Recording, seq<Value>) {
    if |steps| == 0 then (EMPTY, [])
    else
      var (rec, values) := Record(steps[..|steps| - 1]);
      RecordStep(rec, values, steps[|steps| - 1])
  }

  // ---------------------------------------------------------------- when no coefficient wraps

  /** Two handles whose coefficients a sum adds. */
  predicate Meets(x: Value, y: Value) {
    x.location == y.location && x.coefficient != 0 && y.coefficient != 0
  }

  /** Every coefficient a step computes fits its width. */
  predicate StepExact(rec: Recording, values: seq<Value>, s: Step) {
    match s
    case Xor(_, _) | Fixed(_) | Hint(_) | AssertR1c(_, _, _) | Bitz(_) => true
    case BitzUnsigned(bits, _, limbs) => |bits| < 64 * limbs
    case Constant(value, limbs) => Fits(limbs, value)
    case Add(x, y, limbs) =>
      var l, r := Handle(values, x), Handle(values, y);
      limbs > 0 && (Meets(l, r) ==> Fits(limbs, l.coefficient + r.coefficient))
    case Neg(x, limbs) => Fits(limbs, -Handle(values, x).coefficient)
    case Scale(x, factor, limbs) => Fits(limbs, Handle(values, x).coefficient * factor)
  }

  predicate Exact(steps: seq<Step>) {
    |steps| > 0 ==>
      var before := steps[..|steps| - 1];
      Exact(before) && StepExact(Record(before).0, Record(before).1, steps[|steps| - 1])
  }

  // ---------------------------------------------------------------- what the graph computes

  function InputCount(nodes: seq<RawNode>): nat {
    if |nodes| == 0 then 0
    else InputCount(nodes[..|nodes| - 1]) + if nodes[|nodes| - 1].Input? then 1 else 0
  }

  function InputsOf(nodes: seq<RawNode>): seq<nat> {
    if |nodes| == 0 then []
    else InputsOf(nodes[..|nodes| - 1]) + if nodes[|nodes| - 1].Input? then [|nodes| - 1] else []
  }

  /** `sum c v[node]` over the terms. */
  function TermsAt(terms: seq<RawTerm>, v: seq<int>): int {
    if |terms| == 0 then 0
    else TermsAt(terms[..|terms| - 1], v) + terms[|terms| - 1].coefficient * At(v, terms[|terms| - 1].node)
  }

  /** The coefficient of column `j` in every node. */
  function NodesAt(nodes: seq<RawNode>, j: nat): (v: seq<int>)
    ensures |v| == |nodes|
  {
    if |nodes| == 0 then []
    else
      var before := nodes[..|nodes| - 1];
      var v := NodesAt(before, j);
      v + [match nodes[|nodes| - 1]
           case Input => if InputCount(before) == j then 1 else 0
           case Sum(terms) => TermsAt(terms, v)]
  }

  function TermAt(t: RawTerm, v: seq<int>): int {
    t.coefficient * At(v, t.node)
  }

  /** Terms only refer to nodes below a bound. */
  ghost predicate Below(terms: seq<RawTerm>, n: nat) {
    forall k :: 0 <= k < |terms| ==> terms[k].node < n
  }

  ghost predicate GraphValid(rec: Recording) {
    && |rec.nodes| > 0 && rec.nodes[0].Input?
    && rec.inputs == InputsOf(rec.nodes)
    && (forall t :: 0 <= t < |rec.nodes| && rec.nodes[t].Sum? ==> Below(rec.nodes[t].terms, t))
    && |rec.roots| == 3 * rec.constraints
    && (forall i :: 0 <= i < |rec.roots| ==> RootValid(rec, i))
  }

  /** The three sides of a row follow one another. */
  ghost predicate RootValid(rec: Recording, i: nat)
    requires i < |rec.roots|
  {
    rec.roots[i].term.node < |rec.nodes| && rec.roots[i].row == i / 3 && rec.roots[i].kind == KindOf(i % 3)
  }

  function KindOf(k: nat): Kind {
    if k == 0 then Kind.A else if k == 1 then Kind.B else Kind.C
  }
}
