/** The recorder as the program runs it: vectors that grow step by step. */
module WengertGenerator {
  import opened Wrappers
  import opened Circuits
  import opened Wengert

  class Recorder {
    var nodes: seq<RawNode>
    var inputs: seq<nat>
    var roots: seq<RawRoot>
    var groups: seq<RawPowerGroup>
    var constraints: nat

    ghost function Contents(): Recording
      reads this
    {
      Recording(nodes, inputs, roots, groups, constraints)
    }

    constructor ()
      ensures Contents() == EMPTY
    {
      // Column zero is the implicit constant one.
      nodes, inputs, roots, groups, constraints := [Input], [0], [], [], 0;
    }

    method PushInput() returns (node: nat)
      modifies this
      ensures Contents() == Wengert.PushInput(old(Contents())) && node == |old(nodes)|
    {
      node := |nodes|;
      nodes, inputs := nodes + [Input], inputs + [node];
    }

    method PushSum(terms: seq<RawTerm>) returns (node: nat)
      modifies this
      ensures Contents() == Wengert.PushSum(old(Contents()), terms) && node == |old(nodes)|
    {
      node := |nodes|;
      nodes := nodes + [Sum(terms)];
    }

    method Add(x: Value, y: Value, limbs: nat) returns (sum: Value)
      modifies this
      ensures (Contents(), sum) == Plus(old(Contents()), x, y, limbs)
    {
      if x.coefficient == 0 { return y; }
      if y.coefficient == 0 { return x; }
      if x.location == y.location {
        sum := Value(x.location, Wrap(limbs, x.coefficient + y.coefficient));
      } else {
        var node := PushSum([Raw(x), Raw(y)]);
        sum := Value(OnNode(node), One(limbs));
      }
    }

    /** The sum of many handles as one node, once the zero ones are dropped. */
    method SumTerms(terms: seq<Value>, limbs: nat) returns (sum: Value)
      modifies this
      ensures (Contents(), sum) == Wengert.SumTerms(old(Contents()), terms, limbs)
    {
      var kept := [];
      for i := 0 to |terms|
        invariant kept == NonZero(terms[..i]) && Contents() == old(Contents())
      {
        assert terms[..i + 1][..i] == terms[..i];
        if terms[i].coefficient != 0 { kept := kept + [terms[i]]; }
      }
      assert terms[..|terms|] == terms;
      if |kept| == 0 { return Value(OnConstant, 0); }
      if |kept| == 1 { return kept[0]; }
      var node := PushSum(Raws(kept));
      sum := Value(OnNode(node), One(limbs));
    }

    method Bitz() returns (value: Value)
      modifies this
      ensures Contents() == Wengert.PushInput(old(Contents())) && value == Value(OnNode(|old(nodes)|), 1)
    {
      var node := PushInput();
      value := Value(OnNode(node), 1);
    }

    /** Lifts `n` bits: one input each, scaled by a power doubled in place. */
    method LiftBits(n: nat, limbs: nat) returns (lifted: seq<Value>)
      modifies this
      ensures (Contents(), lifted) == Wengert.LiftBits(old(Contents()), n, limbs)
    {
      var power := One(limbs);
      lifted := [];
      for i := 0 to n
        invariant (Contents(), lifted) == Wengert.LiftBits(old(Contents()), i, limbs)
        invariant power == PowerWord(i, limbs)
      {
        var node := PushInput();
        lifted := lifted + [Value(OnNode(node), Wrap(limbs, One(limbs) * power))];
        power := Wrap(limbs, power + power);
      }
    }

    method BitzUnsigned(n: nat, low: nat, limbs: nat) returns (full: Value, lowValue: Value)
      requires low <= n
      modifies this
      ensures (Contents(), full, lowValue) == Lift(old(Contents()), n, low, limbs)
    {
      hide Wengert.LiftBits, Wengert.SumTerms;
      var first := |inputs|;
      var lifted := LiftBits(n, limbs);
      LiftBitsLength(old(Contents()), n, limbs);
      full := SumTerms(lifted, limbs);
      if low == n {
        lowValue := full;
      } else {
        lowValue := SumTerms(lifted[..low], limbs);
      }
      if n >= 2 && low != 1 {
        var lowPart := if low == 0 || low == n then None else Some(Raw(lowValue).node);
        groups := groups + [RawPowerGroup(first, n, if low == 0 || low == n then 0 else low, Raw(full).node, lowPart)];
      }
    }

    method AssertR1c(a: Value, b: Value, c: Value)
      modifies this
      ensures Contents() == AssertRow(old(Contents()), a, b, c)
    {
      var row := constraints;
      constraints := constraints + 1;
      roots := roots + [RawRoot(row, Kind.A, Raw(a)), RawRoot(row, Kind.B, Raw(b)), RawRoot(row, Kind.C, Raw(c))];
    }

    /** One step of a program on the handles produced so far. */
    method Run(values: seq<Value>, s: Step) returns (after: seq<Value>)
      requires s.BitzUnsigned? ==> s.low <= |s.bits|
      modifies this
      ensures (Contents(), after) == RecordStep(old(Contents()), values, s)
    {
      hide Lift, Plus, Wrap, AssertRow, Wengert.PushInput;
      after := values;
      match s
      case Xor(_, _) | Fixed(_) | Hint(_) =>
      case Bitz(_) =>
        var value := Bitz();
        after := values + [value];
      case BitzUnsigned(bits, low, limbs) =>
        var full, lowValue := BitzUnsigned(|bits|, low, limbs);
        after := values + [full, lowValue];
      case Constant(value, limbs) =>
        after := values + [Value(OnConstant, Wrap(limbs, value))];
      case Add(x, y, limbs) =>
        var sum := Add(Handle(values, x), Handle(values, y), limbs);
        after := values + [sum];
      case Neg(x, limbs) =>
        var v := Handle(values, x);
        after := values + [v.(coefficient := Wrap(limbs, -v.coefficient))];
      case Scale(x, factor, limbs) =>
        var v := Handle(values, x);
        after := values + [v.(coefficient := Wrap(limbs, v.coefficient * factor))];
      case AssertR1c(a, b, c) =>
        AssertR1c(Handle(values, a), Handle(values, b), Handle(values, c));
    }
  }

  lemma {:induction false} LiftBitsLength(rec: Recording, n: nat, limbs: nat)
    ensures |LiftBits(rec, n, limbs).1| == n
    decreases n
  {
    if n > 0 { LiftBitsLength(rec, n - 1, limbs); }
  }

  /** Replays a whole program into a fresh recorder. */
  method Replay(steps: seq<Step>, inputs: nat) returns (recorder: Recorder, values: seq<Value>)
    requires Valid(steps, inputs)
    ensures fresh(recorder) && (recorder.Contents(), values) == Record(steps)
  {
    hide RecordStep;
    recorder := new Recorder();
    values := [];
    for i := 0 to |steps|
      invariant fresh(recorder) && (recorder.Contents(), values) == Record(steps[..i])
    {
      ValidAt(steps, inputs, i);
      assert steps[..i + 1][..i] == steps[..i];
      values := recorder.Run(values, steps[i]);
    }
    assert steps[..|steps|] == steps;
  }

  lemma {:induction false} ValidAt(steps: seq<Step>, inputs: nat, i: nat)
    requires Valid(steps, inputs) && i < |steps|
    ensures Valid(steps[..i], inputs)
    ensures StepValid(steps[i], Handles(steps[..i], inputs).0, Handles(steps[..i], inputs).1)
    decreases |steps|
  {
    var before := steps[..|steps| - 1];
    if i < |before| {
      ValidAt(before, inputs, i);
      assert before[..i] == steps[..i];
    }
  }
}
