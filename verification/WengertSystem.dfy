/** The Wengert backend from end to end: record a program, prepare its tape for a modulus, apply it. */
module WengertSystem {
  import opened Wrappers
  import opened Circuits
  import opened Wengert
  import opened WengertGroups
  import opened WengertAdjoint
  import opened WengertTape
  import opened Buckets
  import opened WengertTables
  import opened Residues
  import opened WengertApply
  import opened WengertTheorem
  import opened WengertGenerator
  import M = Montgomery
  import SC = StoredCoefficients

  datatype ApplyError = ChallengeLength(expected: nat, actual: nat) | SmallModulus | EvenModulus

  /** The tape of a program. */
  method Finish(steps: seq<Step>, inputs: nat) returns (tape: Tape, ghost layout: Layout)
    requires Valid(steps, inputs) && Exact(steps)
    ensures TapeFor(Record(steps).0, tape, layout)
  {
    hide TapeFor, Record, GraphValid, GroupsHold;
    var recorder, _ := Replay(steps, inputs);
    ProgramShape(steps, inputs);
    var recording := Recording(recorder.nodes, recorder.inputs, recorder.roots, recorder.groups, recorder.constraints);
    tape, layout := FromRecorder(recording);
  }

  /** The stored coefficients reduced and in Montgomery form, and the powers of two the longest group
      needs. */
  method Prepare(tape: Tape, modulus: M.Pair, inverse: M.Word) returns (prepared: Result<(Context, seq<M.Pair>), ApplyError>)
    requires |tape.coefficients| >= 2 && tape.coefficients[0] == 1
    requires modulus.Value() % 2 == 1 ==> (modulus.lo * inverse + 1) % M.B == 0
    ensures modulus.Value() <= 1 ==> prepared == Err(SmallModulus)
    ensures modulus.Value() > 1 && modulus.Value() % 2 == 0 ==> prepared == Err(EvenModulus)
    ensures modulus.Value() > 1 && modulus.Value() % 2 == 1 ==> prepared.Ok?
    ensures prepared.Ok? ==>
      var (context, powers) := prepared.value;
      Prepared(context) && context.tape == tape && context.modulus == Modulus(modulus, inverse) && PowersReady(context, powers)
  {
    var runtime := SC.NewModulus(modulus);
    if runtime.None? { return Err(SmallModulus); }
    if modulus.Value() % 2 == 0 { return Err(EvenModulus); }
    var coefficients := SC.PrepareCoefficients(runtime.value, modulus.Value(), tape.coefficients);
    var context := Context(tape, Modulus(modulus, inverse), coefficients);
    var longest: nat := 0;
    for g := 0 to |tape.groups|
      invariant forall k :: 0 <= k < g ==> tape.groups[k].len <= longest
    {
      if longest < tape.groups[g].len { longest := tape.groups[g].len; }
    }
    var powers := PowersOfTwo(context, longest);
    return Ok((context, powers));
  }

  /** An evaluator with storage that every application overwrites. */
  class PreparedWengertEvaluator {
    const context: Context
    const powersOfTwo: seq<M.Pair>
    var weightedChallenges: seq<Weighted>
    var adjoints: seq<M.Pair>
    var output: seq<M.Pair>

    constructor (context: Context, powersOfTwo: seq<M.Pair>)
      ensures this.context == context && this.powersOfTwo == powersOfTwo
      ensures |adjoints| == Internals(context.tape)
    {
      this.context, this.powersOfTwo := context, powersOfTwo;
      weightedChallenges, output := [], [];
      adjoints := seq(Internals(context.tape), _ => M.Pair(0, 0));
    }

    /** One application: the output holds the exact columns, in Montgomery form. */
    method Apply(challenges: seq<M.Pair>, x: M.Pair, ghost n: nat, ghost r: seq<int>, ghost e: int, ghost a: seq<int>, ghost columns: seq<int>)
        returns (result: Result<seq<M.Pair>, ApplyError>)
      requires Prepared(context) && PowersReady(context, powersOfTwo) && |adjoints| == Internals(context.tape)
      requires x == Enc(context.modulus, e) && |r| == |challenges| && forall i :: 0 <= i < |r| ==> challenges[i] == Enc(context.modulus, r[i])
      requires |challenges| == context.tape.constraints ==>
        && Scheduled(context.tape, n) && Solves(context.tape, n, WeightsOf(r, e), a)
        && |columns| == |context.tape.inputNodes| && GroupsInOrder(context.tape.groups, |columns|) && GroupNodesRead(context.tape)
        && ColumnsSolve(context.tape, a, columns)
      modifies this
      ensures |adjoints| == Internals(context.tape)
      ensures |challenges| != context.tape.constraints ==>
        result == Err(ChallengeLength(context.tape.constraints, |challenges|)) && output == old(output)
      ensures |challenges| == context.tape.constraints ==>
        result == Ok(output) && |output| == |columns| && ColumnsEncoded(context, output, 0, columns)
    {
      hide M.Encode, Enc, Scheduled, Solves, GroupsInOrder, ColumnsSolve, PowersReady;
      if |challenges| != context.tape.constraints {
        return Err(ChallengeLength(context.tape.constraints, |challenges|));
      }
      weightedChallenges := PrepareChallenges(context.modulus, challenges, x, r, e);
      adjoints := ReversePass(context, weightedChallenges, adjoints, n, WeightsOf(r, e), a);
      output := OutputPass(context, OUTPUT_CHUNK_SIZE, weightedChallenges, adjoints, powersOfTwo, n, WeightsOf(r, e), a, columns);
      return Ok(output);
    }
  }

  /** For every program, odd modulus, challenge vector and `x`, the finished tape returns exactly
      `r (A + x B + x^2 C)` modulo the modulus, for the matrices of the same program. */
  method Apply(steps: seq<Step>, inputs: nat, challenges: seq<M.Pair>, x: M.Pair, modulus: M.Pair, inverse: M.Word)
      returns (result: Result<seq<M.Pair>, ApplyError>)
    requires Valid(steps, inputs) && Exact(steps)
    requires modulus.Value() % 2 == 1 ==> (modulus.lo * inverse + 1) % M.B == 0
    ensures modulus.Value() <= 1 ==> result == Err(SmallModulus)
    ensures modulus.Value() > 1 && modulus.Value() % 2 == 0 ==> result == Err(EvenModulus)
    ensures modulus.Value() > 1 && modulus.Value() % 2 == 1 && |challenges| != Rows(steps) ==>
      result == Err(ChallengeLength(Rows(steps), |challenges|))
    ensures modulus.Value() > 1 && modulus.Value() % 2 == 1 && |challenges| == Rows(steps) ==>
      && result.Ok? && |result.value| == Columns(steps)
      && forall j :: 0 <= j < Columns(steps) ==>
           result.value[j].Value() == ProgramColumn(steps, ValuesOf(challenges), x.Value(), j) % modulus.Value()
  {
    hide Record, TapeFor, Scheduled, Solves, ColumnsSolve, GroupsInOrder, GroupNodesRead, PowersReady, M.Encode, ColumnsEncoded, Adjoints, MeaningAt;
    var tape;
    ghost var layout;
    tape, layout := Finish(steps, inputs);
    TapeBasics(steps, inputs, tape, layout);
    var prepared := Prepare(tape, modulus, inverse);
    if prepared.Err? { return Err(prepared.error); }
    var (context, powers) := prepared.value;
    var m := modulus.Value();
    var evaluator := new PreparedWengertEvaluator(context, powers);
    var encoded := seq(|challenges|, i requires 0 <= i < |challenges| => M.Encode(m, challenges[i].Value()));
    ghost var r, e := ValuesOf(challenges), x.Value();
    ghost var columns, a := [], [];
    if |challenges| == Rows(steps) {
      TapeOfProgram(steps, inputs, tape, layout, r, e);
      columns, a := ProgramColumns(steps, r, e), Reordered(layout.ordering, Adjoints(Record(steps).0, WeightsOf(r, e)));
    }
    var output := evaluator.Apply(encoded, M.Encode(m, x.Value()), |layout.ordering|, r, e, a, columns);
    if output.Err? { return output; }
    ColumnsAsEncoded(context, output.value, columns);
    var canonical := Retrieve(context.modulus, output.value, columns);
    return Ok(canonical);
  }

  lemma {:induction false} ColumnsAsEncoded(c: Context, values: seq<M.Pair>, columns: seq<int>)
    requires c.modulus.P() > 0 && |values| == |columns| && ColumnsEncoded(c, values, 0, columns)
    ensures forall k :: 0 <= k < |columns| ==> values[k] == Enc(c.modulus, columns[k])
  {
    hide Enc;
    forall k | 0 <= k < |columns| ensures values[k] == Enc(c.modulus, columns[k]) { assert columns[0 + k] == columns[k]; }
  }

  lemma {:induction false} TapeBasics(steps: seq<Step>, inputs: nat, tape: Tape, l: Layout)
    requires Valid(steps, inputs) && Exact(steps) && TapeFor(Record(steps).0, tape, l)
    ensures |tape.coefficients| >= 2 && tape.coefficients[0] == 1 && tape.constraints == Rows(steps)
  {
    hide Record, KeptLive, NodesOrdered, Renumbered, EdgesMatch, RootsMatch, Bucketed, LiveEdges, LiveRoots, DeeperAt, Reached, NoLevelEmpty;
    ProgramShape(steps, inputs);
  }
}
