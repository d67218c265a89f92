/** A circuit run under an arbitrary assignment: every hinted bit is whatever the assignment says, and
    the run records whether all constraints held. Quantifying over assignments quantifies over every
    witness, honest or not. */
module Assignments {

  datatype Hinted = Fails | Gives(bits: seq<bool>)

  class Circuit {
    /** The hinted bits, in the order they are asked for. */
    const assignment: nat -> bool
    var next: nat
    /** How many constraints there are so far. */
    var rows: nat
    /** Whether every constraint so far holds. */
    var satisfied: bool
    /** Whether every hinted bit so far is what its hint computes. */
    ghost var honest: bool
    /** Whether some hint so far returned an error. */
    ghost var failed: bool

    constructor (assignment: nat -> bool)
      ensures this.assignment == assignment && next == 0 && rows == 0 && satisfied && honest && !failed
    {
      this.assignment := assignment;
      next, rows, satisfied, honest, failed := 0, 0, true, true, false;
    }

    /** Allocates `n` bits; `hint` is what the hint computes from the values so far. */
    method Hint(n: nat, ghost hint: Hinted) returns (bits: seq<bool>)
      modifies this
      ensures |bits| == n && satisfied == old(satisfied) && next == old(next) + n && rows == old(rows)
      ensures forall i: nat :: i < n ==> bits[i] == assignment(old(next) + i)
      ensures honest == (old(honest) && (hint.Gives? ==> bits == hint.bits))
      ensures failed == (old(failed) || hint.Fails?)
    {
      var from := next;
      bits := seq(n, i requires 0 <= i => assignment(from + i));
      next := next + n;
      honest := honest && (hint.Gives? ==> bits == hint.bits);
      failed := failed || hint.Fails?;
    }

    /** Asserts `a b = c` over the integers. */
    method AssertR1c(a: int, b: int, c: int)
      modifies this
      ensures satisfied == (old(satisfied) && a * b == c)
      ensures next == old(next) && rows == old(rows) + 1 && honest == old(honest) && failed == old(failed)
    {
      satisfied := satisfied && a * b == c;
      rows := rows + 1;
    }

    method AssertZero(value: int)
      modifies this
      ensures satisfied == (old(satisfied) && value == 0)
      ensures next == old(next) && rows == old(rows) + 1 && honest == old(honest) && failed == old(failed)
    {
      AssertR1c(0, 0, value);
    }
  }

  /** What every gadget keeps: a satisfied run was satisfied before and honesty was there before. */
  twostate predicate Extends(c: Circuit)
    reads c
  {
    && (c.satisfied ==> old(c.satisfied)) && (c.honest ==> old(c.honest)) && (old(c.failed) ==> c.failed)
  }

  /** The honest run goes on: no hint fails and every constraint holds. */
  twostate predicate Completes(c: Circuit)
    reads c
  {
    old(c.satisfied) && !old(c.failed) && c.honest ==> c.satisfied && !c.failed
  }

  /** What a gadget costs: the bits it hints and the constraints it emits, whatever the assignment. */
  twostate predicate Emits(c: Circuit, bits: nat, rows: nat)
    reads c
  {
    c.next == old(c.next) + bits && c.rows == old(c.rows) + rows
  }
}
