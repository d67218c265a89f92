/** The two ends of a transcript. The hash is replaced by an arbitrary stream of challenges, and
    grinding is left out: what remains is which records are read and in which order. */
module Transcript {
  import opened Wrappers
  import opened FiniteField

  class ProverState {
    const challenges: nat -> Elem
    var records: seq<Elem>
    var drawn: nat

    constructor (challenges: nat -> Elem)
      ensures records == [] && drawn == 0 && this.challenges == challenges
    {
      this.challenges := challenges;
      records, drawn := [], 0;
    }

    method Send(message: seq<Elem>)
      modifies this`records
      ensures records == old(records) + message
    {
      records := records + message;
    }

    method Challenge() returns (c: Elem)
      modifies this`drawn
      ensures c == challenges(old(drawn)) && drawn == old(drawn) + 1
    {
      c := challenges(drawn);
      drawn := drawn + 1;
    }
  }

  class VerifierState {
    const records: seq<Elem>
    const challenges: nat -> Elem
    var read: nat
    var drawn: nat

    constructor (records: seq<Elem>, challenges: nat -> Elem)
      ensures this.records == records && this.challenges == challenges && read == 0 && drawn == 0
    {
      this.records, this.challenges := records, challenges;
      read, drawn := 0, 0;
    }

    ghost predicate Valid()
      reads this
    {
      read <= |records|
    }

    /** The records not yet read. */
    ghost function Rest(): seq<Elem>
      reads this
      requires Valid()
    {
      records[read..]
    }

    /** The next two records, or nothing when the proof is cut short. */
    method ReadPair() returns (message: Option<(Elem, Elem)>)
      requires Valid()
      modifies this`read
      ensures Valid()
      ensures |records| < old(read) + 2 ==> message.None? && read == old(read)
      ensures |records| >= old(read) + 2 ==>
        message == Some((records[old(read)], records[old(read) + 1])) && read == old(read) + 2
    {
      if read + 2 > |records| { return None; }
      message := Some((records[read], records[read + 1]));
      read := read + 2;
    }

    method ReadOne() returns (message: Option<Elem>)
      requires Valid()
      modifies this`read
      ensures Valid()
      ensures |records| == old(read) ==> message.None? && read == old(read)
      ensures |records| > old(read) ==> message == Some(records[old(read)]) && read == old(read) + 1
    {
      if read >= |records| { return None; }
      message := Some(records[read]);
      read := read + 1;
    }

    method Challenge() returns (c: Elem)
      modifies this`drawn
      ensures c == challenges(old(drawn)) && drawn == old(drawn) + 1
    {
      c := challenges(drawn);
      drawn := drawn + 1;
    }
  }

  /** The `n` challenges drawn from position `from` on. */
  ghost function Drawn(challenges: nat -> Elem, from: nat, n: nat): (v: seq<Elem>)
    ensures |v| == n
  {
    if n == 0 then [] else Drawn(challenges, from, n - 1) + [challenges(from + n - 1)]
  }

  /** The `i`-th of them stands `i` places after the first. */
  lemma {:induction false} DrawnAt(challenges: nat -> Elem, from: nat, n: nat, i: nat)
    requires i < n
    ensures Drawn(challenges, from, n)[i] == challenges(from + i)
  {
    if i < n - 1 { DrawnAt(challenges, from, n - 1, i); }
  }

  /** A stream that draws a given vector from position `from` on. */
  ghost function StreamOf(v: seq<Elem>, from: nat, filler: Elem): nat -> Elem {
    (i: nat) => if from <= i < from + |v| then v[i - from] else filler
  }

  /** Every vector is what some stream draws. */
  lemma {:induction false} StreamDraws(v: seq<Elem>, from: nat, filler: Elem)
    ensures Drawn(StreamOf(v, from, filler), from, |v|) == v
  {
    var drawn := Drawn(StreamOf(v, from, filler), from, |v|);
    forall i: nat | i < |v| ensures drawn[i] == v[i] {
      DrawnAt(StreamOf(v, from, filler), from, |v|, i);
    }
  }

  /** A stretch of what is drawn is drawn on its own from its place. */
  lemma {:induction false} DrawnPart(challenges: nat -> Elem, from: nat, n: nat, a: nat, b: nat)
    requires a <= b <= n
    ensures Drawn(challenges, from, n)[a..b] == Drawn(challenges, from + a, b - a)
  {
    var whole, part := Drawn(challenges, from, n), Drawn(challenges, from + a, b - a);
    forall i: nat | i < b - a ensures whole[a..b][i] == part[i] {
      DrawnAt(challenges, from, n, a + i);
      DrawnAt(challenges, from + a, b - a, i);
    }
  }
}
