/** Residues in Montgomery form, each tied to the exact integer it stands for. */
module Residues {
  import opened Wengert
  import opened WengertAdjoint
  import M = Montgomery

  /** An odd modulus below 2^128 with the negated inverse of its low limb. */
  datatype Modulus = Modulus(words: M.Pair, inverse: M.Word)
  {
    function P(): nat { words.Value() }
  }

  ghost predicate Ready(m: Modulus) {
    m.P() % 2 == 1 && (m.words.lo * m.inverse + 1) % M.B == 0
  }

  function Enc(m: Modulus, e: int): M.Pair
    requires m.P() > 0
  {
    M.Encode(m.P(), e)
  }

  method Multiply(m: Modulus, left: M.Pair, right: M.Pair, ghost x: int, ghost y: int) returns (r: M.Pair)
    requires Ready(m) && left == Enc(m, x) && right == Enc(m, y)
    ensures r == Enc(m, x * y)
  {
    hide M.Encode;
    r := M.MontgomeryMul(left, right, m.words, m.inverse);
    M.EncodedProduct(m.P(), r, x, y);
  }

  method AddUp(m: Modulus, left: M.Pair, right: M.Pair, ghost x: int, ghost y: int) returns (r: M.Pair)
    requires Ready(m) && left == Enc(m, x) && right == Enc(m, y)
    ensures r == Enc(m, x + y)
  {
    hide M.Encode;
    r := M.AddMod(left, right, m.words);
    M.EncodedSum(m.P(), r, x, y);
  }

  method Negate(m: Modulus, value: M.Pair, ghost x: int) returns (r: M.Pair)
    requires Ready(m) && value == Enc(m, x)
    ensures r == Enc(m, -x)
  {
    hide M.Encode;
    r := M.NegMod(value, m.words);
    M.EncodedNegation(m.P(), r, x);
  }

  /** The first contribution initialises the sum. */
  method Accumulate(m: Modulus, value: M.Pair, initialized: bool, contribution: M.Pair, ghost x: int, ghost y: int)
      returns (r: M.Pair)
    requires Ready(m) && value == Enc(m, x) && contribution == Enc(m, y) && (!initialized ==> x == 0)
    ensures r == Enc(m, x + y)
  {
    if initialized {
      r := AddUp(m, value, contribution, x, y);
    } else {
      r := contribution;
    }
  }

  lemma {:induction false} ZeroIsEncoded(m: Modulus)
    requires Ready(m)
    ensures M.Pair(0, 0) == Enc(m, 0)
  {
    M.EncodeZero(m.P());
  }

  // ---------------------------------------------------------------- weighted challenges

  datatype Weighted = Weighted(a: M.Pair, b: M.Pair, c: M.Pair)

  function Pick(w: Weighted, kind: Kind): M.Pair {
    match kind case A => w.a case B => w.b case C => w.c
  }

  ghost predicate WeightsEncoded(m: Modulus, weighted: seq<Weighted>, w: seq<Weights>)
    requires m.P() > 0
  {
    |weighted| == |w| && forall i :: 0 <= i < |w| ==> weighted[i] == Weighted(Enc(m, w[i].a), Enc(m, w[i].b), Enc(m, w[i].c))
  }

  /** `r`, `r x` and `r x^2` for every row. */
  method PrepareChallenges(m: Modulus, challenges: seq<M.Pair>, x: M.Pair, ghost r: seq<int>, ghost e: int) returns (weighted: seq<Weighted>)
    requires Ready(m) && x == Enc(m, e) && |challenges| == |r|
    requires forall i :: 0 <= i < |r| ==> challenges[i] == Enc(m, r[i])
    ensures WeightsEncoded(m, weighted, WeightsOf(r, e))
  {
    hide M.Encode;
    var xSquared := Multiply(m, x, x, e, e);
    weighted := [];
    for i := 0 to |challenges|
      invariant |weighted| == i
      invariant forall k :: 0 <= k < i ==> weighted[k] == Weighted(Enc(m, r[k]), Enc(m, r[k] * e), Enc(m, r[k] * (e * e)))
    {
      var rx := Multiply(m, challenges[i], x, r[i], e);
      var rxx := Multiply(m, challenges[i], xSquared, r[i], e * e);
      weighted := weighted + [Weighted(challenges[i], rx, rxx)];
    }
  }

  // ---------------------------------------------------------------- canonical values

  function ValuesOf(pairs: seq<M.Pair>): (v: seq<int>)
    ensures |v| == |pairs| && forall i :: 0 <= i < |v| ==> v[i] == pairs[i].Value()
  {
    seq(|pairs|, i requires 0 <= i < |pairs| => pairs[i].Value())
  }

  /** Out of Montgomery form, one column at a time. */
  method Retrieve(m: Modulus, encoded: seq<M.Pair>, ghost columns: seq<int>) returns (canonical: seq<M.Pair>)
    requires Ready(m) && |encoded| == |columns| && forall c :: 0 <= c < |columns| ==> encoded[c] == Enc(m, columns[c])
    ensures |canonical| == |columns|
    ensures forall c :: 0 <= c < |columns| ==> canonical[c].Value() == columns[c] % m.P()
  {
    hide M.Encode;
    canonical := [];
    for c := 0 to |encoded|
      invariant |canonical| == c && forall k :: 0 <= k < c ==> canonical[k].Value() == columns[k] % m.P()
    {
      var value := M.MontgomeryRetrieve(encoded[c], m.words, m.inverse);
      M.Decoded(m.P(), value, columns[c]);
      canonical := canonical + [value];
    }
  }
}
