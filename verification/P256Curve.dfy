/** The affine group law of section 2.2.1 of SEC 1, on the curve `y^2 = x^3 - 3 x + b`. */
module P256Curve {
  import M = Montgomery
  import opened NumberTheory
  import opened Residue

  datatype Affine = Infinity | Finite(x: nat, y: nat)

  ghost predicate OnCurve(p: nat, b: int, a: Affine) {
    a.Infinity? || (a.x < p && a.y < p && Eq(a.y * a.y, a.x * a.x * a.x - 3 * a.x + b, p))
  }

  /** The third point of the line of slope `slope` through `a` and `b`, negated. */
  function Through(p: nat, slope: int, a: Affine, b: Affine): Affine
    requires p > 0 && a.Finite? && b.Finite?
  {
    var x := (slope * slope - (a.x + b.x)) % p;
    Finite(x, (slope * (a.x - x) - a.y) % p)
  }

  function TangentSlope(p: nat, a: Affine): nat
    requires p >= 2 && a.Finite?
  {
    Quotient(3 * (a.x * a.x) - 3, 2 * a.y, p)
  }

  function ChordSlope(p: nat, a: Affine, b: Affine): nat
    requires p >= 2 && a.Finite? && b.Finite?
  {
    Quotient(b.y - a.y, b.x - a.x, p)
  }

  /** The sum of two points. */
  function EcAdd(p: nat, a: Affine, b: Affine): Affine
    requires p >= 2
  {
    if a.Infinity? then b
    else if b.Infinity? then a
    else if a.x == b.x && (a.y + b.y) % p == 0 then Infinity
    else if a == b then Through(p, TangentSlope(p, a), a, a)
    else Through(p, ChordSlope(p, a, b), a, b)
  }

  /** Points of the curve with the same abscissa are equal or opposite. */
  lemma {:induction false} EqualOrOpposite(p: nat, b: int, s: Affine, t: Affine)
    requires Prime(p) && OnCurve(p, b, s) && OnCurve(p, b, t) && s.Finite? && t.Finite? && s.x == t.x
    ensures s == t || (s.y + t.y) % p == 0
  {
    assert p >= 2;
    EqDifference(s.y * s.y, t.y * t.y, p);
    SquareDifference(s.y, t.y);
    NoZeroDivisors(p, s.y - t.y, s.y + t.y);
    hide Prime;
    EqDifference(s.y, t.y, p);
    M.ModUnique(s.y, 0, s.y, p);
    M.ModUnique(t.y, 0, t.y, p);
  }

  lemma {:induction false} SquareDifference(a: int, b: int)
    ensures a * a - b * b == (a - b) * (a + b)
  {
  }

  /** Distinct residues differ modulo `p`. */
  lemma {:induction false} ResiduesDiffer(p: nat, a: nat, b: nat)
    requires a < p && b < p
    ensures Eq(a, b, p) <==> a == b
  {
    M.ModUnique(a, 0, a, p);
    M.ModUnique(b, 0, b, p);
  }
}
