/** The joint multiplication `u1 G + u2 Q`: byte windows of `u1` and nibble windows of `u2`. */
module P256Joint {
  import M = Montgomery
  import opened Powers
  import opened Numerals
  import opened Assignments
  import opened NumberTheory
  import opened Residue
  import opened P256Field
  import opened P256Gadgets
  import opened P256Curve
  import opened P256Points
  import opened P256Scalar

  // ---------------------------------------------------------------- tables

  /** The multiples of a point, from the zeroth. */
  ghost predicate Multiples(p: nat, table: seq<Point>, q: Affine)
    requires p >= 2
  {
    forall k: nat :: k < |table| ==> Represents(p, table[k], Multiple(p, k, q))
  }

  function InfinityPoint(): Point {
    Point(Rep(0, 2), Rep(0, 2), 1)
  }

  lemma {:induction false} InfinityRepresents(p: nat)
    requires p > 0
    ensures Represents(p, InfinityPoint(), Infinity)
  {
    WordFits(0, p);
  }

  /** The sixteen multiples of a point, each from the one before. */
  method MaterializeMultiples(c: Circuit, p: nat, q: Point, ghost b: int, ghost s: Affine) returns (table: seq<Point>)
    requires Prime(p) && IsModulus(p) && CurveGroup(p, b) && OnCurve(p, b, s) && (c.satisfied ==> Represents(p, q, s))
    modifies c
    ensures Emits(c, 80318, 350)
    ensures |table| == 16 && Extends(c) && Completes(c)
    ensures c.satisfied ==> Multiples(p, table, s)
  {
    assert p >= 2;
    hide Represents, OnCurve, CurveGroup, EcAdd, Prime, IsModulus, Multiple;
    InfinityRepresents(p);
    FirstMultiples(p, s);
    table := [InfinityPoint(), q];
    var previous := q;
    for k := 2 to 16
      invariant Emits(c, 5737 * (k - 2), 25 * (k - 2))
      invariant |table| == k && previous == table[k - 1] && Extends(c) && Completes(c)
      invariant c.satisfied ==> Multiples(p, table, s)
    {
      MultipleOnCurve(p, b, k - 1, s);
      NextMultiple(p, k, s);
      previous := AddComplete(c, p, previous, q, b, Multiple(p, k - 1, s), s);
      table := table + [previous];
    }
  }

  lemma {:induction false} FirstMultiples(p: nat, s: Affine)
    requires p >= 2
    ensures Multiple(p, 0, s) == Infinity && Multiple(p, 1, s) == s
  {
    AddInfinity(p, s);
  }

  lemma {:induction false} NextMultiple(p: nat, k: nat, s: Affine)
    requires p >= 2 && k > 0
    ensures Multiple(p, k, s) == EcAdd(p, Multiple(p, k - 1, s), s)
  {
  }

  /** The table's next point is the next multiple. */
  lemma {:induction false} NextInTable(p: nat, b: int, k: nat, s: Affine, last: (nat, nat), first: (nat, nat))
    requires Prime(p) && CurveGroup(p, b) && OnCurve(p, b, s) && FarFromInfinity(p, s) && 2 <= k < 256
    requires Multiple(p, k - 1, s) == Finite(last.0, last.1) && s == Finite(first.0, first.1)
    ensures p >= 2 && Multiple(p, k, s) == Finite(AffineAdd(p, last, first).0, AffineAdd(p, last, first).1)
  {
    assert p >= 2;
    hide OnCurve, CurveGroup, EcAdd, Prime, Multiple, AffineAdd;
    MultipleOnCurve(p, b, k - 1, s);
    NextMultiple(p, k, s);
    AffineAddIsSum(p, b, Multiple(p, k - 1, s), s);
  }

  /** The table's point at a digit. */
  method LookupPoint(c: Circuit, p: nat, digit: int, table: seq<Point>, ghost q: Affine) returns (r: Point)
    requires p >= 2 && |table| == 16 && (c.satisfied ==> Multiples(p, table, q) && 0 <= digit < 16)
    modifies c
    ensures Emits(c, 529, 50)
    ensures Extends(c) && Completes(c)
    ensures c.satisfied ==> 0 <= digit < 16 && Represents(p, r, Multiple(p, digit, q))
  {
    hide Pow2, Eq, Multiple, OneHot, IsWord;
    if c.satisfied { EntryFormed(p, table, q, digit); }
    var indicators := Indicators(c, 16, digit);
    HotRange(digit, indicators);
    var xs := seq(16, k requires 0 <= k < 16 => table[k].x);
    var ys := seq(16, k requires 0 <= k < 16 => table[k].y);
    var flags := seq(16, k requires 0 <= k < 16 => table[k].infinity);
    var x := LookupRep(c, p, digit, indicators, xs);
    var y := LookupRep(c, p, digit, indicators, ys);
    var flag := LookupFlag(c, digit, indicators, flags);
    r := Point(x, y, flag);
  }

  lemma {:induction false} HotRange(digit: int, indicators: seq<int>)
    ensures OneHot(digit, indicators) ==> 0 <= digit < |indicators|
  {
  }

  lemma {:induction false} EntryFormed(p: nat, table: seq<Point>, q: Affine, k: int)
    requires p >= 2 && Multiples(p, table, q) && 0 <= k < |table|
    ensures 0 <= table[k].x.value < Pow2(256) && 0 <= table[k].y.value < Pow2(256) && IsBit(table[k].infinity)
    ensures Represents(p, table[k], Multiple(p, k, q))
  {
  }

  // ---------------------------------------------------------------- the fixed base

  /** The coordinates of the generator's multiples, zeros for the zeroth. */
  ghost predicate IsGeneratorTable(p: nat, table: seq<(nat, nat)>, g: Affine)
    requires p >= 2
  {
    && |table| == 256 && table[0] == (0, 0)
    && forall k: nat :: 0 < k < 256 ==> Multiple(p, k, g) == Finite(table[k].0, table[k].1)
  }

  /** The generator has order above 255. */
  ghost predicate FarFromInfinity(p: nat, g: Affine)
    requires p >= 2
  {
    forall k: nat :: 0 < k < 256 ==> Multiple(p, k, g).Finite?
  }

  /** The affine addition of the table's construction: a tangent for equal points, a chord otherwise. */
  function AffineAdd(p: nat, s: (nat, nat), t: (nat, nat)): (nat, nat)
    requires p >= 2
  {
    var numerator := if s == t then (3 * s.0 * s.0 + p - 3) % p else (t.1 + p - s.1) % p;
    var denominator := if s == t then (2 * s.1) % p else (t.0 + p - s.0) % p;
    var slope := numerator * Inverse(denominator, p) % p;
    var x := (slope * slope + p * 2 - s.0 - t.0) % p;
    (x, (slope * ((s.0 + p - x) % p) + p - s.1) % p)
  }

  /** On points that are not opposite it is the group law. */
  lemma {:induction false} AffineAddIsSum(p: nat, b: int, s: Affine, t: Affine)
    requires Prime(p) && OnCurve(p, b, s) && OnCurve(p, b, t) && s.Finite? && t.Finite? && EcAdd(p, s, t).Finite?
    ensures var r := AffineAdd(p, (s.x, s.y), (t.x, t.y)); EcAdd(p, s, t) == Finite(r.0, r.1)
  {
    assert p >= 2;
    var n := if s == t then 3 * (s.x * s.x) - 3 else t.y - s.y;
    var d := if s == t then 2 * s.y else t.x - s.x;
    var numerator := if s == t then (3 * s.x * s.x + p - 3) % p else (t.y + p - s.y) % p;
    var denominator := if s == t then (2 * s.y) % p else (t.x + p - s.x) % p;
    NotOppositeDenominator(p, b, s, t, d);
    M.Assoc(3, s.x, s.x);
    TableSlope(p, n, d, numerator, denominator);
    var slope := numerator * Inverse(denominator, p) % p;
    assert slope == Quotient(n, d, p);
    assert EcAdd(p, s, t) == Through(p, slope, s, t);
    hide Prime, Inverse, Quotient, EcAdd, OnCurve;
    TablePoint(p, slope, s, t);
  }

  lemma {:induction false} NotOppositeDenominator(p: nat, b: int, s: Affine, t: Affine, d: int)
    requires Prime(p) && OnCurve(p, b, s) && OnCurve(p, b, t) && s.Finite? && t.Finite? && EcAdd(p, s, t).Finite?
    requires d == if s == t then 2 * s.y else t.x - s.x
    ensures !Eq(d, 0, p)
  {
    assert p >= 2;
    assert !(s.x == t.x && (s.y + t.y) % p == 0);
    EqZero(d, p);
    if s != t {
      if s.x == t.x { EqualOrOpposite(p, b, s, t); }
      hide Prime;
      EqDifference(t.x, s.x, p);
      ResiduesDiffer(p, s.x, t.x);
    }
  }

  lemma {:induction false} TableSlope(p: nat, n: int, d: int, numerator: nat, denominator: nat)
    requires Prime(p) && !Eq(d, 0, p) && (numerator == n % p || numerator == (n + p) % p)
    requires denominator == d % p || denominator == (d + p) % p
    ensures numerator * Inverse(denominator, p) % p == Quotient(n, d, p)
  {
    assert p >= 2;
    EqBy(n + p, n, 1, p);
    EqBy(d + p, d, 1, p);
    M.ModUnique(d % p, 0, d % p, p);
    assert Inverse(denominator, p) == Inverse(d, p);
    hide Inverse, Prime;
    ReduceFactor(n, Inverse(d, p), p);
    assert Inverse(d, p) * (n % p) == (n % p) * Inverse(d, p);
  }

  lemma {:induction false} TablePoint(p: nat, slope: nat, s: Affine, t: Affine)
    requires p >= 2 && s.Finite? && t.Finite? && s.y < p
    ensures var x := (slope * slope + p * 2 - s.x - t.x) % p;
      var y := (slope * ((s.x + p - x) % p) + p - s.y) % p;
      Through(p, slope, s, t) == Finite(x, y)
  {
    var square := slope * slope - (s.x + t.x);
    EqBy(square + 2 * p, square, 2, p);
    var x := square % p;
    EqBy(s.x + p - x, s.x - x, 1, p);
    EqReduced(s.x - x, p);
    EqProduct(slope, slope, (s.x + p - x) % p, s.x - x, p);
    var product := slope * ((s.x + p - x) % p);
    EqSum(product, slope * (s.x - x), s.y, s.y, p);
    EqBy(product + p - s.y, product - s.y, 1, p);
  }

  /** The table of the generator's multiples, each from the one before. */
  method GeneratorTable(p: nat, g: (nat, nat), ghost b: int) returns (table: seq<(nat, nat)>)
    requires Prime(p) && CurveGroup(p, b) && OnCurve(p, b, Finite(g.0, g.1)) && FarFromInfinity(p, Finite(g.0, g.1))
    ensures IsGeneratorTable(p, table, Finite(g.0, g.1))
  {
    assert p >= 2;
    hide OnCurve, CurveGroup, EcAdd, Prime, Multiple, AffineAdd;
    ghost var G := Finite(g.0, g.1);
    table := [(0, 0), g];
    var point := g;
    FirstMultiples(p, G);
    for k := 2 to 256
      invariant |table| == k && table[0] == (0, 0) && point == table[k - 1]
      invariant forall i: nat :: 0 < i < k ==> Multiple(p, i, G) == Finite(table[i].0, table[i].1)
    {
      NextInTable(p, b, k, G, point, g);
      point := AffineAdd(p, point, g);
      table := table + [point];
    }
  }

  function Abscissas(table: seq<(nat, nat)>): (s: seq<int>)
    ensures |s| == |table| && forall i: nat :: i < |table| ==> s[i] == table[i].0
  {
    seq(|table|, i requires 0 <= i < |table| => table[i].0)
  }

  function Ordinates(table: seq<(nat, nat)>): (s: seq<int>)
    ensures |s| == |table| && forall i: nat :: i < |table| ==> s[i] == table[i].1
  {
    seq(|table|, i requires 0 <= i < |table| => table[i].1)
  }

  /** The generator's multiple at a byte, as a one-hot combination of the constants. */
  method LookupGeneratorByte(c: Circuit, p: nat, digit: int, table: seq<(nat, nat)>, ghost b: int, ghost g: Affine)
      returns (r: Point)
    requires IsModulus(p) && CurveGroup(p, b) && OnCurve(p, b, g) && IsGeneratorTable(p, table, g)
    requires c.satisfied ==> 0 <= digit < 256
    modifies c
    ensures Emits(c, 256, 2)
    ensures Extends(c) && Completes(c)
    ensures c.satisfied ==> 0 <= digit < 256 && Represents(p, r, Multiple(p, digit, g))
  {
    assert p >= 2;
    hide Weighted, OneHot, OnCurve, CurveGroup, IsGeneratorTable, IsModulus, Represents, Multiple;
    var indicators := Indicators(c, 256, digit);
    TableSize(p, table, g);
    var x := Weighted(indicators, Abscissas(table));
    var y := Weighted(indicators, Ordinates(table));
    r := Point(Rep(x, 2), Rep(y, 2), indicators[0]);
    if c.satisfied {
      HotRange(digit, indicators);
      OneHotSums(digit, indicators, Abscissas(table));
      OneHotSums(digit, indicators, Ordinates(table));
      GeneratorEntry(p, b, table, g, digit, indicators, r);
    }
  }

  lemma {:induction false} TableSize(p: nat, table: seq<(nat, nat)>, g: Affine)
    requires p >= 2 && IsGeneratorTable(p, table, g)
    ensures |table| == 256
  {
  }

  lemma {:induction false} GeneratorEntry(
    p: nat, b: int, table: seq<(nat, nat)>, g: Affine, digit: nat, indicators: seq<int>, r: Point
  )
    requires IsModulus(p) && CurveGroup(p, b) && OnCurve(p, b, g) && IsGeneratorTable(p, table, g)
    requires digit < 256 == |indicators| && OneHot(digit, indicators)
    requires r == Point(Rep(table[digit].0, 2), Rep(table[digit].1, 2), indicators[0])
    ensures Represents(p, r, Multiple(p, digit, g))
  {
    MultipleOnCurve(p, b, digit, g);
    FirstMultiples(p, g);
    hide Multiple, CurveGroup, Pow2;
    if digit == 0 {
      WordFits(0, p);
    } else {
      assert Multiple(p, digit, g) == Finite(table[digit].0, table[digit].1);
      WordFits(table[digit].0, p);
      WordFits(table[digit].1, p);
    }
  }

  // ---------------------------------------------------------------- windows

  /** The integer of a window of lifted bits. */
  function ScalarWindow(bits: seq<bool>, start: nat, width: nat): (v: int)
    requires start + width <= |bits|
    ensures v == Number(bits[start..start + width]) && 0 <= v < Pow2(width)
  {
    NumberBelow(bits[start..start + width]);
    WindowSum(bits, start, width);
    SumOfPowers(bits, start, width)
  }

  /** `sum 2^j bits[start + j]`. */
  function SumOfPowers(bits: seq<bool>, start: nat, width: nat): int
    requires start + width <= |bits|
  {
    if width == 0 then 0
    else SumOfPowers(bits, start, width - 1) + if bits[start + width - 1] then Pow2(width - 1) else 0
  }

  lemma {:induction false} WindowSum(bits: seq<bool>, start: nat, width: nat)
    requires start + width <= |bits|
    ensures SumOfPowers(bits, start, width) == Number(bits[start..start + width])
  {
    if width > 0 {
      WindowSum(bits, start, width - 1);
      var low, top := bits[start..start + width - 1], bits[start + width - 1..start + width];
      assert bits[start..start + width] == low + top;
      NumberConcat(low, top);
      assert top == [bits[start + width - 1]] && top[1..] == [];
      assert Number(top) == if top[0] then 1 else 0;
    }
  }

  /** Taking one more window in front of the bits above it. */
  lemma {:induction false} NextWindow(bits: seq<bool>, start: nat, width: nat)
    requires start + width <= |bits|
    ensures Number(bits[start..]) == ScalarWindow(bits, start, width) + Pow2(width) * Number(bits[start + width..])
  {
    NumberConcat(bits[start..start + width], bits[start + width..]);
    assert bits[start..start + width] + bits[start + width..] == bits[start..];
  }

  // ---------------------------------------------------------------- the multiplication

  method DoubleComb(c: Circuit, p: nat, acc: Point, ghost b: int, ghost m: nat, ghost g: Affine, ghost n: nat, ghost q: Affine)
      returns (r: Point)
    requires Prime(p) && IsModulus(p) && CurveGroup(p, b) && OnCurve(p, b, g) && OnCurve(p, b, q)
    requires c.satisfied ==> Represents(p, acc, Comb(p, m, g, n, q))
    modifies c
    ensures Emits(c, 2084, 4)
    ensures Extends(c) && Completes(c)
    ensures c.satisfied ==> Represents(p, r, Comb(p, 2 * m, g, 2 * n, q))
  {
    assert p >= 2;
    CombOnCurve(p, b, m, g, n, q);
    CombSum(p, b, m, n, m, n, g, q);
    assert NoTwoTorsion(p, b, Comb(p, m, g, n, q));
    hide Represents, EcAdd, Prime, IsModulus, Comb, Eq, CurveGroup;
    r := DoubleComplete(c, p, acc, Comb(p, m, g, n, q));
  }

  /** Four doublings multiply by sixteen. */
  method FourDoublings(c: Circuit, p: nat, acc: Point, ghost b: int, ghost m: nat, ghost g: Affine, ghost n: nat, ghost q: Affine)
      returns (r: Point)
    requires Prime(p) && IsModulus(p) && CurveGroup(p, b) && OnCurve(p, b, g) && OnCurve(p, b, q)
    requires c.satisfied ==> Represents(p, acc, Comb(p, m, g, n, q))
    modifies c
    ensures Emits(c, 8336, 16)
    ensures Extends(c) && Completes(c)
    ensures c.satisfied ==> Represents(p, r, Comb(p, 16 * m, g, 16 * n, q))
  {
    assert p >= 2;
    hide Represents, OnCurve, EcAdd, Prime, IsModulus, Comb, CurveGroup;
    r := acc;
    ghost var k: nat, m', n' := 1, m, n;
    for i := 0 to 4
      invariant Emits(c, 2084 * i, 4 * i)
      invariant k == (if i == 0 then 1 else if i == 1 then 2 else if i == 2 then 4 else if i == 3 then 8 else 16)
      invariant m' == k * m && n' == k * n && Extends(c) && Completes(c)
      invariant c.satisfied ==> Represents(p, r, Comb(p, m', g, n', q))
    {
      r := DoubleComb(c, p, r, b, m', g, n', q);
      k, m', n' := 2 * k, 2 * m', 2 * n';
    }
  }

  /** Adds a multiple of the variable base, or of the generator. */
  method AddMultiple(
    c: Circuit, p: nat, acc: Point, term: Point, ghost b: int, ghost m: nat, ghost g: Affine, ghost n: nat, ghost q: Affine,
    ghost dm: nat, ghost dn: nat
  ) returns (r: Point)
    requires Prime(p) && IsModulus(p) && CurveGroup(p, b) && OnCurve(p, b, g) && OnCurve(p, b, q)
    requires c.satisfied ==> Represents(p, acc, Comb(p, m, g, n, q)) && Represents(p, term, Comb(p, dm, g, dn, q))
    modifies c
    ensures Emits(c, 5737, 25)
    ensures Extends(c) && Completes(c)
    ensures c.satisfied ==> Represents(p, r, Comb(p, m + dm, g, n + dn, q))
  {
    assert p >= 2;
    hide Represents, OnCurve, EcAdd, Prime, IsModulus, Comb, CurveGroup;
    CombOnCurve(p, b, m, g, n, q);
    CombOnCurve(p, b, dm, g, dn, q);
    CombSum(p, b, m, n, dm, dn, g, q);
    r := AddComplete(c, p, acc, term, b, Comb(p, m, g, n, q), Comb(p, dm, g, dn, q));
  }

  /** Sixteen times the accumulator, and a multiple of the variable base. */
  method AppendNibble(
    c: Circuit, p: nat, acc: Point, term: Point, ghost b: int, ghost m: nat, ghost g: Affine, ghost n: nat, ghost q: Affine,
    ghost d: nat
  ) returns (r: Point)
    requires Prime(p) && IsModulus(p) && CurveGroup(p, b) && OnCurve(p, b, g) && OnCurve(p, b, q)
    requires c.satisfied ==> Represents(p, acc, Comb(p, m, g, n, q)) && Represents(p, term, Multiple(p, d, q))
    modifies c
    ensures Emits(c, 14073, 41)
    ensures Extends(c) && Completes(c)
    ensures c.satisfied ==> Represents(p, r, Comb(p, 16 * m, g, 16 * n + d, q))
  {
    assert p >= 2;
    CombZero(p, 0, g, d, q);
    hide Represents, OnCurve, EcAdd, Prime, IsModulus, Comb, CurveGroup, Multiple;
    r := FourDoublings(c, p, acc, b, m, g, n, q);
    r := AddMultiple(c, p, r, term, b, 16 * m, g, 16 * n, q, 0, d);
  }

  /** Sixteen times, a nibble, sixteen times, a nibble, and the generator's byte. */
  method Accumulate(
    c: Circuit, p: nat, acc: Point, qHi: Point, qLo: Point, gByte: Point,
    ghost b: int, ghost m: nat, ghost g: Affine, ghost n: nat, ghost q: Affine, ghost d1: nat, ghost hi: nat, ghost lo: nat
  ) returns (r: Point)
    requires Prime(p) && IsModulus(p) && CurveGroup(p, b) && OnCurve(p, b, g) && OnCurve(p, b, q)
    requires c.satisfied ==> Represents(p, acc, Comb(p, m, g, n, q)) && Represents(p, gByte, Multiple(p, d1, g))
    requires c.satisfied ==> Represents(p, qHi, Multiple(p, hi, q)) && Represents(p, qLo, Multiple(p, lo, q))
    modifies c
    ensures Emits(c, 33883, 107)
    ensures Extends(c) && Completes(c)
    ensures c.satisfied ==> Represents(p, r, Comb(p, 256 * m + d1, g, 256 * n + (16 * hi + lo), q))
  {
    assert p >= 2;
    CombZero(p, d1, g, 0, q);
    hide Represents, OnCurve, EcAdd, Prime, IsModulus, Comb, CurveGroup, Multiple;
    r := AppendNibble(c, p, acc, qHi, b, m, g, n, q, hi);
    r := AppendNibble(c, p, r, qLo, b, 16 * m, g, 16 * n + hi, q, lo);
    r := AddMultiple(c, p, r, gByte, b, 16 * (16 * m), g, 16 * (16 * n + hi) + lo, q, d1, 0);
  }

  /** A round's lookups and additions, from its three windows. */
  method AddWindows(
    c: Circuit, p: nat, acc: Point, d1: nat, hi: nat, lo: nat, qTable: seq<Point>, gTable: seq<(nat, nat)>,
    ghost b: int, ghost m: nat, ghost g: Affine, ghost n: nat, ghost q: Affine
  ) returns (r: Point)
    requires Prime(p) && IsModulus(p) && CurveGroup(p, b) && OnCurve(p, b, g) && OnCurve(p, b, q)
    requires d1 < 256 && hi < 16 && lo < 16 && |qTable| == 16 && IsGeneratorTable(p, gTable, g)
    requires c.satisfied ==> Multiples(p, qTable, q) && Represents(p, acc, Comb(p, m, g, n, q))
    modifies c
    ensures Emits(c, 35197, 209)
    ensures Extends(c) && Completes(c)
    ensures c.satisfied ==> Represents(p, r, Comb(p, 256 * m + d1, g, 256 * n + (16 * hi + lo), q))
  {
    assert p >= 2;
    hide Represents, OnCurve, Prime, IsModulus, Comb, CurveGroup, Multiples, IsGeneratorTable, Multiple;
    var qHi := LookupPoint(c, p, hi, qTable, q);
    var qLo := LookupPoint(c, p, lo, qTable, q);
    var gByte := LookupGeneratorByte(c, p, d1, gTable, b, g);
    r := Accumulate(c, p, acc, qHi, qLo, gByte, b, m, g, n, q, d1, hi, lo);
  }

  /** One round: eight more bits of each scalar. */
  method JointRound(
    c: Circuit, p: nat, acc: Point, u1: seq<bool>, u2: seq<bool>, start: nat, qTable: seq<Point>, gTable: seq<(nat, nat)>,
    ghost b: int, ghost g: Affine, ghost q: Affine
  ) returns (r: Point)
    requires Prime(p) && IsModulus(p) && CurveGroup(p, b) && OnCurve(p, b, g) && OnCurve(p, b, q)
    requires |u1| == |u2| == 256 && start + 8 <= 256 && |qTable| == 16 && IsGeneratorTable(p, gTable, g)
    requires c.satisfied ==> Multiples(p, qTable, q)
    requires c.satisfied ==> Represents(p, acc, Comb(p, Number(u1[start + 8..]), g, Number(u2[start + 8..]), q))
    modifies c
    ensures Emits(c, 35197, 209)
    ensures Extends(c) && Completes(c)
    ensures c.satisfied ==> Represents(p, r, Comb(p, Number(u1[start..]), g, Number(u2[start..]), q))
  {
    assert p >= 2;
    hide Represents, OnCurve, Prime, IsModulus, Comb, CurveGroup, Multiples, IsGeneratorTable, Number, Pow2;
    ghost var m, n := Number(u1[start + 8..]), Number(u2[start + 8..]);
    RoundNumbers(u1, u2, start);
    var d1 := ScalarWindow(u1, start, 8);
    var hi := ScalarWindow(u2, start + 4, 4);
    var lo := ScalarWindow(u2, start, 4);
    hide ScalarWindow;
    r := AddWindows(c, p, acc, d1, hi, lo, qTable, gTable, b, m, g, n, q);
  }

  /** A round's windows and the bits above them make the bits from its start on. */
  lemma {:induction false} RoundNumbers(u1: seq<bool>, u2: seq<bool>, start: nat)
    requires |u1| == |u2| == 256 && start + 8 <= 256
    ensures 0 <= ScalarWindow(u1, start, 8) < 256 && 0 <= ScalarWindow(u2, start, 4) < 16 && 0 <= ScalarWindow(u2, start + 4, 4) < 16
    ensures Number(u1[start..]) == 256 * Number(u1[start + 8..]) + ScalarWindow(u1, start, 8)
    ensures Number(u2[start..])
      == 256 * Number(u2[start + 8..]) + (16 * ScalarWindow(u2, start + 4, 4) + ScalarWindow(u2, start, 4))
  {
    WindowSizes();
    hide Number, Pow2;
    NextWindow(u1, start, 8);
    NextWindow(u2, start + 4, 4);
    NextWindow(u2, start, 4);
    assert start + 4 + 4 == start + 8;
  }

  lemma {:induction false} WindowSizes()
    ensures Pow2(4) == 16 && Pow2(8) == 256
  {
  }

  /** Thirty-two rounds, most significant byte first: the accumulator is the top bits' combination after each. */
  method JointScalarMul(
    c: Circuit, p: nat, u1: seq<bool>, u2: seq<bool>, q: Point, gTable: seq<(nat, nat)>,
    ghost b: int, ghost g: Affine, ghost s: Affine
  ) returns (r: Point)
    requires Prime(p) && IsModulus(p) && CurveGroup(p, b) && OnCurve(p, b, g) && OnCurve(p, b, s)
    requires |u1| == |u2| == 256 && IsGeneratorTable(p, gTable, g) && (c.satisfied ==> Represents(p, q, s))
    modifies c
    ensures Emits(c, 1206622, 7038)
    ensures Extends(c) && Completes(c)
    ensures c.satisfied ==> Represents(p, r, EcAdd(p, Multiple(p, Number(u1), g), Multiple(p, Number(u2), s)))
  {
    assert p >= 2;
    hide Represents, OnCurve, EcAdd, Prime, IsModulus, CurveGroup, Multiples, IsGeneratorTable, Multiple;
    var qTable := MaterializeMultiples(c, p, q, b, s);
    r := InfinityPoint();
    InfinityRepresents(p);
    CombZero(p, 0, g, 0, s);
    NoBitsLeft(u1);
    NoBitsLeft(u2);
    hide Comb, Number;
    for i := 0 to 32
      invariant Emits(c, 80318 + 35197 * i, 350 + 209 * i)
      invariant Extends(c) && Completes(c)
      invariant c.satisfied ==> Multiples(p, qTable, s)
      invariant c.satisfied ==> Represents(p, r, Comb(p, Number(u1[256 - 8 * i..]), g, Number(u2[256 - 8 * i..]), s))
    {
      r := JointRound(c, p, r, u1, u2, 248 - 8 * i, qTable, gTable, b, g, s);
    }
    assert u1[0..] == u1 && u2[0..] == u2;
    CombIs(p, Number(u1), g, Number(u2), s);
  }

  lemma {:induction false} NoBitsLeft(bits: seq<bool>)
    requires |bits| == 256
    ensures Number(bits[256..]) == 0
  {
  }

  lemma {:induction false} CombIs(p: nat, m: nat, g: Affine, n: nat, q: Affine)
    requires p >= 2
    ensures Comb(p, m, g, n, q) == EcAdd(p, Multiple(p, m, g), Multiple(p, n, q))
  {
  }
}
