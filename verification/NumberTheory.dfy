/** Primes: products without zero divisors, Fermat's little theorem, square roots of one. */
module NumberTheory {
  import M = Montgomery

  predicate Divides(d: nat, n: int)
    requires d > 0
  {
    n % d == 0
  }

  ghost predicate Prime(p: nat) {
    p >= 2 && forall d: nat :: 2 <= d < p ==> !Divides(d, p)
  }

  function Power(base: nat, exponent: nat): nat {
    if exponent == 0 then 1 else base * Power(base, exponent - 1)
  }

  lemma {:induction false} PowerSum(base: nat, a: nat, b: nat)
    ensures Power(base, a + b) == Power(base, a) * Power(base, b)
  {
    if a > 0 {
      PowerSum(base, a - 1, b);
      M.Assoc(base, Power(base, a - 1), Power(base, b));
    }
  }

  // ---------------------------------------------------------------- residues

  /** A product may be reduced factor by factor. */
  lemma {:induction false} ReduceFactor(a: int, b: int, m: nat)
    requires m > 0
    ensures (a * b) % m == ((a % m) * b) % m
  {
    assert a * b == (a % m) * b + (a / m * b) * m by {
      M.PlusTimes(a / m * m, a % m, b);
      Commuted(a / m, m, b);
    }
    Shift((a % m) * b, a / m * b, m);
  }

  lemma {:induction false} Commuted(x: int, y: int, z: int)
    ensures x * y * z == x * z * y
  {
  }

  lemma {:induction false} Shift(a: int, k: int, m: nat)
    requires m > 0
    ensures (a + k * m) % m == a % m
  {
    var q := a / m;
    M.PlusTimes(q, k, m);
    M.ModUnique(a + k * m, q + k, a % m, m);
  }

  lemma {:induction false} ReduceBoth(a: int, b: int, m: nat)
    requires m > 0
    ensures (a * b) % m == ((a % m) * (b % m)) % m
  {
    var x, y := a % m, b % m;
    ReduceFactor(a, b, m);
    ReduceFactor(b, x, m);
    Swapped(x, b);
    Swapped(y, x);
  }

  lemma {:induction false} Swapped(x: int, y: int)
    ensures x * y == y * x
  {
  }

  lemma {:induction false} DifferenceDivides(a: int, b: int, m: nat)
    requires m > 0
    ensures (a - b) % m == 0 <==> a % m == b % m
  {
    var k := a / m - b / m;
    M.SubTimes(a / m, b / m, m);
    assert a - b == (a % m - b % m) + k * m;
    Shift(a % m - b % m, k, m);
    SmallDifference(a % m, b % m, m);
  }

  lemma {:induction false} SmallDifference(r: nat, s: nat, m: nat)
    requires r < m && s < m
    ensures (r - s) % m == 0 <==> r == s
  {
    if r < s { M.ModUnique(r - s, -1, r - s + m, m); }
  }

  // ---------------------------------------------------------------- no zero divisors

  /** A prime dividing a product divides a factor. */
  lemma {:induction false} NoZeroDivisors(p: nat, a: int, b: int)
    requires Prime(p) && Divides(p, a * b)
    ensures Divides(p, a) || Divides(p, b)
  {
    ReduceFactor(a, b, p);
    if a % p > 0 { Descent(p, a % p, b); }
  }

  lemma {:induction false} Descent(p: nat, a: nat, b: int)
    requires Prime(p) && 0 < a < p && Divides(p, a * b)
    ensures Divides(p, b)
    decreases a
  {
    if a > 1 {
      var k, r := p / a, p % a;
      assert !Divides(a, p);
      assert r * b == b * p + (0 - k) * (a * b) by {
        M.PlusTimes(k * a, r, b);
        M.Assoc(k, a, b);
        M.NegTimes(k, a * b);
      }
      var n := a * b / p;
      assert (0 - k) * (a * b) == ((0 - k) * n) * p by { M.Assoc(0 - k, n, p); }
      M.PlusTimes(b, (0 - k) * n, p);
      M.MultipleMod(b + (0 - k) * n, p);
      Descent(p, r, b);
    }
  }

  /** A factor prime to the modulus may be cancelled. */
  lemma {:induction false} Cancel(p: nat, a: int, b: int, c: int)
    requires Prime(p) && !Divides(p, c) && (a * c) % p == (b * c) % p
    ensures a % p == b % p
  {
    M.SubTimes(a, b, c);
    DifferenceDivides(a * c, b * c, p);
    NoZeroDivisors(p, a - b, c);
    DifferenceDivides(a, b, p);
  }

  // ---------------------------------------------------------------- Fermat's little theorem

  ghost function Least(s: set<nat>): (x: nat)
    requires s != {}
    ensures x in s
  {
    var x :| x in s;
    x
  }

  /** The product of a finite set. */
  ghost function Product(s: set<nat>): nat {
    if s == {} then 1 else Least(s) * Product(s - {Least(s)})
  }

  lemma {:induction false} ProductWith(s: set<nat>, x: nat)
    requires x in s
    ensures Product(s) == x * Product(s - {x})
    decreases |s|
  {
    var y := Least(s);
    if x != y {
      ProductWith(s - {y}, x);
      ProductWith(s - {x}, y);
      assert s - {y} - {x} == s - {x} - {y};
      Swap(y, x, Product(s - {y} - {x}));
    }
  }

  lemma {:induction false} Swap(x: int, y: int, z: int)
    ensures x * (y * z) == y * (x * z)
  {
  }

  /** The nonzero residues. */
  ghost function Units(p: nat): set<nat> {
    if p <= 1 then {} else Units(p - 1) + {p - 1}
  }

  lemma {:induction false} UnitsAre(p: nat)
    requires p > 0
    ensures |Units(p)| == p - 1 && forall x: nat :: x in Units(p) <==> 1 <= x < p
  {
    if p > 1 { UnitsAre(p - 1); }
  }

  function Times(a: nat, x: nat, p: nat): nat
    requires p > 0
  {
    a * x % p
  }

  /** A set of residues multiplied by `a`. */
  ghost function Scaled(s: set<nat>, a: nat, p: nat): set<nat>
    requires p > 0
  {
    set x | x in s :: Times(a, x, p)
  }

  ghost predicate AreUnits(s: set<nat>, p: nat) {
    forall x: nat :: x in s ==> 1 <= x < p
  }

  lemma {:induction false} Injective(a: nat, x: nat, y: nat, p: nat)
    requires Prime(p) && !Divides(p, a) && 1 <= x < p && 1 <= y < p && Times(a, x, p) == Times(a, y, p)
    ensures x == y
  {
    hide Prime, Divides;
    assert (x * a) % p == (y * a) % p;
    Cancel(p, x, y, a);
    M.ModUnique(x, 0, x, p);
    M.ModUnique(y, 0, y, p);
  }

  lemma {:induction false} ScaledWith(s: set<nat>, a: nat, p: nat, x: nat)
    requires Prime(p) && !Divides(p, a) && AreUnits(s, p) && x in s
    ensures Times(a, x, p) in Scaled(s, a, p) && Scaled(s, a, p) - {Times(a, x, p)} == Scaled(s - {x}, a, p)
  {
    hide Times, Prime, Divides;
    forall y | y in s - {x} ensures Times(a, y, p) != Times(a, x, p) {
      if Times(a, y, p) == Times(a, x, p) { Injective(a, x, y, p); }
    }
  }

  ghost predicate SameResidue(a: int, b: int, p: nat)
    requires p > 0
  {
    a % p == b % p
  }

  /** Scaling by a unit keeps the size and multiplies the product by that many powers. */
  lemma {:induction false} ScaledProduct(s: set<nat>, a: nat, p: nat)
    requires Prime(p) && !Divides(p, a) && AreUnits(s, p)
    ensures |Scaled(s, a, p)| == |s|
    ensures SameResidue(Product(Scaled(s, a, p)), Power(a, |s|) * Product(s), p)
    decreases |s|
  {
    if s == {} {
      assert Scaled(s, a, p) == {};
    } else {
      var x := Least(s);
      ScaledProduct(s - {x}, a, p);
      ScaledOne(s, a, p, x);
    }
  }

  lemma {:induction false} ScaledOne(s: set<nat>, a: nat, p: nat, x: nat)
    requires Prime(p) && !Divides(p, a) && AreUnits(s, p) && x in s && Product(s) == x * Product(s - {x})
    requires |Scaled(s - {x}, a, p)| == |s - {x}|
    requires SameResidue(Product(Scaled(s - {x}, a, p)), Power(a, |s - {x}|) * Product(s - {x}), p)
    ensures |Scaled(s, a, p)| == |s|
    ensures SameResidue(Product(Scaled(s, a, p)), Power(a, |s|) * Product(s), p)
  {
    assert |s| == |s - {x}| + 1;
    assert Power(a, |s|) == a * Power(a, |s - {x}|);
    hide Prime, Divides, Scaled, Power, Product, AreUnits;
    ScaledWith(s, a, p, x);
    ProductWith(Scaled(s, a, p), Times(a, x, p));
    ScaledStep(a, x, p, Product(Scaled(s - {x}, a, p)), Power(a, |s - {x}|), Product(s - {x}));
  }

  lemma {:induction false} ScaledStep(a: nat, x: nat, p: nat, scaled: nat, power: nat, product: nat)
    requires p > 0 && scaled % p == (power * product) % p
    ensures (Times(a, x, p) * scaled) % p == ((a * power) * (x * product)) % p
  {
    ReduceFactor(a * x, scaled, p);
    ReduceBoth(a * x, scaled, p);
    ReduceBoth(a * x, power * product, p);
    Exchange(a, x, power, product);
  }

  lemma {:induction false} Exchange(a: int, b: int, c: int, d: int)
    ensures (a * b) * (c * d) == (a * c) * (b * d)
  {
    M.Assoc(a, b, c * d);
    M.Assoc(a, c, b * d);
    Swap(b, c, d);
  }

  lemma {:induction false} TimesIsUnit(a: nat, x: nat, p: nat)
    requires Prime(p) && !Divides(p, a) && 1 <= x < p
    ensures 1 <= Times(a, x, p) < p
  {
    if Times(a, x, p) == 0 {
      NoZeroDivisors(p, a, x);
      M.ModUnique(x, 0, x, p);
    }
  }

  lemma {:induction false} ScaledUnits(a: nat, p: nat)
    requires Prime(p) && !Divides(p, a)
    ensures Scaled(Units(p), a, p) == Units(p)
  {
    assert p >= 2;
    UnitsAre(p);
    hide Prime, Divides, Times, Units, Product, Power;
    forall y | y in Scaled(Units(p), a, p) ensures y in Units(p) {
      var x :| x in Units(p) && y == Times(a, x, p);
      TimesIsUnit(a, x, p);
    }
    hide Scaled;
    ScaledProduct(Units(p), a, p);
    SubsetSameSize(Scaled(Units(p), a, p), Units(p));
  }

  lemma {:induction false} SubsetSameSize(s: set<nat>, t: set<nat>)
    requires s <= t && |s| == |t|
    ensures s == t
  {
    assert |t - s| == |t| - |s|;
    assert t == s + (t - s);
  }

  lemma {:induction false} ProductOfUnits(s: set<nat>, p: nat)
    requires Prime(p) && AreUnits(s, p)
    ensures !Divides(p, Product(s))
    decreases |s|
  {
    if s == {} {
      SmallResidue(p);
    } else {
      var x := Least(s);
      ProductOfUnits(s - {x}, p);
      NotAMultiple(p, x, Product(s - {x}));
    }
  }

  lemma {:induction false} NotAMultiple(p: nat, x: nat, y: nat)
    requires Prime(p) && 1 <= x < p && !Divides(p, y)
    ensures !Divides(p, x * y)
  {
    M.ModUnique(x, 0, x, p);
    if Divides(p, x * y) { NoZeroDivisors(p, x, y); }
  }

  /** Fermat's little theorem. */
  lemma {:induction false} Fermat(p: nat, a: nat)
    requires Prime(p) && !Divides(p, a)
    ensures Power(a, p - 1) % p == 1
  {
    ScaledUnits(a, p);
    UnitsAre(p);
    var units := Units(p);
    assert AreUnits(units, p);
    hide Prime, Power, Divides, Product, Scaled, Units;
    UnitsProduct(p, a, units);
    CancelProduct(p, Power(a, p - 1), Product(units));
  }

  /** Scaling permutes the units, so it keeps their product. */
  lemma {:induction false} UnitsProduct(p: nat, a: nat, units: set<nat>)
    requires Prime(p) && !Divides(p, a)
    requires AreUnits(units, p) && |units| == p - 1 && Scaled(units, a, p) == units
    ensures !Divides(p, Product(units)) && SameResidue(Product(units), Power(a, p - 1) * Product(units), p)
  {
    hide Prime, Divides, Times, Product, Scaled, Power, SameResidue, AreUnits;
    ScaledProduct(units, a, p);
    ProductOfUnits(units, p);
  }

  lemma {:induction false} CancelProduct(p: nat, power: nat, product: nat)
    requires Prime(p) && !Divides(p, product) && SameResidue(product, power * product, p)
    ensures power % p == 1
  {
    SmallResidue(p);
    hide Prime, Divides;
    assert 1 * product == product;
    Cancel(p, power, 1, product);
  }

  lemma {:induction false} SmallResidue(p: nat)
    requires Prime(p)
    ensures 1 % p == 1
  {
    M.ModUnique(1, 0, 1, p);
  }

  // ---------------------------------------------------------------- square roots of one

  lemma {:induction false} RootsOfOne(p: nat, w: nat)
    requires Prime(p) && w < p && (w * w) % p == 1
    ensures w == 1 || w == p - 1
  {
    SmallResidue(p);
    hide Prime;
    assert Divides(p, (w - 1) * (w + 1)) by {
      DifferenceDivides(w * w, 1, p);
      DifferenceOfSquares(w);
    }
    NoZeroDivisors(p, w - 1, w + 1);
    hide Divides;
    OneOrMinusOne(p, w);
  }

  lemma {:induction false} OneOrMinusOne(p: nat, w: nat)
    requires p >= 2 && w < p
    ensures Divides(p, w - 1) ==> w == 1
    ensures Divides(p, w + 1) ==> w == p - 1
  {
    M.ModUnique(w, 0, w, p);
    M.ModUnique(1, 0, 1, p);
    DifferenceDivides(w, 1, p);
    DifferenceDivides(w, -1, p);
    M.ModUnique(-1, -1, p - 1, p);
  }

  lemma {:induction false} DifferenceOfSquares(w: int)
    ensures w * w - 1 == (w - 1) * (w + 1)
  {
  }
}
