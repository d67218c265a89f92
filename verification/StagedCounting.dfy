/** Counting over two stages of challenges: what survives the first stage, or the second one after it. */
module StagedCounting {
  import M = Montgomery
  import opened FiniteField
  import opened ChallengeCounting

  /** The vectors that start with `u`. */
  ghost function Starting(B: set<seq<Elem>>, u: seq<Elem>): set<seq<Elem>> {
    set w | w in B && |u| <= |w| && w[..|u|] == u
  }

  /** What follows `u` in them. */
  ghost function Rest(B: set<seq<Elem>>, u: seq<Elem>): set<seq<Elem>> {
    set w | w in Starting(B, u) :: w[|u|..]
  }

  lemma {:induction false} RestHas(B: set<seq<Elem>>, u: seq<Elem>, v: seq<Elem>)
    ensures v in Rest(B, u) <==> u + v in B
  {
    if v in Rest(B, u) {
      var w :| w in Starting(B, u) && v == w[|u|..];
      assert u + v == w;
    }
    if u + v in B {
      assert (u + v)[..|u|] == u && (u + v)[|u|..] == v;
      assert u + v in Starting(B, u);
    }
  }

  ghost function Prefixed(u: seq<Elem>, R: set<seq<Elem>>): set<seq<Elem>> {
    set v | v in R :: u + v
  }

  lemma {:induction false} PrefixedSize(u: seq<Elem>, R: set<seq<Elem>>)
    ensures |Prefixed(u, R)| <= |R|
    decreases |R|
  {
    if R != {} {
      var x :| x in R;
      PrefixedSize(u, R - {x});
      assert Prefixed(u, R) == Prefixed(u, R - {x}) + {u + x};
    }
  }

  lemma {:induction false} StartingSize(B: set<seq<Elem>>, u: seq<Elem>)
    ensures |Starting(B, u)| <= |Rest(B, u)|
  {
    forall w | w in Starting(B, u) ensures w in Prefixed(u, Rest(B, u)) {
      assert w == u + w[|u|..];
    }
    Subset(Starting(B, u), Prefixed(u, Rest(B, u)));
    PrefixedSize(u, Rest(B, u));
  }

  /** Few continuations after every prefix outside `A`, and any number up to `a` inside. */
  ghost predicate Continues(B: set<seq<Elem>>, S: set<seq<Elem>>, n: nat, A: set<seq<Elem>>, a: nat, c: nat) {
    && (forall w :: w in B ==> |w| >= n && w[..n] in S)
    && (forall u :: u in S ==> |u| == n && |Rest(B, u)| <= if u in A then a else c)
  }

  lemma {:induction false} WithoutPrefix(B: set<seq<Elem>>, S: set<seq<Elem>>, n: nat, A: set<seq<Elem>>, a: nat, c: nat, u: seq<Elem>)
    requires Continues(B, S, n, A, a, c) && u in S
    ensures Continues(B - Starting(B, u), S - {u}, n, A, a, c)
    ensures |B| == |B - Starting(B, u)| + |Starting(B, u)|
    ensures |Starting(B, u)| <= if u in A then a else c
  {
    hide Rest;
    var others := B - Starting(B, u);
    forall w | w in others ensures |w| >= n && w[..n] in S - {u} {
    }
    forall v | v in S - {u} ensures |v| == n && |Rest(others, v)| <= if v in A then a else c {
      assert Starting(others, v) == Starting(B, v);
      SameRest(others, B, v);
    }
    StartingSize(B, u);
  }

  lemma {:induction false} SameRest(B: set<seq<Elem>>, C: set<seq<Elem>>, u: seq<Elem>)
    requires Starting(B, u) == Starting(C, u)
    ensures Rest(B, u) == Rest(C, u)
  {
  }

  lemma {:induction false} CountPrefixes(B: set<seq<Elem>>, S: set<seq<Elem>>, n: nat, A: set<seq<Elem>>, a: nat, c: nat)
    requires Continues(B, S, n, A, a, c)
    ensures |B| <= |S * A| * a + |S| * c
    decreases |S|
  {
    if S == {} {
      NoPrefixes(B, n, A, a, c);
    } else {
      var u :| u in S;
      var rest := S - {u};
      WithoutPrefix(B, S, n, A, a, c, u);
      hide Continues;
      CountPrefixes(B - Starting(B, u), rest, n, A, a, c);
      hide Starting;
      Without(S, A, u);
      OneMore(|S * A|, |rest * A|, |S|, |rest|, a, c, |B|, u in A);
    }
  }

  lemma {:induction false} NoPrefixes(B: set<seq<Elem>>, n: nat, A: set<seq<Elem>>, a: nat, c: nat)
    requires Continues(B, {}, n, A, a, c)
    ensures |B| == 0
  {
    assert forall w :: w !in B;
  }

  lemma {:induction false} Without(S: set<seq<Elem>>, A: set<seq<Elem>>, u: seq<Elem>)
    requires u in S
    ensures |S| == |S - {u}| + 1 && |S * A| == |(S - {u}) * A| + if u in A then 1 else 0
  {
    if u in A {
      assert S * A == (S - {u}) * A + {u};
    } else {
      assert S * A == (S - {u}) * A;
    }
  }

  lemma {:induction false} OneMore(ia: nat, ia': nat, s: nat, s': nat, a: nat, c: nat, count: nat, inside: bool)
    requires s == s' + 1 && ia == ia' + (if inside then 1 else 0)
    requires count <= ia' * a + s' * c + (if inside then a else c)
    ensures count <= ia * a + s * c
  {
    M.PlusTimes(s', 1, c);
    M.PlusTimes(ia', 1, a);
  }

  lemma {:induction false} PowerSum(b: nat, x: nat, y: nat)
    ensures Power(b, x + y) == Power(b, x) * Power(b, y)
  {
    if x > 0 {
      PowerSum(b, x - 1, y);
      M.Assoc(b, Power(b, x - 1), Power(b, y));
    }
  }

  /** Two stages: vectors whose first stage is in `A`, few, or whose second stage is among the few
      continuations of a first stage that is not. */
  lemma {:induction false} TwoStages(K: Field, n: nat, m: nat, B: set<seq<Elem>>, A: set<seq<Elem>>, kA: nat, kC: nat)
    requires K.Valid() && m > 0 && AtMost(K, n, A, kA)
    requires B <= Vectors(K, n + m)
    requires forall u :: u in Vectors(K, n) && u !in A ==> AtMost(K, m, Rest(B, u), kC)
    ensures AtMost(K, n + m, B, kA + kC)
  {
    hide Vectors, Power;
    var N, S := |K.elems|, Vectors(K, n);
    VectorCount(K, n);
    VectorCount(K, m);
    VectorCount(K, n + m);
    var a, c := Power(N, m), kC * Power(N, m - 1);
    forall w | w in B ensures |w| >= n && w[..n] in S {
      VectorsAreAll(K, n + m, w);
      VectorsAreAll(K, n, w[..n]);
    }
    forall u | u in S ensures |u| == n && |Rest(B, u)| <= if u in A then a else c {
      VectorsAreAll(K, n, u);
      RestInside(K, n, m, B, u);
      Subset(Rest(B, u), Vectors(K, m));
    }
    CountPrefixes(B, S, n, A, a, c);
    Subset(S * A, A);
    Combined(N, n, m, |B|, |S * A|, kA, kC);
  }

  lemma {:induction false} RestInside(K: Field, n: nat, m: nat, B: set<seq<Elem>>, u: seq<Elem>)
    requires K.Valid() && B <= Vectors(K, n + m) && |u| == n
    ensures Rest(B, u) <= Vectors(K, m)
  {
    forall v | v in Rest(B, u) ensures v in Vectors(K, m) {
      var w :| w in Starting(B, u) && v == w[|u|..];
      VectorsAreAll(K, n + m, w);
      VectorsAreAll(K, m, v);
    }
  }

  lemma {:induction false} Combined(N: nat, n: nat, m: nat, count: nat, inside: nat, kA: nat, kC: nat)
    requires m > 0 && (n == 0 ==> inside == 0) && (n > 0 ==> inside <= kA * Power(N, n - 1))
    requires count <= inside * Power(N, m) + Power(N, n) * (kC * Power(N, m - 1))
    ensures count <= (kA + kC) * Power(N, n + m - 1)
  {
    hide Power;
    var p := Power(N, n + m - 1);
    PowerSum(N, n, m - 1);
    Reordered(Power(N, n), kC, Power(N, m - 1));
    if n > 0 {
      PowerSum(N, n - 1, m);
      M.ProductMonotone(inside, kA * Power(N, n - 1), Power(N, m));
      M.Assoc(kA, Power(N, n - 1), Power(N, m));
    } else {
      M.ProductMonotone(0, kA, p);
    }
    M.PlusTimes(kA, kC, p);
  }

  lemma {:induction false} Reordered(x: nat, y: nat, z: nat)
    ensures x * (y * z) == y * (x * z)
  {
  }
}
