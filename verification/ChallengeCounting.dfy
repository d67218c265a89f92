/** Counting challenge vectors: how many of the N^n vectors let a prover that starts from a lie
    end without one, whatever adaptive strategy it follows. */
module ChallengeCounting {
  import opened FiniteField

  ghost function Power(b: nat, n: nat): nat {
    if n == 0 then 1 else b * Power(b, n - 1)
  }

  ghost function Total(d: seq<nat>): nat {
    if d == [] then 0 else Total(d[..|d| - 1]) + d[|d| - 1]
  }

  /** The vectors of `S`, each followed by one of its own continuations. */
  ghost function Extensions(S: set<seq<Elem>>, C: seq<Elem> -> set<Elem>): set<seq<Elem>> {
    set v, c | v in S && c in C(v) :: v + [c]
  }

  ghost function Vectors(K: Field, n: nat): set<seq<Elem>> {
    if n == 0 then {[]} else Extensions(Vectors(K, n - 1), v => K.elems)
  }

  lemma {:induction false} VectorsAreAll(K: Field, n: nat, v: seq<Elem>)
    requires K.Valid()
    ensures v in Vectors(K, n) <==> |v| == n
  {
    if n == 0 {
    } else if |v| > 0 {
      var u := v[..|v| - 1];
      VectorsAreAll(K, n - 1, u);
      assert v == u + [v[|v| - 1]];
      assert K.Listed(v[|v| - 1]);
      if v in Vectors(K, n) {
        var u', c :| u' in Vectors(K, n - 1) && c in K.elems && v == u' + [c];
        assert u' == u;
      }
    }
  }

  ghost function Continued(v: seq<Elem>, C: set<Elem>): set<seq<Elem>> {
    set c | c in C :: v + [c]
  }

  lemma {:induction false} Parts(v: seq<Elem>, c: Elem)
    ensures (v + [c])[..|v|] == v && (v + [c])[|v|] == c
  {
  }

  lemma {:induction false} ContinuedSize(v: seq<Elem>, C: set<Elem>)
    ensures |Continued(v, C)| == |C|
  {
    if C != {} {
      var x :| x in C;
      ContinuedSize(v, C - {x});
      assert Continued(v, C) == Continued(v, C - {x}) + {v + [x]};
      forall c | c in C - {x} ensures v + [c] != v + [x] {
        Parts(v, c);
        Parts(v, x);
      }
      assert v + [x] !in Continued(v, C - {x});
    }
  }

  lemma {:induction false} ExtensionsSplit(S: set<seq<Elem>>, C: seq<Elem> -> set<Elem>, u: seq<Elem>)
    requires u in S
    ensures |Extensions(S, C)| == |Extensions(S - {u}, C)| + |C(u)|
  {
    var rest, own := Extensions(S - {u}, C), Continued(u, C(u));
    assert Extensions(S, C) == rest + own;
    forall v, c, x | v in S - {u} ensures v + [c] != u + [x] {
      Parts(v, c);
      Parts(u, x);
    }
    assert rest !! own;
    ContinuedSize(u, C(u));
  }

  lemma {:induction false} ExtensionsAtMost(S: set<seq<Elem>>, C: seq<Elem> -> set<Elem>, k: nat)
    requires forall v :: v in S ==> |C(v)| <= k
    ensures |Extensions(S, C)| <= |S| * k
    decreases |S|
  {
    if S != {} {
      var u :| u in S;
      ExtensionsAtMost(S - {u}, C, k);
      ExtensionsSplit(S, C, u);
      Successor(|S - {u}|, k);
    }
  }

  lemma {:induction false} ExtensionsExactly(S: set<seq<Elem>>, C: seq<Elem> -> set<Elem>, k: nat)
    requires forall v :: v in S ==> |C(v)| == k
    ensures |Extensions(S, C)| == |S| * k
    decreases |S|
  {
    if S != {} {
      var u :| u in S;
      ExtensionsExactly(S - {u}, C, k);
      ExtensionsSplit(S, C, u);
      Successor(|S - {u}|, k);
    }
  }

  lemma {:induction false} Successor(n: nat, k: nat)
    ensures (n + 1) * k == n * k + k
  {
  }

  lemma {:induction false} VectorCount(K: Field, n: nat)
    ensures |Vectors(K, n)| == Power(|K.elems|, n)
  {
    if n > 0 {
      VectorCount(K, n - 1);
      ExtensionsExactly(Vectors(K, n - 1), v => K.elems, |K.elems|);
    }
  }

  /** The vectors after which the prover is no longer lying. */
  ghost function Escapes(K: Field, n: nat, lie: seq<Elem> -> bool): set<seq<Elem>> {
    set v | v in Vectors(K, n) && !lie(v)
  }

  /** The challenges that turn a lie after `v` into a truth. */
  ghost function Lucky(K: Field, lie: seq<Elem> -> bool, v: seq<Elem>): set<Elem> {
    set c | c in K.elems && !lie(v + [c])
  }

  ghost function Lying(K: Field, n: nat, lie: seq<Elem> -> bool): set<seq<Elem>> {
    set v | v in Vectors(K, n) && lie(v)
  }

  /** A run escapes either before its last challenge or at it. */
  lemma {:induction false} EscapesSplit(K: Field, m: nat, lie: seq<Elem> -> bool)
    ensures Escapes(K, m + 1, lie) <=
      Extensions(Escapes(K, m, lie), v => K.elems) + Extensions(Lying(K, m, lie), v => Lucky(K, lie, v))
  {
    var E := Escapes(K, m + 1, lie);
    forall w | w in E
      ensures w in Extensions(Escapes(K, m, lie), v => K.elems)
           || w in Extensions(Lying(K, m, lie), v => Lucky(K, lie, v))
    {
      var v, c :| v in Vectors(K, m) && c in K.elems && w == v + [c];
      assert if lie(v) then v in Lying(K, m, lie) && c in Lucky(K, lie, v) else v in Escapes(K, m, lie);
    }
  }

  lemma {:induction false} EscapeStep(K: Field, m: nat, lie: seq<Elem> -> bool, k: nat)
    requires K.Valid()
    requires forall v: seq<Elem> :: |v| == m && lie(v) ==> |Lucky(K, lie, v)| <= k
    ensures |Escapes(K, m + 1, lie)| <= |Escapes(K, m, lie)| * |K.elems| + Power(|K.elems|, m) * k
  {
    var lucky, all := (v: seq<Elem>) => Lucky(K, lie, v), (v: seq<Elem>) => K.elems;
    ExtensionsAtMost(Escapes(K, m, lie), all, |K.elems|);
    forall v | v in Lying(K, m, lie) ensures |lucky(v)| <= k {
      VectorsAreAll(K, m, v);
    }
    ExtensionsAtMost(Lying(K, m, lie), lucky, k);
    Subset(Lying(K, m, lie), Vectors(K, m));
    VectorCount(K, m);
    Monotone(|Lying(K, m, lie)|, Power(|K.elems|, m), k);
    EscapesSplit(K, m, lie);
    var E1, E2 := Extensions(Escapes(K, m, lie), all), Extensions(Lying(K, m, lie), lucky);
    UnionSize(E1, E2);
    Subset(Escapes(K, m + 1, lie), E1 + E2);
  }

  /** After a lying prefix of length `i < n` at most `d[i]` challenges are lucky. */
  ghost predicate LuckyAtMost(K: Field, n: nat, lie: seq<Elem> -> bool, d: seq<nat>)
    requires |d| == n
  {
    forall v: seq<Elem> {:trigger Lucky(K, lie, v)} :: |v| < n && lie(v) ==> |Lucky(K, lie, v)| <= d[|v|]
  }

  /** `D` holds at most `bound N^(n-1)` of the `N^n` challenge vectors; with no challenge, none. */
  ghost predicate AtMost(K: Field, n: nat, D: set<seq<Elem>>, bound: nat) {
    && |Vectors(K, n)| == Power(|K.elems|, n)
    && (n == 0 ==> D == {})
    && (n > 0 ==> |D| <= bound * Power(|K.elems|, n - 1))
  }

  lemma {:induction false} SubsetAtMost(K: Field, n: nat, D: set<seq<Elem>>, E: set<seq<Elem>>, bound: nat)
    requires AtMost(K, n, E, bound) && D <= E
    ensures AtMost(K, n, D, bound)
  {
    Subset(D, E);
  }

  lemma {:induction false} LuckyPrefix(K: Field, n: nat, lie: seq<Elem> -> bool, d: seq<nat>, m: nat)
    requires |d| == n == m + 1 && LuckyAtMost(K, n, lie, d)
    ensures LuckyAtMost(K, m, lie, d[..m])
    ensures forall v: seq<Elem> :: |v| == m && lie(v) ==> |Lucky(K, lie, v)| <= d[m]
  {
    hide Lucky;
  }

  /** If after every lying prefix at most `d[i]` challenges are lucky, the whole run escapes on at
      most `(d[0] + ... + d[n-1]) N^(n-1)` of the `N^n` challenge vectors. */
  lemma {:induction false} EscapeBound(K: Field, n: nat, lie: seq<Elem> -> bool, d: seq<nat>, bound: nat)
    requires K.Valid() && |d| == n && lie([])
    requires LuckyAtMost(K, n, lie, d) && Total(d) == bound
    ensures AtMost(K, n, Escapes(K, n, lie), bound)
  {
    var N := |K.elems|;
    VectorCount(K, n);
    if n > 0 {
      var m := n - 1;
      LuckyPrefix(K, n, lie, d, m);
      hide LuckyAtMost, Lucky, Escapes, Vectors, Power;
      EscapeBound(K, m, lie, d[..m], Total(d[..m]));
      EscapeStep(K, m, lie, d[m]);
      if m > 0 {
        Accumulate(|Escapes(K, m, lie)|, |Escapes(K, n, lie)|, Total(d[..m]), d[m], Power(N, m - 1), N);
      }
    }
  }

  lemma {:induction false} Accumulate(e: nat, e': nat, t: nat, k: nat, p: nat, n: nat)
    requires e <= t * p && e' <= e * n + (n * p) * k
    ensures e' <= (t + k) * (n * p)
  {
    Monotone(e, t * p, n);
    assert t * p * n == t * (n * p);
  }

  lemma {:induction false} Monotone(a: nat, b: nat, k: nat)
    requires a <= b
    ensures a * k <= b * k
  {
  }

  lemma {:induction false} Subset<T>(A: set<T>, B: set<T>)
    requires A <= B
    ensures |A| <= |B|
  {
    assert B == A + (B - A);
  }

  lemma {:induction false} UnionSize<T>(A: set<T>, B: set<T>)
    ensures |A + B| <= |A| + |B|
  {
    assert A + B == A + (B - A);
    Subset(B - A, B);
  }
}
