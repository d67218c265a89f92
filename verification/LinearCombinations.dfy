/** Sorted sparse linear combinations, over the integers and over two elements, and their merge. */
module LinearCombinations {

  type Entries = seq<(nat, int)>

  ghost predicate Sorted(e: Entries) {
    forall i, k :: 0 <= i < k < |e| ==> e[i].0 < e[k].0
  }

  ghost predicate NonZeroEntries(e: Entries) {
    forall i :: 0 <= i < |e| ==> e[i].1 != 0
  }

  ghost predicate Canonical(e: Entries) {
    Sorted(e) && NonZeroEntries(e)
  }

  /** The total coefficient at one index. */
  function EntryAt(e: Entries, c: nat): int {
    if |e| == 0 then 0
    else EntryAt(e[..|e| - 1], c) + (if e[|e| - 1].0 == c then e[|e| - 1].1 else 0)
  }

  lemma {:induction false} EntryConcat(a: Entries, b: Entries, c: nat)
    ensures EntryAt(a + b, c) == EntryAt(a, c) + EntryAt(b, c)
    decreases |b|
  {
    if |b| == 0 {
      assert a + b == a;
    } else {
      EntryConcat(a, b[..|b| - 1], c);
      assert (a + b)[..|a + b| - 1] == a + b[..|b| - 1];
    }
  }

  lemma {:induction false} EntryNext(e: Entries, i: nat, c: nat)
    requires i < |e|
    ensures EntryAt(e[..i + 1], c) == EntryAt(e[..i], c) + (if e[i].0 == c then e[i].1 else 0)
  {
    assert e[..i + 1][..i] == e[..i];
  }

  lemma {:induction false} EntrySplit(e: Entries, i: nat, c: nat)
    requires i <= |e|
    ensures EntryAt(e, c) == EntryAt(e[..i], c) + EntryAt(e[i..], c)
  {
    EntryConcat(e[..i], e[i..], c);
    assert e[..i] + e[i..] == e;
  }

  lemma {:induction false} EntryAppend(e: Entries, last: (nat, int), c: nat)
    ensures EntryAt(e + [last], c) == EntryAt(e, c) + (if last.0 == c then last.1 else 0)
  {
    assert (e + [last])[..|e|] == e;
  }

  /** In a sorted combination the total coefficient is the entry itself. */
  lemma {:induction false} EntryUnique(e: Entries, i: nat)
    requires Sorted(e) && i < |e|
    ensures EntryAt(e, e[i].0) == e[i].1
  {
    var n := |e| - 1;
    if i < n {
      EntryUnique(e[..n], i);
    } else {
      EntryAbsent(e[..n], e[i].0);
    }
  }

  lemma {:induction false} EntryAbsent(e: Entries, c: nat)
    requires forall i :: 0 <= i < |e| ==> e[i].0 != c
    ensures EntryAt(e, c) == 0
  {
    if |e| > 0 { EntryAbsent(e[..|e| - 1], c); }
  }

  /** The merge so far: canonical, below what is left of both sides, and exact. */
  ghost predicate Merging(lhs: Entries, rhs: Entries, i: nat, k: nat, merged: Entries) {
    && i <= |lhs| && k <= |rhs| && Canonical(merged)
    && (forall m :: 0 <= m < |merged| ==> (i < |lhs| ==> merged[m].0 < lhs[i].0) && (k < |rhs| ==> merged[m].0 < rhs[k].0))
    && (forall c :: EntryAt(merged, c) == EntryAt(lhs[..i], c) + EntryAt(rhs[..k], c))
  }

  lemma {:induction false} MergeOne(merged: Entries, last: (nat, int))
    requires Canonical(merged) && last.1 != 0 && forall m :: 0 <= m < |merged| ==> merged[m].0 < last.0
    ensures Canonical(merged + [last])
  {
  }

  lemma {:induction false} MergeLeft(lhs: Entries, rhs: Entries, i: nat, k: nat, merged: Entries)
    requires Canonical(lhs) && Merging(lhs, rhs, i, k, merged) && i < |lhs| && (k < |rhs| ==> lhs[i].0 < rhs[k].0)
    ensures Merging(lhs, rhs, i + 1, k, merged + [lhs[i]])
  {
    hide EntryAt;
    MergeOne(merged, lhs[i]);
    forall c ensures EntryAt(merged + [lhs[i]], c) == EntryAt(lhs[..i + 1], c) + EntryAt(rhs[..k], c) {
      EntryAppend(merged, lhs[i], c);
      EntryNext(lhs, i, c);
    }
  }

  lemma {:induction false} MergeRight(lhs: Entries, rhs: Entries, i: nat, k: nat, merged: Entries)
    requires Canonical(rhs) && Merging(lhs, rhs, i, k, merged) && k < |rhs| && (i < |lhs| ==> rhs[k].0 < lhs[i].0)
    ensures Merging(lhs, rhs, i, k + 1, merged + [rhs[k]])
  {
    hide EntryAt;
    MergeOne(merged, rhs[k]);
    forall c ensures EntryAt(merged + [rhs[k]], c) == EntryAt(lhs[..i], c) + EntryAt(rhs[..k + 1], c) {
      EntryAppend(merged, rhs[k], c);
      EntryNext(rhs, k, c);
    }
  }

  lemma {:induction false} MergeBoth(lhs: Entries, rhs: Entries, i: nat, k: nat, merged: Entries)
    requires Canonical(lhs) && Canonical(rhs) && Merging(lhs, rhs, i, k, merged)
    requires i < |lhs| && k < |rhs| && lhs[i].0 == rhs[k].0
    ensures var sum := lhs[i].1 + rhs[k].1;
      Merging(lhs, rhs, i + 1, k + 1, if sum == 0 then merged else merged + [(lhs[i].0, sum)])
  {
    hide EntryAt;
    var sum := lhs[i].1 + rhs[k].1;
    var after := if sum == 0 then merged else merged + [(lhs[i].0, sum)];
    if sum != 0 { MergeOne(merged, (lhs[i].0, sum)); }
    forall c ensures EntryAt(after, c) == EntryAt(lhs[..i + 1], c) + EntryAt(rhs[..k + 1], c) {
      if sum != 0 { EntryAppend(merged, (lhs[i].0, sum), c); }
      EntryNext(lhs, i, c);
      EntryNext(rhs, k, c);
    }
  }

  /** What is left of one side follows the merge. */
  lemma {:induction false} MergeRest(lhs: Entries, rhs: Entries, i: nat, k: nat, merged: Entries)
    requires Canonical(lhs) && Canonical(rhs) && Merging(lhs, rhs, i, k, merged) && (i == |lhs| || k == |rhs|)
    ensures Canonical(merged + lhs[i..] + rhs[k..])
    ensures forall c :: EntryAt(merged + lhs[i..] + rhs[k..], c) == EntryAt(lhs, c) + EntryAt(rhs, c)
  {
    hide EntryAt;
    var rest := if i == |lhs| then rhs[k..] else lhs[i..];
    assert merged + lhs[i..] + rhs[k..] == merged + rest;
    assert Canonical(merged + rest) by { FollowsSorted(merged, rest); }
    forall c ensures EntryAt(merged + lhs[i..] + rhs[k..], c) == EntryAt(lhs, c) + EntryAt(rhs, c) {
      EntryConcat(merged + lhs[i..], rhs[k..], c);
      EntryConcat(merged, lhs[i..], c);
      EntrySplit(lhs, i, c);
      EntrySplit(rhs, k, c);
    }
  }

  lemma {:induction false} FollowsSorted(a: Entries, b: Entries)
    requires Canonical(a) && Canonical(b)
    requires |b| > 0 ==> forall m :: 0 <= m < |a| ==> a[m].0 < b[0].0
    ensures Canonical(a + b)
  {
  }

  /** Adds two canonical combinations: disjoint ranges concatenate, others merge, and a coefficient that
      cancels is dropped. */
  method MergeSorted(lhs: Entries, rhs: Entries) returns (merged: Entries)
    requires Canonical(lhs) && Canonical(rhs)
    ensures Canonical(merged)
    ensures forall c :: EntryAt(merged, c) == EntryAt(lhs, c) + EntryAt(rhs, c)
  {
    hide EntryAt, Merging;
    if |lhs| == 0 { NoEntry(lhs); return rhs; }
    if |rhs| == 0 { NoEntry(rhs); return lhs; }
    if lhs[|lhs| - 1].0 < rhs[0].0 { Concatenated(lhs, rhs); return lhs + rhs; }
    if rhs[|rhs| - 1].0 < lhs[0].0 { Concatenated(rhs, lhs); return rhs + lhs; }
    merged := [];
    var i, k := 0, 0;
    MergeStart(lhs, rhs);
    while i < |lhs| && k < |rhs|
      invariant 0 <= i <= |lhs| && 0 <= k <= |rhs| && Merging(lhs, rhs, i, k, merged)
      decreases |lhs| - i + |rhs| - k
    {
      if lhs[i].0 < rhs[k].0 {
        MergeLeft(lhs, rhs, i, k, merged);
        merged, i := merged + [lhs[i]], i + 1;
      } else if rhs[k].0 < lhs[i].0 {
        MergeRight(lhs, rhs, i, k, merged);
        merged, k := merged + [rhs[k]], k + 1;
      } else {
        MergeBoth(lhs, rhs, i, k, merged);
        var sum := lhs[i].1 + rhs[k].1;
        if sum != 0 { merged := merged + [(lhs[i].0, sum)]; }
        i, k := i + 1, k + 1;
      }
    }
    MergeRest(lhs, rhs, i, k, merged);
    merged := merged + lhs[i..] + rhs[k..];
  }

  lemma {:induction false} NoEntry(e: Entries)
    requires |e| == 0
    ensures forall c :: EntryAt(e, c) == 0
  {
  }

  lemma {:induction false} Concatenated(a: Entries, b: Entries)
    requires Canonical(a) && Canonical(b) && |a| > 0 && |b| > 0 && a[|a| - 1].0 < b[0].0
    ensures Canonical(a + b) && forall c :: EntryAt(a + b, c) == EntryAt(a, c) + EntryAt(b, c)
  {
    hide EntryAt;
    FollowsSorted(a, b);
    forall c ensures EntryAt(a + b, c) == EntryAt(a, c) + EntryAt(b, c) { EntryConcat(a, b, c); }
  }

  lemma {:induction false} MergeStart(lhs: Entries, rhs: Entries)
    ensures Merging(lhs, rhs, 0, 0, [])
  {
  }

  // ---------------------------------------------------------------- over two elements

  type Support = seq<nat>

  ghost predicate Rising(s: Support) {
    forall i, k :: 0 <= i < k < |s| ==> s[i] < s[k]
  }

  /** The symmetric difference so far. */
  ghost predicate Differing(left: Support, right: Support, i: nat, k: nat, output: Support) {
    && i <= |left| && k <= |right| && Rising(output)
    && (forall m :: 0 <= m < |output| ==> (i < |left| ==> output[m] < left[i]) && (k < |right| ==> output[m] < right[k]))
    && (forall x :: x in output <==> ((x in left[..i]) != (x in right[..k])))
  }

  lemma {:induction false} TakeOne(s: Support, i: nat)
    requires i < |s|
    ensures forall x :: x in s[..i + 1] <==> x in s[..i] || x == s[i]
  {
    assert s[..i + 1] == s[..i] + [s[i]];
  }

  lemma {:induction false} DifferLeft(left: Support, right: Support, i: nat, k: nat, output: Support)
    requires Rising(left) && Rising(right) && Differing(left, right, i, k, output) && i < |left| && (k < |right| ==> left[i] < right[k])
    requires forall m :: 0 <= m < k ==> right[m] < left[i]
    ensures Differing(left, right, i + 1, k, output + [left[i]])
  {
    TakeOne(left, i);
    var after := output + [left[i]];
    assert left[i] !in right[..k] && left[i] !in left[..i];
  }

  lemma {:induction false} DifferRight(left: Support, right: Support, i: nat, k: nat, output: Support)
    requires Rising(left) && Rising(right) && Differing(left, right, i, k, output) && k < |right| && (i < |left| ==> right[k] < left[i])
    requires forall m :: 0 <= m < i ==> left[m] < right[k]
    ensures Differing(left, right, i, k + 1, output + [right[k]])
  {
    TakeOne(right, k);
    assert right[k] !in left[..i] && right[k] !in right[..k];
  }

  lemma {:induction false} DifferBoth(left: Support, right: Support, i: nat, k: nat, output: Support)
    requires Rising(left) && Rising(right) && Differing(left, right, i, k, output) && i < |left| && k < |right| && left[i] == right[k]
    ensures Differing(left, right, i + 1, k + 1, output)
  {
    TakeOne(left, i);
    TakeOne(right, k);
  }

  /** Everything behind one cursor is below what is ahead of the other. */
  ghost predicate Interleaved(left: Support, right: Support, i: nat, k: nat) {
    && i <= |left| && k <= |right|
    && (forall m, p :: 0 <= m < i && k <= p < |right| ==> left[m] < right[p])
    && (forall m, p :: i <= m < |left| && 0 <= p < k ==> right[p] < left[m])
  }

  /** Three cursors: entries of one side are copied, common ones dropped. */
  method SymmetricDifference(left: Support, right: Support) returns (output: Support)
    requires Rising(left) && Rising(right)
    ensures Rising(output) && forall x :: x in output <==> ((x in left) != (x in right))
  {
    hide Differing;
    var i, k := 0, 0;
    output := [];
    DifferStart(left, right);
    while i < |left| && k < |right|
      invariant 0 <= i <= |left| && 0 <= k <= |right|
      invariant Differing(left, right, i, k, output) && Interleaved(left, right, i, k)
      decreases |left| - i + |right| - k
    {
      if left[i] < right[k] {
        DifferLeft(left, right, i, k, output);
        output, i := output + [left[i]], i + 1;
      } else if right[k] < left[i] {
        DifferRight(left, right, i, k, output);
        output, k := output + [right[k]], k + 1;
      } else {
        DifferBoth(left, right, i, k, output);
        i, k := i + 1, k + 1;
      }
    }
    while i < |left|
      invariant 0 <= i <= |left| && 0 <= k <= |right| && (i == |left| || k == |right|)
      invariant Differing(left, right, i, k, output) && Interleaved(left, right, i, k)
    {
      DifferLeft(left, right, i, k, output);
      output, i := output + [left[i]], i + 1;
    }
    while k < |right|
      invariant i == |left| && 0 <= k <= |right|
      invariant Differing(left, right, i, k, output) && Interleaved(left, right, i, k)
    {
      DifferRight(left, right, i, k, output);
      output, k := output + [right[k]], k + 1;
    }
    DifferEnd(left, right, output);
  }

  lemma {:induction false} DifferStart(left: Support, right: Support)
    ensures Differing(left, right, 0, 0, [])
  {
  }

  lemma {:induction false} DifferEnd(left: Support, right: Support, output: Support)
    requires Differing(left, right, |left|, |right|, output)
    ensures Rising(output) && forall x :: x in output <==> ((x in left) != (x in right))
  {
    assert left[..|left|] == left && right[..|right|] == right;
  }

  /** The same with the shortcuts for empty and disjoint sides. */
  method MergeSupports(lhs: Support, rhs: Support) returns (merged: Support)
    requires Rising(lhs) && Rising(rhs)
    ensures Rising(merged) && forall x :: x in merged <==> ((x in lhs) != (x in rhs))
  {
    if |lhs| == 0 { return rhs; }
    if |rhs| == 0 { return lhs; }
    if lhs[|lhs| - 1] < rhs[0] { Disjoint(lhs, rhs); return lhs + rhs; }
    if rhs[|rhs| - 1] < lhs[0] { Disjoint(rhs, lhs); return rhs + lhs; }
    merged := SymmetricDifference(lhs, rhs);
  }

  lemma {:induction false} Disjoint(a: Support, b: Support)
    requires Rising(a) && Rising(b) && |a| > 0 && |b| > 0 && a[|a| - 1] < b[0]
    ensures Rising(a + b) && forall x :: x in a + b <==> ((x in a) != (x in b))
  {
    forall i, k | 0 <= i < |a| && 0 <= k < |b| ensures a[i] < b[k] {
      assert a[i] <= a[|a| - 1] && b[0] <= b[k];
    }
  }

  // ---------------------------------------------------------------- the two kinds of handle

  /** An integer combination: a constant and coefficients of the integer witness. */
  datatype Lc = Lc(constant: int, terms: Entries)

  ghost predicate LcValid(l: Lc) {
    Canonical(l.terms)
  }

  /** The coefficient at a column, the constant being column zero. */
  function LcAt(l: Lc, j: nat): int {
    if j == 0 then l.constant else EntryAt(l.terms, j - 1)
  }

  method AddLc(x: Lc, y: Lc) returns (sum: Lc)
    requires LcValid(x) && LcValid(y)
    ensures LcValid(sum) && forall j :: LcAt(sum, j) == LcAt(x, j) + LcAt(y, j)
  {
    var terms := MergeSorted(x.terms, y.terms);
    sum := Lc(x.constant + y.constant, terms);
  }

  /** Multiplies every coefficient; by zero it leaves nothing. */
  method ScaleLc(x: Lc, factor: int) returns (product: Lc)
    requires LcValid(x)
    ensures LcValid(product) && forall j :: LcAt(product, j) == LcAt(x, j) * factor
  {
    if factor == 0 {
      product := Lc(0, []);
      NoEntry([]);
      return;
    }
    var terms := MapEntries(x.terms, factor);
    product := Lc(x.constant * factor, terms);
  }

  method NegateLc(x: Lc) returns (negated: Lc)
    requires LcValid(x)
    ensures LcValid(negated) && forall j :: LcAt(negated, j) == -LcAt(x, j)
  {
    var terms := MapEntries(x.terms, -1);
    negated := Lc(-x.constant, terms);
  }

  /** Every coefficient of a canonical combination times a nonzero factor, in place. */
  method MapEntries(e: Entries, factor: int) returns (after: Entries)
    requires Canonical(e) && factor != 0
    ensures Canonical(after) && |after| == |e| && forall c :: EntryAt(after, c) == EntryAt(e, c) * factor
  {
    after := e;
    for i := 0 to |e|
      invariant |after| == |e| && forall k :: 0 <= k < |e| ==> after[k].0 == e[k].0
      invariant forall k :: 0 <= k < i ==> after[k].1 == e[k].1 * factor
      invariant forall k :: i <= k < |e| ==> after[k].1 == e[k].1
    {
      after := after[i := (after[i].0, after[i].1 * factor)];
    }
    forall k | 0 <= k < |e| ensures after[k].1 != 0 { NonZeroProduct(e[k].1, factor); }
    forall c ensures EntryAt(after, c) == EntryAt(e, c) * factor { MappedAt(e, after, factor, c); }
  }

  lemma {:induction false} NonZeroProduct(x: int, y: int)
    requires x != 0 && y != 0
    ensures x * y != 0
  {
  }

  lemma {:induction false} MappedAt(e: Entries, after: Entries, factor: int, c: nat)
    requires |after| == |e| && forall k :: 0 <= k < |e| ==> after[k].0 == e[k].0 && after[k].1 == e[k].1 * factor
    ensures EntryAt(after, c) == EntryAt(e, c) * factor
  {
    if |e| > 0 {
      var n := |e| - 1;
      MappedAt(e[..n], after[..n], factor, c);
    }
  }

  /** A combination over two elements: a constant and a set of witnesses. */
  datatype BoolLc = BoolLc(constant: bool, witnesses: Support)

  ghost predicate BoolLcValid(l: BoolLc) {
    Rising(l.witnesses)
  }

  predicate BoolLcAt(l: BoolLc, b: nat) {
    if b == 0 then l.constant else b - 1 in l.witnesses
  }

  method XorLc(x: BoolLc, y: BoolLc) returns (sum: BoolLc)
    requires BoolLcValid(x) && BoolLcValid(y)
    ensures BoolLcValid(sum) && forall b :: BoolLcAt(sum, b) == (BoolLcAt(x, b) != BoolLcAt(y, b))
  {
    var witnesses := MergeSupports(x.witnesses, y.witnesses);
    sum := BoolLc(x.constant != y.constant, witnesses);
  }

  // ---------------------------------------------------------------- rows

  function Shifted(e: Entries): (s: Entries)
    ensures |s| == |e| && forall i :: 0 <= i < |e| ==> s[i] == (e[i].0 + 1, e[i].1)
  {
    seq(|e|, i requires 0 <= i < |e| => (e[i].0 + 1, e[i].1))
  }

  lemma {:induction false} SingleEntry(index: nat, coefficient: int, c: nat)
    ensures EntryAt([(index, coefficient)], c) == if c == index then coefficient else 0
  {
    EntryAppend([], (index, coefficient), c);
    assert [] + [(index, coefficient)] == [(index, coefficient)];
  }

  /** The row of a combination: the constant joins as column zero unless it is zero. */
  method IntoSparseRow(l: Lc) returns (row: Entries)
    requires LcValid(l)
    ensures Canonical(row) && forall j :: EntryAt(row, j) == LcAt(l, j)
  {
    hide EntryAt;
    var shifted := Shifted(l.terms);
    row := if l.constant != 0 then [(0, l.constant)] + shifted else shifted;
    ShiftedCanonical(l.terms);
    FollowsSorted([(0, 1)], shifted);
    forall j: nat ensures EntryAt(row, j) == LcAt(l, j) {
      ShiftedAt(l.terms, j);
      EntryConcat([(0, l.constant)], shifted, j);
      SingleEntry(0, l.constant, j);
    }
  }

  lemma {:induction false} ShiftedCanonical(e: Entries)
    requires Canonical(e)
    ensures Canonical(Shifted(e)) && (forall i :: 0 <= i < |e| ==> Shifted(e)[i].0 > 0)
  {
  }

  lemma {:induction false} ShiftedAt(e: Entries, j: nat)
    ensures EntryAt(Shifted(e), j) == if j == 0 then 0 else EntryAt(e, j - 1)
  {
    if |e| > 0 {
      var n := |e| - 1;
      ShiftedAt(e[..n], j);
      assert Shifted(e)[..n] == Shifted(e[..n]);
    }
  }

  function ShiftedSupport(s: Support): (r: Support)
    ensures |r| == |s| && forall i :: 0 <= i < |s| ==> r[i] == s[i] + 1
  {
    seq(|s|, i requires 0 <= i < |s| => s[i] + 1)
  }

  method BoolSparseRow(l: BoolLc) returns (row: Support)
    requires BoolLcValid(l)
    ensures Rising(row) && forall b :: b in row <==> BoolLcAt(l, b)
  {
    var shifted := ShiftedSupport(l.witnesses);
    row := if l.constant then [0] + shifted else shifted;
    forall b: nat ensures b in row <==> BoolLcAt(l, b) {
      ShiftedHas(l.witnesses, b);
    }
  }

  lemma {:induction false} ShiftedHas(s: Support, b: nat)
    ensures b in ShiftedSupport(s) <==> b > 0 && b - 1 in s
  {
    var shifted := ShiftedSupport(s);
    if b > 0 && b - 1 in s {
      var i :| 0 <= i < |s| && s[i] == b - 1;
      assert shifted[i] == b;
    }
    if b in shifted {
      var i :| 0 <= i < |shifted| && shifted[i] == b;
      assert s[i] == b - 1;
    }
  }
}
