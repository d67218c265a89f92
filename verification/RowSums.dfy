/** The vector that both matrix backends compute, against the integer witness of a run. */
module RowSums {
  import opened Circuits
  import opened Satisfaction

  /** One side of every row. */
  ghost function Sides(rows: seq<(int, int, int)>, side: nat): (s: seq<int>)
    ensures |s| == |rows| && forall i: nat :: i < |rows| ==> s[i] == SideOf(rows[i], side)
  {
    seq(|rows|, i requires 0 <= i < |rows| => SideOf(rows[i], side))
  }

  /** The combination of the first rows, column by column. */
  ghost function Partial(steps: seq<Step>, r: seq<int>, x: int, k: nat, n: nat): (v: seq<int>)
    requires k <= |r|
    ensures |v| == n
    ensures forall j: nat :: j < n && k <= |MeaningAt(steps, j).rows| ==> v[j] == Combined(r, x, MeaningAt(steps, j).rows[..k])
  {
    seq(n, j requires 0 <= j < n =>
      if k <= |MeaningAt(steps, j).rows| then Combined(r, x, MeaningAt(steps, j).rows[..k]) else 0)
  }

  /** `r` times the sides, the second weighted by `x` and the third by its square. */
  ghost function Weighed(r: seq<int>, x: int, a: seq<int>, b: seq<int>, c: seq<int>): int
    requires |r| == |a| == |b| == |c|
  {
    Dot(r, a) + x * Dot(r, b) + x * x * Dot(r, c)
  }

  /** Both backends' output against the integer witness of a run: the rows' own sides, combined alike. */
  lemma {:induction false} ColumnsAgainstRun(steps: seq<Step>, inputs: nat, f: seq<bool>, r: seq<int>, x: int)
    requires Valid(steps, inputs) && |r| == Rows(steps)
    ensures var z, rows := Assignment(steps, inputs, f), RunInts(steps, inputs, f).rows;
      && |z| == Columns(steps) && |rows| == |r|
      && Dot(ProgramColumns(steps, r, x), z) == Weighed(r, x, Sides(rows, 0), Sides(rows, 1), Sides(rows, 2))
  {
    hide RowMeaning, Dot, Combined, Weighed;
    var z, rows := Assignment(steps, inputs, f), RunInts(steps, inputs, f).rows;
    RunCounts(steps, inputs, f);
    AssignmentCarries(steps, inputs, f);
    AllRowsMean(steps, inputs, f, z);
    PartialAgainstRun(steps, inputs, f, r, x, z, |r|);
    forall j: nat | j < |z| ensures Partial(steps, r, x, |r|, |z|)[j] == ProgramColumns(steps, r, x)[j] {
      SameShape(steps, j, 0);
      var column := MeaningAt(steps, j).rows;
      assert column[..|r|] == column;
    }
    assert Partial(steps, r, x, |r|, |z|) == ProgramColumns(steps, r, x);
    assert r[..|r|] == r && forall side: nat :: Sides(rows, side)[..|r|] == Sides(rows, side);
  }

  lemma {:induction false} PartialAgainstRun(
    steps: seq<Step>, inputs: nat, f: seq<bool>, r: seq<int>, x: int, z: seq<int>, k: nat
  )
    requires k <= |r| == Rows(steps) && |RunInts(steps, inputs, f).rows| == |r|
    requires forall i: nat :: i < Rows(steps) ==> RowMeaning(steps, inputs, f, z, i)
    ensures var rows := RunInts(steps, inputs, f).rows;
      Dot(Partial(steps, r, x, k, |z|), z) == Weighed(r[..k], x, Sides(rows, 0)[..k], Sides(rows, 1)[..k], Sides(rows, 2)[..k])
    decreases k
  {
    hide RowMeaning, Dot, Combined, Weighed;
    var rows := RunInts(steps, inputs, f).rows;
    if k == 0 {
      NothingWeighed(r[..0], x, Sides(rows, 0)[..0], Sides(rows, 1)[..0], Sides(rows, 2)[..0]);
      forall j: nat | j < |z| ensures Partial(steps, r, x, 0, |z|)[j] == 0 { NoRows(r, x, MeaningAt(steps, j).rows[..0]); }
      DotZero(Partial(steps, r, x, 0, |z|), z);
    } else {
      var i := k - 1;
      PartialAgainstRun(steps, inputs, f, r, x, z, i);
      NextRow(steps, inputs, f, r, x, z, i);
      NextWeighed(r, x, Sides(rows, 0), Sides(rows, 1), Sides(rows, 2), i);
    }
  }

  lemma {:induction false} NoRows(r: seq<int>, x: int, rows: seq<(int, int, int)>)
    requires |rows| == 0
    ensures Combined(r, x, rows) == 0
  {
  }

  lemma {:induction false} NothingWeighed(r: seq<int>, x: int, a: seq<int>, b: seq<int>, c: seq<int>)
    requires |r| == |a| == |b| == |c| == 0
    ensures Weighed(r, x, a, b, c) == 0
  {
  }

  lemma {:induction false} NextWeighed(r: seq<int>, x: int, a: seq<int>, b: seq<int>, c: seq<int>, i: nat)
    requires i < |r| == |a| == |b| == |c|
    ensures Weighed(r[..i + 1], x, a[..i + 1], b[..i + 1], c[..i + 1])
      == Weighed(r[..i], x, a[..i], b[..i], c[..i]) + (a[i] * r[i] + b[i] * (r[i] * x) + c[i] * (r[i] * (x * x)))
  {
    assert r[..i + 1][..i] == r[..i] && a[..i + 1][..i] == a[..i] && b[..i + 1][..i] == b[..i] && c[..i + 1][..i] == c[..i];
    Regrouped(x, Dot(r[..i], b[..i]), Dot(r[..i], c[..i]), r[i], a[i], b[i], c[i]);
  }

  lemma {:induction false} Regrouped(x: int, d: int, e: int, r: int, a: int, b: int, c: int)
    ensures r * a + x * (d + r * b) + x * x * (e + r * c) == x * d + x * x * e + (a * r + b * (r * x) + c * (r * (x * x)))
  {
  }

  /** One more row adds its three sides' coefficients, and so its three values. */
  lemma {:induction false} NextRow(steps: seq<Step>, inputs: nat, f: seq<bool>, r: seq<int>, x: int, z: seq<int>, i: nat)
    requires i < |r| == Rows(steps) && RowMeaning(steps, inputs, f, z, i)
    ensures var row := RunInts(steps, inputs, f).rows[i];
      Dot(Partial(steps, r, x, i + 1, |z|), z) == Dot(Partial(steps, r, x, i, |z|), z)
        + (row.0 * r[i] + row.1 * (r[i] * x) + row.2 * (r[i] * (x * x)))
  {
    hide Dot, Combined;
    var a, b, c := RowCoefficients(steps, i, 0, |z|), RowCoefficients(steps, i, 1, |z|), RowCoefficients(steps, i, 2, |z|);
    var a', b', c' := Times(a, r[i]), Times(b, r[i] * x), Times(c, r[i] * (x * x));
    DotScale(a, r[i], a', z);
    DotScale(b, r[i] * x, b', z);
    DotScale(c, r[i] * (x * x), c', z);
    var before := Partial(steps, r, x, i, |z|);
    var first, second := Sum(before, a'), Sum(Sum(before, a'), b');
    DotAdd(before, a', first, z);
    DotAdd(first, b', second, z);
    forall j: nat | j < |z| ensures Partial(steps, r, x, i + 1, |z|)[j] == second[j] + c'[j] {
      SameShape(steps, j, 0);
      NextCombined(r, x, MeaningAt(steps, j).rows, i);
    }
    DotAdd(second, c', Partial(steps, r, x, i + 1, |z|), z);
  }

  ghost function Times(a: seq<int>, k: int): (s: seq<int>)
    ensures |s| == |a| && forall j :: 0 <= j < |a| ==> s[j] == a[j] * k
  {
    seq(|a|, j requires 0 <= j < |a| => a[j] * k)
  }

  ghost function Sum(a: seq<int>, b: seq<int>): (s: seq<int>)
    requires |a| == |b|
    ensures |s| == |a| && forall j :: 0 <= j < |a| ==> s[j] == a[j] + b[j]
  {
    seq(|a|, j requires 0 <= j < |a| => a[j] + b[j])
  }

  lemma {:induction false} NextCombined(r: seq<int>, x: int, rows: seq<(int, int, int)>, i: nat)
    requires i < |rows| <= |r|
    ensures Combined(r, x, rows[..i + 1])
      == Combined(r, x, rows[..i]) + rows[i].0 * r[i] + rows[i].1 * (r[i] * x) + rows[i].2 * (r[i] * (x * x))
  {
    assert rows[..i + 1][..i] == rows[..i];
    Flipped(rows[i].0, r[i]);
    Flipped(rows[i].1, r[i] * x);
    Flipped(rows[i].2, r[i] * (x * x));
  }

  lemma {:induction false} Flipped(a: int, b: int)
    ensures a * b == b * a
  {
  }
}
