/** The counting sort shared by every column-major or per-node table: counts, prefix sums, cursors. */
module Buckets {

  /** The payloads with one key, in order. */
  function Picked<T>(items: seq<(nat, T)>, k: nat): seq<T> {
    if |items| == 0 then []
    else
      var last := items[|items| - 1];
      Picked(items[..|items| - 1], k) + (if last.0 == k then [last.1] else [])
  }

  ghost predicate KeysBelow<T>(items: seq<(nat, T)>, n: nat) {
    forall i :: 0 <= i < |items| ==> items[i].0 < n
  }

  /** How many items have a key below `k`. */
  function Start<T>(items: seq<(nat, T)>, k: nat): nat {
    if k == 0 then 0 else Start(items, k - 1) + |Picked(items, k - 1)|
  }

  lemma {:induction false} PickedNext<T>(items: seq<(nat, T)>, i: nat, k: nat)
    requires i < |items|
    ensures Picked(items[..i + 1], k) == Picked(items[..i], k) + (if items[i].0 == k then [items[i].1] else [])
  {
    assert items[..i + 1][..i] == items[..i];
  }

  lemma {:induction false} PickedGrows<T>(items: seq<(nat, T)>, i: nat, k: nat)
    requires i <= |items|
    ensures |Picked(items[..i], k)| <= |Picked(items, k)|
    decreases |items| - i
  {
    if i == |items| {
      assert items[..i] == items;
    } else {
      PickedNext(items, i, k);
      PickedGrows(items, i + 1, k);
    }
  }

  lemma {:induction false} StartMonotone<T>(items: seq<(nat, T)>, a: nat, b: nat)
    requires a <= b
    ensures Start(items, a) <= Start(items, b)
    decreases b
  {
    if a < b { StartMonotone(items, a, b - 1); }
  }

  lemma {:induction false} StartNext<T>(items: seq<(nat, T)>, last: (nat, T), k: nat)
    ensures Start(items + [last], k) == Start(items, k) + (if last.0 < k then 1 else 0)
  {
    if k > 0 {
      StartNext(items, last, k - 1);
      assert (items + [last])[..|items|] == items;
    }
  }

  lemma {:induction false} StartAll<T>(items: seq<(nat, T)>, n: nat)
    requires KeysBelow(items, n)
    ensures Start(items, n) == |items|
    decreases |items|
  {
    if |items| == 0 {
      StartEmpty(items, n);
    } else {
      var before, last := items[..|items| - 1], items[|items| - 1];
      StartAll(before, n);
      assert before + [last] == items;
      StartNext(before, last, n);
    }
  }

  lemma {:induction false} StartEmpty<T>(items: seq<(nat, T)>, n: nat)
    requires |items| == 0
    ensures Start(items, n) == 0
  {
    if n > 0 { StartEmpty(items, n - 1); }
  }

  lemma {:induction false} PickedHas<T>(items: seq<(nat, T)>, i: nat)
    requires i < |items|
    ensures exists p :: 0 <= p < |Picked(items, items[i].0)| && Picked(items, items[i].0)[p] == items[i].1
  {
    var n := |items| - 1;
    if i < n {
      PickedHas(items[..n], i);
      var p :| 0 <= p < |Picked(items[..n], items[i].0)| && Picked(items[..n], items[i].0)[p] == items[i].1;
      assert Picked(items, items[i].0)[p] == items[i].1;
    } else {
      assert Picked(items, items[i].0)[|Picked(items[..n], items[i].0)|] == items[i].1;
    }
  }

  /** Every picked payload comes from an item with that key. */
  lemma {:induction false} PickedFrom<T>(items: seq<(nat, T)>, k: nat, p: nat) returns (i: nat)
    requires p < |Picked(items, k)|
    ensures i < |items| && items[i] == (k, Picked(items, k)[p])
  {
    var n := |items| - 1;
    if p < |Picked(items[..n], k)| {
      i := PickedFrom(items[..n], k, p);
    } else {
      i := n;
    }
  }

  /** The items of one key, in their order, from the key's offset on. */
  ghost predicate Slot<T>(items: seq<(nat, T)>, i: nat, table: seq<T>, k: nat)
    requires i <= |items|
  {
    var start, picked := Start(items, k), Picked(items[..i], k);
    start + |picked| <= |table| && table[start..start + |picked|] == picked
  }

  /** A column-major table: one slice per key. */
  ghost predicate Bucketed<T>(items: seq<(nat, T)>, n: nat, offsets: seq<nat>, table: seq<T>) {
    && |offsets| == n + 1 && |table| == |items|
    && (forall k :: 0 <= k <= n ==> offsets[k] == Start(items, k))
    && (forall k :: 0 <= k < n ==> Slot(items, |items|, table, k))
  }

  lemma {:induction false} SliceIsPicked<T>(items: seq<(nat, T)>, n: nat, offsets: seq<nat>, table: seq<T>, k: nat)
    requires Bucketed(items, n, offsets, table) && k < n
    ensures |offsets| == n + 1 && offsets[k] <= offsets[k + 1] <= |table|
    ensures table[offsets[k]..offsets[k + 1]] == Picked(items, k)
  {
    assert Slot(items, |items|, table, k);
    assert items[..|items|] == items;
    assert offsets[k + 1] == Start(items, k + 1);
  }

  ghost predicate Counted<T>(items: seq<(nat, T)>, i: nat, counts: seq<nat>)
    requires i <= |items|
  {
    forall k :: 0 <= k < |counts| ==> counts[k] == |Picked(items[..i], k)|
  }

  lemma {:induction false} CountNext<T>(items: seq<(nat, T)>, i: nat, counts: seq<nat>)
    requires i < |items| && Counted(items, i, counts) && items[i].0 < |counts|
    ensures Counted(items, i + 1, counts[items[i].0 := counts[items[i].0] + 1])
  {
    var next := counts[items[i].0 := counts[items[i].0] + 1];
    forall k | 0 <= k < |counts| ensures next[k] == |Picked(items[..i + 1], k)| {
      PickedNext(items, i, k);
    }
  }

  /** The numbers of items per key, as running totals. */
  method Offsets<T>(items: seq<(nat, T)>, n: nat) returns (offsets: seq<nat>)
    requires KeysBelow(items, n)
    ensures |offsets| == n + 1 && forall k :: 0 <= k <= n ==> offsets[k] == Start(items, k)
  {
    hide Picked, Start;
    var counts := seq(n, _ => 0);
    CountNone(items, counts);
    for i := 0 to |items|
      invariant |counts| == n && Counted(items, i, counts)
    {
      CountNext(items, i, counts);
      counts := counts[items[i].0 := counts[items[i].0] + 1];
    }
    assert items[..|items|] == items;
    offsets := [0];
    StartZero(items);
    for k := 0 to n
      invariant |offsets| == k + 1 && forall a :: 0 <= a <= k ==> offsets[a] == Start(items, a)
    {
      StartSucc(items, k);
      offsets := offsets + [offsets[k] + counts[k]];
    }
  }

  lemma {:induction false} CountNone<T>(items: seq<(nat, T)>, counts: seq<nat>)
    requires forall k :: 0 <= k < |counts| ==> counts[k] == 0
    ensures Counted(items, 0, counts)
  {
    assert items[..0] == [];
  }

  lemma {:induction false} StartZero<T>(items: seq<(nat, T)>)
    ensures Start(items, 0) == 0
  {
  }

  lemma {:induction false} StartSucc<T>(items: seq<(nat, T)>, k: nat)
    ensures Start(items, k + 1) == Start(items, k) + |Picked(items, k)|
  {
  }

  /** The table filled so far. */
  ghost predicate Filling<T>(items: seq<(nat, T)>, i: nat, n: nat, cursors: seq<nat>, table: seq<T>)
    requires i <= |items|
  {
    && |cursors| == n && |table| == |items|
    && (forall k :: 0 <= k < n ==> cursors[k] == Start(items, k) + |Picked(items[..i], k)|)
    && (forall k :: 0 <= k < n ==> Slot(items, i, table, k))
  }

  /** A key's bucket ends where the next begins, and the last ends with the table. */
  lemma {:induction false} BucketEnds<T>(items: seq<(nat, T)>, n: nat, k: nat, l: nat)
    requires KeysBelow(items, n)
    requires k < n && l < n
    ensures Start(items, k) + |Picked(items, k)| <= |items|
    ensures k < l ==> Start(items, k) + |Picked(items, k)| <= Start(items, l)
  {
    hide Start, Picked;
    StartSucc(items, k);
    StartMonotone(items, k + 1, n);
    StartAll(items, n);
    if k < l { StartMonotone(items, k + 1, l); }
  }

  lemma {:induction false} OtherSlot<T>(items: seq<(nat, T)>, i: nat, n: nat, table: seq<T>, at: nat, k: nat)
    requires i < |items| && |table| == |items| && k < n && Slot(items, i, table, k) && k != items[i].0
    requires KeysBelow(items, n)
    requires at == Start(items, items[i].0) + |Picked(items[..i], items[i].0)| && at < |table|
    ensures Slot(items, i + 1, table[at := items[i].1], k)
  {
    hide Start, Picked;
    PickedNext(items, i, k);
    PickedNext(items, i, items[i].0);
    PickedGrows(items, i + 1, items[i].0);
    PickedGrows(items, i, k);
    BucketEnds(items, n, k, items[i].0);
    BucketEnds(items, n, items[i].0, k);
  }

  lemma {:induction false} OwnSlot<T>(items: seq<(nat, T)>, i: nat, table: seq<T>, at: nat)
    requires i < |items| && Slot(items, i, table, items[i].0)
    requires at == Start(items, items[i].0) + |Picked(items[..i], items[i].0)| && at < |table|
    ensures Slot(items, i + 1, table[at := items[i].1], items[i].0)
  {
    hide Start, Picked;
    PickedNext(items, i, items[i].0);
  }

  lemma {:induction false} SlotStep<T>(items: seq<(nat, T)>, i: nat, n: nat, table: seq<T>, at: nat, k: nat)
    requires i < |items| && |table| == |items| && k < n && Slot(items, i, table, k)
    requires KeysBelow(items, n)
    requires at == Start(items, items[i].0) + |Picked(items[..i], items[i].0)| && at < |table|
    ensures Slot(items, i + 1, table[at := items[i].1], k)
  {
    hide Start, Picked, Slot;
    if k == items[i].0 { OwnSlot(items, i, table, at); } else { OtherSlot(items, i, n, table, at, k); }
  }

  lemma {:induction false} FillStep<T>(items: seq<(nat, T)>, i: nat, n: nat, cursors: seq<nat>, table: seq<T>)
    requires i < |items| && Filling(items, i, n, cursors, table)
    requires KeysBelow(items, n)
    ensures var key := items[i].0;
      cursors[key] < |table|
      && Filling(items, i + 1, n, cursors[key := cursors[key] + 1], table[cursors[key] := items[i].1])
  {
    hide Start, Picked, Slot;
    var key := items[i].0;
    PickedNext(items, i, key);
    PickedGrows(items, i + 1, key);
    BucketEnds(items, n, key, key);
    var after, next := table[cursors[key] := items[i].1], cursors[key := cursors[key] + 1];
    forall k | 0 <= k < n ensures next[k] == Start(items, k) + |Picked(items[..i + 1], k)| { PickedNext(items, i, k); }
    var j := i + 1;
    forall k: nat | k < n ensures Slot(items, j, after, k) {
      SlotStep(items, i, n, table, cursors[key], k);
    }
  }

  lemma {:induction false} FillNothing<T>(items: seq<(nat, T)>, n: nat, cursors: seq<nat>, table: seq<T>)
    requires |table| == |items| && |cursors| == n && forall k :: 0 <= k < n ==> cursors[k] == Start(items, k)
    requires KeysBelow(items, n)
    ensures Filling(items, 0, n, cursors, table)
  {
    assert items[..0] == [];
    forall k | 0 <= k < n ensures Slot(items, 0, table, k) { BucketEnds(items, n, k, k); }
  }

  lemma {:induction false} FillAll<T>(items: seq<(nat, T)>, n: nat, cursors: seq<nat>, table: seq<T>, offsets: seq<nat>)
    requires Filling(items, |items|, n, cursors, table)
    requires |offsets| == n + 1 && forall k :: 0 <= k <= n ==> offsets[k] == Start(items, k)
    ensures Bucketed(items, n, offsets, table)
  {
    hide Start, Slot;
  }

  /** Distributes the items into their buckets, each cursor starting at its bucket's offset. */
  method Distribute<T>(items: seq<(nat, T)>, n: nat, filler: T) returns (offsets: seq<nat>, table: seq<T>)
    requires KeysBelow(items, n)
    ensures Bucketed(items, n, offsets, table)
  {
    hide Picked, Start, Bucketed, Slot;
    offsets := Offsets(items, n);
    var cursors := offsets[..n];
    table := seq(|items|, _ => filler);
    FillNothing(items, n, cursors, table);
    for i := 0 to |items|
      invariant Filling(items, i, n, cursors, table)
    {
      FillStep(items, i, n, cursors, table);
      var key := items[i].0;
      table := table[cursors[key] := items[i].1];
      cursors := cursors[key := cursors[key] + 1];
    }
    FillAll(items, n, cursors, table, offsets);
  }

  /** The bucket of a table position. */
  lemma {:induction false} BucketOf<T>(items: seq<(nat, T)>, n: nat, v: nat) returns (k: nat)
    requires v < Start(items, n)
    ensures k < n && Start(items, k) <= v < Start(items, k) + |Picked(items, k)|
    decreases n
  {
    if v < Start(items, n - 1) { k := BucketOf(items, n - 1, v); } else { k := n - 1; }
  }

  lemma {:induction false} TableEntry<T>(items: seq<(nat, T)>, n: nat, offsets: seq<nat>, table: seq<T>, v: nat) returns (k: nat, i: nat)
    requires Bucketed(items, n, offsets, table) && v < |table|
    requires KeysBelow(items, n)
    ensures k < n && offsets[k] <= v < offsets[k + 1] && i < |items| && items[i] == (k, table[v])
  {
    StartAll(items, n);
    k := BucketOf(items, n, v);
    SliceIsPicked(items, n, offsets, table, k);
    assert offsets[k + 1] == Start(items, k + 1);
    assert table[v] == table[offsets[k]..offsets[k + 1]][v - offsets[k]];
    i := PickedFrom(items, k, v - offsets[k]);
  }
}
