/** The "newest first" ordering the pages obtain from
    `arr.sort((a, b) => time(b) - time(a))`. JavaScript's `Array.prototype.sort`
    is stable, so the model is a stable insertion sort on a timestamp key,
    followed by `slice(0, n)` for the "recent" panels. */
module Sorting {
  import opened Common

  /** Keys never increase from left to right. */
  ghost predicate NewestFirst<T>(xs: seq<T>, key: T -> int)
  {
    forall i, j :: 0 <= i < j < |xs| ==> key(xs[i]) >= key(xs[j])
  }

  /** No key in `xs` exceeds `b`. */
  ghost predicate Bounded<T>(xs: seq<T>, key: T -> int, b: int)
  {
    forall i :: 0 <= i < |xs| ==> key(xs[i]) <= b
  }

  lemma ConsNewestFirst<T>(h: T, t: seq<T>, key: T -> int)
    requires NewestFirst(t, key) && Bounded(t, key, key(h))
    ensures NewestFirst([h] + t, key)
  {
    var r := [h] + t;
    forall i, j | 0 <= i < j < |r|
      ensures key(r[i]) >= key(r[j])
    {
      if i > 0 {
        assert r[i] == t[i - 1] && r[j] == t[j - 1];
      } else {
        assert r[j] == t[j - 1];
      }
    }
  }

  lemma ConsBounded<T>(h: T, t: seq<T>, key: T -> int, b: int)
    requires key(h) <= b && Bounded(t, key, b)
    ensures Bounded([h] + t, key, b)
  {
    assert forall i :: 0 < i < |t| + 1 ==> ([h] + t)[i] == t[i - 1];
  }

  lemma TailBounded<T>(xs: seq<T>, key: T -> int, b: int)
    requires xs != [] && Bounded(xs, key, b)
    ensures Bounded(xs[1..], key, b)
  {
    assert forall i :: 0 <= i < |xs| - 1 ==> xs[1..][i] == xs[i + 1];
  }

  /** In a newest-first sequence the head bounds everything. */
  lemma HeadBounds<T>(xs: seq<T>, key: T -> int)
    requires xs != [] && NewestFirst(xs, key)
    ensures Bounded(xs, key, key(xs[0]))
  {
  }

  /** Places `x` before the first element that is not strictly newer, so
      that `x` stays ahead of later elements with the same key. */
  function Insert<T>(x: T, xs: seq<T>, key: T -> int): (r: seq<T>)
    requires NewestFirst(xs, key)
    ensures NewestFirst(r, key)
    ensures multiset(r) == multiset(xs) + multiset{x}
    ensures |r| == |xs| + 1
    ensures forall b :: Bounded(xs, key, b) && key(x) <= b ==> Bounded(r, key, b)
    decreases |xs|
  {
    if xs == [] then
      [x]
    else if key(xs[0]) <= key(x) then
      HeadBounds(xs, key);
      ConsNewestFirst(x, xs, key);
      assert forall b :: Bounded(xs, key, b) && key(x) <= b ==> Bounded([x] + xs, key, b) by {
        forall b | Bounded(xs, key, b) && key(x) <= b
          ensures Bounded([x] + xs, key, b)
        {
          ConsBounded(x, xs, key, b);
        }
      }
      [x] + xs
    else
      var rest := Insert(x, xs[1..], key);
      HeadBounds(xs, key);
      TailBounded(xs, key, key(xs[0]));
      ConsNewestFirst(xs[0], rest, key);
      assert xs == [xs[0]] + xs[1..];
      assert forall b :: Bounded(xs, key, b) && key(x) <= b ==> Bounded([xs[0]] + rest, key, b) by {
        forall b | Bounded(xs, key, b) && key(x) <= b
          ensures Bounded([xs[0]] + rest, key, b)
        {
          TailBounded(xs, key, b);
          ConsBounded(xs[0], rest, key, b);
        }
      }
      [xs[0]] + rest
  }

  /** Stable sort, newest first. */
  function SortNewestFirst<T>(xs: seq<T>, key: T -> int): (r: seq<T>)
    ensures NewestFirst(r, key)
    ensures multiset(r) == multiset(xs)
    ensures |r| == |xs|
    decreases |xs|
  {
    if xs == [] then []
    else
      assert xs == [xs[0]] + xs[1..];
      Insert(xs[0], SortNewestFirst(xs[1..], key), key)
  }

  /** Sorting neither adds nor loses an element. */
  lemma SortSameElements<T>(xs: seq<T>, key: T -> int)
    ensures forall x :: x in SortNewestFirst(xs, key) <==> x in xs
  {
    var r := SortNewestFirst(xs, key);
    forall x
      ensures x in r <==> x in xs
    {
      assert x in r <==> x in multiset(r);
      assert x in xs <==> x in multiset(xs);
    }
  }

  /** Whether an element has key `k`. */
  function KeyIs<T>(key: T -> int, k: int): T -> bool
  {
    (y: T) => key(y) == k
  }

  /** The elements of one key, in their relative order. */
  ghost function WithKey<T(!new)>(xs: seq<T>, key: T -> int, k: int): seq<T>
  {
    Filter(xs, KeyIs(key, k))
  }

  /** Putting a strictly newer element in front of both sides keeps an
      equation between key groups in which `x` leads. */
  lemma NewerHeadKeepsGroups<T(!new)>(h: T, x: T, rest: seq<T>, t: seq<T>, key: T -> int, k: int)
    requires key(h) > key(x)
    requires WithKey(rest, key, k) == (if key(x) == k then [x] else []) + WithKey(t, key, k)
    ensures WithKey([h] + rest, key, k) == (if key(x) == k then [x] else []) + WithKey([h] + t, key, k)
  {
    var eq := KeyIs(key, k);
    FilterAppend([h], rest, eq);
    FilterAppend([h], t, eq);
    var head := Filter([h], eq);
    var mine := if key(x) == k then [x] else [];
    assert key(x) == k ==> head == [];
    assert head + (mine + WithKey(t, key, k)) == mine + (head + WithKey(t, key, k));
  }

  /** Inserting `x` keeps the order of each group of equal keys and puts `x`
      first among the elements sharing its key. */
  lemma {:induction false} InsertStable<T(!new)>(x: T, xs: seq<T>, key: T -> int, k: int)
    requires NewestFirst(xs, key)
    ensures WithKey(Insert(x, xs, key), key, k) == (if key(x) == k then [x] else []) + WithKey(xs, key, k)
    decreases |xs|
  {
    if xs == [] || key(xs[0]) <= key(x) {
      FilterAppend([x], xs, KeyIs(key, k));
    } else {
      var rest := Insert(x, xs[1..], key);
      assert Insert(x, xs, key) == [xs[0]] + rest;
      InsertStable(x, xs[1..], key, k);
      assert xs == [xs[0]] + xs[1..];
      NewerHeadKeepsGroups(xs[0], x, rest, xs[1..], key, k);
    }
  }

  /** Ties keep their original order: the sort is stable. */
  lemma {:induction false} SortStable<T(!new)>(xs: seq<T>, key: T -> int, k: int)
    ensures WithKey(SortNewestFirst(xs, key), key, k) == WithKey(xs, key, k)
    decreases |xs|
  {
    if xs != [] {
      var eq := KeyIs(key, k);
      SortStable(xs[1..], key, k);
      InsertStable(xs[0], SortNewestFirst(xs[1..], key), key, k);
      FilterAppend([xs[0]], xs[1..], eq);
      assert xs == [xs[0]] + xs[1..];
    }
  }

  /** Filtering a newest-first sequence keeps it newest first. */
  lemma {:induction false} FilterNewestFirst<T(!new)>(xs: seq<T>, p: T -> bool, key: T -> int)
    requires NewestFirst(xs, key)
    ensures NewestFirst(Filter(xs, p), key)
    decreases |xs|
  {
    if xs != [] {
      assert forall i, j :: 0 <= i < j < |xs| - 1 ==> xs[1..][i] == xs[i + 1] && xs[1..][j] == xs[j + 1];
      FilterNewestFirst(xs[1..], p, key);
      if p(xs[0]) {
        var t := Filter(xs[1..], p);
        forall i | 0 <= i < |t|
          ensures key(t[i]) <= key(xs[0])
        {
          assert t[i] in xs[1..];
          var j :| 0 <= j < |xs[1..]| && xs[1..][j] == t[i];
          assert xs[j + 1] == t[i];
        }
        ConsNewestFirst(xs[0], t, key);
      }
    }
  }

  /** Dropping the head of a newest-first sequence keeps it newest first. */
  lemma TailNewestFirst<T>(xs: seq<T>, key: T -> int)
    requires xs != [] && NewestFirst(xs, key)
    ensures NewestFirst(xs[1..], key)
  {
    assert forall i :: 0 <= i < |xs| - 1 ==> xs[1..][i] == xs[i + 1];
  }

  /** An element that is not newer than `x` stops the insertion at the front. */
  lemma InsertAtFront<T(!new)>(x: T, ys: seq<T>, p: T -> bool, key: T -> int)
    requires NewestFirst(ys, key) && (ys == [] || key(ys[0]) <= key(x))
    ensures NewestFirst(Filter(ys, p), key)
    ensures Filter(Insert(x, ys, key), p) == if p(x) then Insert(x, Filter(ys, p), key) else Filter(ys, p)
  {
    FilterNewestFirst(ys, p, key);
    InsertFront(x, ys, key);
    FilterAppend([x], ys, p);
    var f := Filter(ys, p);
    if p(x) && f != [] {
      FilteredHeadBound(ys, p, key);
      InsertFront(x, f, key);
    }
  }

  /** Inserting an element at least as new as the head puts it in front. */
  lemma InsertFront<T>(x: T, ys: seq<T>, key: T -> int)
    requires NewestFirst(ys, key) && (ys == [] || key(ys[0]) <= key(x))
    ensures Insert(x, ys, key) == [x] + ys
  {
  }

  /** What survives a filter is no newer than the head it came from. */
  lemma FilteredHeadBound<T(!new)>(ys: seq<T>, p: T -> bool, key: T -> int)
    requires NewestFirst(ys, key) && Filter(ys, p) != []
    ensures key(Filter(ys, p)[0]) <= key(ys[0])
  {
    var f := Filter(ys, p);
    assert f[0] in ys;
    var j :| 0 <= j < |ys| && ys[j] == f[0];
    assert key(ys[j]) <= key(ys[0]);
  }

  /** A strictly newer head stays ahead of the inserted element. */
  lemma InsertBehind<T>(x: T, h: T, t: seq<T>, key: T -> int)
    requires NewestFirst([h] + t, key) && key(h) > key(x)
    ensures NewestFirst(t, key)
    ensures Insert(x, [h] + t, key) == [h] + Insert(x, t, key)
  {
    TailNewestFirst([h] + t, key);
    assert ([h] + t)[1..] == t;
  }

  /** Filtering the result of an insertion is inserting into the filtered
      sequence, or leaving it alone when `x` is filtered out. */
  lemma {:induction false} FilterInsert<T(!new)>(x: T, ys: seq<T>, p: T -> bool, key: T -> int)
    requires NewestFirst(ys, key)
    ensures NewestFirst(Filter(ys, p), key)
    ensures Filter(Insert(x, ys, key), p) == if p(x) then Insert(x, Filter(ys, p), key) else Filter(ys, p)
    decreases |ys|
  {
    if ys == [] || key(ys[0]) <= key(x) {
      InsertAtFront(x, ys, p, key);
    } else {
      var t := ys[1..];
      assert ys == [ys[0]] + t;
      InsertBehind(x, ys[0], t, key);
      FilterInsert(x, t, p, key);
      FilterAppend([ys[0]], Insert(x, t, key), p);
      FilterAppend([ys[0]], t, p);
      FilterNewestFirst(ys, p, key);
      if p(ys[0]) {
        InsertBehind(x, ys[0], Filter(t, p), key);
      }
    }
  }

  /** Selecting and sorting commute: sorting a list and then keeping the
      elements that satisfy `p` gives the same sequence as keeping them
      first and sorting afterwards. This relies on the sort being stable. */
  lemma {:induction false} FilterSortCommute<T(!new)>(xs: seq<T>, p: T -> bool, key: T -> int)
    ensures Filter(SortNewestFirst(xs, key), p) == SortNewestFirst(Filter(xs, p), key)
    decreases |xs|
  {
    if xs != [] {
      FilterSortCommute(xs[1..], p, key);
      FilterInsert(xs[0], SortNewestFirst(xs[1..], key), p, key);
      assert xs == [xs[0]] + xs[1..];
      FilterAppend([xs[0]], xs[1..], p);
      var f := Filter(xs[1..], p);
      if p(xs[0]) {
        assert ([xs[0]] + f)[0] == xs[0] && ([xs[0]] + f)[1..] == f;
      }
    }
  }

  /** `slice(0, n)`: at most the first `n` elements. */
  function Take<T>(xs: seq<T>, n: nat): (r: seq<T>)
    ensures |r| == if |xs| < n then |xs| else n
    ensures r == xs[..|r|]
  {
    if |xs| < n then xs else xs[..n]
  }

  /** The "recent" panels: the `n` newest elements of `xs`, newest first. */
  function Newest<T>(xs: seq<T>, key: T -> int, n: nat): (r: seq<T>)
    ensures |r| == if |xs| < n then |xs| else n
    ensures NewestFirst(r, key)
  {
    var sorted := SortNewestFirst(xs, key);
    var r := Take(sorted, n);
    assert forall i, j :: 0 <= i < j < |r| ==> r[i] == sorted[i] && r[j] == sorted[j];
    r
  }

  /** What the "recent" panels leave out: the older remainder of the sort. */
  function Older<T>(xs: seq<T>, key: T -> int, n: nat): seq<T>
  {
    var sorted := SortNewestFirst(xs, key);
    sorted[|Take(sorted, n)|..]
  }

  /** Shown and left-out elements together are exactly `xs`, and nothing left
      out is newer than anything shown. */
  lemma NewestDominates<T>(xs: seq<T>, key: T -> int, n: nat)
    ensures multiset(Newest(xs, key, n)) + multiset(Older(xs, key, n)) == multiset(xs)
    ensures forall i, j :: 0 <= i < |Newest(xs, key, n)| && 0 <= j < |Older(xs, key, n)| ==>
              key(Older(xs, key, n)[j]) <= key(Newest(xs, key, n)[i])
  {
    var sorted := SortNewestFirst(xs, key);
    var r := Newest(xs, key, n);
    var rest := Older(xs, key, n);
    assert sorted == r + rest;
    forall i, j | 0 <= i < |r| && 0 <= j < |rest|
      ensures key(rest[j]) <= key(r[i])
    {
      assert sorted[i] == r[i] && sorted[|r| + j] == rest[j];
    }
  }

  /** An element left off the "recent" panel is no newer than any element on it. */
  lemma LeftOutIsOlder<T>(xs: seq<T>, key: T -> int, n: nat, d: T)
    requires d in xs && d !in Newest(xs, key, n)
    ensures forall i :: 0 <= i < |Newest(xs, key, n)| ==> key(d) <= key(Newest(xs, key, n)[i])
  {
    var rest := Older(xs, key, n);
    NewestDominates(xs, key, n);
    assert d in multiset(xs);
    assert d in multiset(rest);
    var j :| 0 <= j < |rest| && rest[j] == d;
  }
}
