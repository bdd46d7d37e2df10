/** Ordering by a comparator, as the ORM does for `order_by(...)` and for a
    model's default `Meta.ordering`. `le(a, b)` means "a may come before b".
    The sort is an insertion sort that keeps tied elements in input order. */
module Sorting {
  import opened Base

  ghost predicate Total<T(!new)>(le: (T, T) -> bool) {
    forall a, b :: le(a, b) || le(b, a)
  }

  ghost predicate Transitive<T(!new)>(le: (T, T) -> bool) {
    forall a, b, c :: le(a, b) && le(b, c) ==> le(a, c)
  }

  ghost predicate TotalPreorder<T(!new)>(le: (T, T) -> bool) {
    Total(le) && Transitive(le)
  }

  predicate SortedBy<T>(xs: seq<T>, le: (T, T) -> bool) {
    forall i, j :: 0 <= i < j < |xs| ==> le(xs[i], xs[j])
  }

  /** Places `x` in front of the first element it may precede. */
  function Insert<T>(x: T, xs: seq<T>, le: (T, T) -> bool): (r: seq<T>)
    ensures |r| == |xs| + 1
    ensures multiset(r) == multiset(xs) + multiset{x}
  {
    if |xs| == 0 then [x]
    else if le(x, xs[0]) then [x] + xs
    else
      assert xs == [xs[0]] + xs[1..];
      [xs[0]] + Insert(x, xs[1..], le)
  }

  function Sort<T>(xs: seq<T>, le: (T, T) -> bool): (r: seq<T>)
    ensures |r| == |xs|
    ensures multiset(r) == multiset(xs)
  {
    if |xs| == 0 then []
    else
      assert xs == [xs[0]] + xs[1..];
      Insert(xs[0], Sort(xs[1..], le), le)
  }

  lemma {:induction false} InsertSorted<T(!new)>(x: T, xs: seq<T>, le: (T, T) -> bool)
    requires TotalPreorder(le)
    requires SortedBy(xs, le)
    ensures SortedBy(Insert(x, xs, le), le)
  {
    if |xs| > 0 && !le(x, xs[0]) {
      var rest := Insert(x, xs[1..], le);
      InsertSorted(x, xs[1..], le);
      assert le(xs[0], x);
      forall k | 0 <= k < |rest|
        ensures le(xs[0], rest[k])
      {
        assert rest[k] in multiset(rest);
        assert rest[k] == x || rest[k] in multiset(xs[1..]);
        if rest[k] != x {
          var m :| 0 <= m < |xs[1..]| && xs[1..][m] == rest[k];
          assert xs[1 + m] == rest[k];
        }
      }
      assert Insert(x, xs, le) == [xs[0]] + rest;
    }
  }

  lemma {:induction false} SortSorted<T(!new)>(xs: seq<T>, le: (T, T) -> bool)
    requires TotalPreorder(le)
    ensures SortedBy(Sort(xs, le), le)
  {
    if |xs| > 0 {
      SortSorted(xs[1..], le);
      InsertSorted(xs[0], Sort(xs[1..], le), le);
    }
  }

  /** The first `n` elements of `xs` in `le` order: `order_by(...)[:n]`. */
  function TopN<T>(xs: seq<T>, le: (T, T) -> bool, n: nat): (r: seq<T>)
    ensures |r| == if n < |xs| then n else |xs|
    ensures multiset(r) <= multiset(xs)
  {
    Prefix(Sort(xs, le), n)
  }

  /** What `order_by(...)[:n]` promises: at most `n` elements, in order, drawn
      from the input, and nothing left out ranks above the last one kept. */
  lemma TopNRanks<T(!new)>(xs: seq<T>, le: (T, T) -> bool, n: nat)
    requires TotalPreorder(le)
    ensures SortedBy(TopN(xs, le, n), le)
    ensures var r := TopN(xs, le, n);
      |r| > 0 ==> forall x :: x in multiset(xs) - multiset(r) ==> le(r[|r| - 1], x)
  {
    var s := Sort(xs, le);
    SortSorted(xs, le);
    PrefixRanks(s, le, n);
  }

  /** The first `n` elements of a sorted list are sorted, and every element
      after them ranks no higher than the last one taken. */
  lemma PrefixRanks<T>(s: seq<T>, le: (T, T) -> bool, n: nat)
    requires SortedBy(s, le)
    ensures SortedBy(Prefix(s, n), le)
    ensures var r := Prefix(s, n);
      |r| > 0 ==> forall x :: x in multiset(s) - multiset(r) ==> le(r[|r| - 1], x)
  {
    var r := Prefix(s, n);
    var rest := s[|r|..];
    assert s == r + rest;
    assert multiset(s) == multiset(r) + multiset(rest);
    if |r| > 0 {
      forall x | x in multiset(s) - multiset(r)
        ensures le(r[|r| - 1], x)
      {
        assert x in multiset(rest);
        var m :| 0 <= m < |rest| && rest[m] == x;
        assert s[|r| + m] == x;
        assert s[|r| - 1] == r[|r| - 1];
      }
    }
  }

  /** Filtering keeps an ordered list ordered. */
  lemma {:induction false} SortedFilter<T>(xs: seq<T>, p: T -> bool, le: (T, T) -> bool)
    requires SortedBy(xs, le)
    ensures SortedBy(Filter(xs, p), le)
  {
    if |xs| > 0 {
      SortedFilter(xs[1..], p, le);
      var rest := Filter(xs[1..], p);
      if p(xs[0]) {
        forall k | 0 <= k < |rest|
          ensures le(xs[0], rest[k])
        {
          assert rest[k] in multiset(rest);
          var m :| 0 <= m < |xs[1..]| && xs[1..][m] == rest[k];
          assert xs[1 + m] == rest[k];
        }
      }
    }
  }
}
