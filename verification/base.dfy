/** Small generic building blocks shared by the model: an optional value,
    counting and filtering over sequences, sums, prefixes and reversal. */
module Base {

  /** A value that may be absent (Python's `None`). */
  datatype Option<+T> = None | Some(value: T) {
    function GetOr(default: T): T {
      match this
      case Some(v) => v
      case None => default
    }
  }

  /** Number of elements of `xs` satisfying `p` (an ORM `.filter(...).count()`). */
  function Count<T>(xs: seq<T>, p: T -> bool): (n: nat)
    ensures n <= |xs|
  {
    if |xs| == 0 then 0
    else (if p(xs[0]) then 1 else 0) + Count(xs[1..], p)
  }

  /** Nothing is counted exactly when no element satisfies `p`. */
  lemma {:induction false} CountZero<T>(xs: seq<T>, p: T -> bool)
    ensures Count(xs, p) == 0 <==> forall i :: 0 <= i < |xs| ==> !p(xs[i])
  {
    if |xs| > 0 {
      CountZero(xs[1..], p);
      assert forall i :: 1 <= i < |xs| ==> xs[i] == xs[1..][i - 1];
    }
  }

  /** Everything is counted exactly when every element satisfies `p`. */
  lemma {:induction false} CountAll<T>(xs: seq<T>, p: T -> bool)
    ensures Count(xs, p) == |xs| <==> forall i :: 0 <= i < |xs| ==> p(xs[i])
  {
    if |xs| > 0 {
      CountAll(xs[1..], p);
      assert forall i :: 1 <= i < |xs| ==> xs[i] == xs[1..][i - 1];
    }
  }

  /** Counting distributes over concatenation. */
  lemma {:induction false} CountAppend<T>(xs: seq<T>, ys: seq<T>, p: T -> bool)
    ensures Count(xs + ys, p) == Count(xs, p) + Count(ys, p)
  {
    if |xs| == 0 {
      assert xs + ys == ys;
    } else {
      assert (xs + ys)[1..] == xs[1..] + ys;
      CountAppend(xs[1..], ys, p);
    }
  }

  /** A weaker predicate counts at least as many elements. */
  lemma {:induction false} CountMono<T>(xs: seq<T>, p: T -> bool, q: T -> bool)
    requires forall i :: 0 <= i < |xs| ==> p(xs[i]) ==> q(xs[i])
    ensures Count(xs, p) <= Count(xs, q)
  {
    if |xs| > 0 {
      CountMono(xs[1..], p, q);
    }
  }

  /** When `p` is the disjoint union of `q` and `r`, its count is the sum of theirs. */
  lemma {:induction false} CountSplit<T>(xs: seq<T>, p: T -> bool, q: T -> bool, r: T -> bool)
    requires forall i :: 0 <= i < |xs| ==> (p(xs[i]) <==> q(xs[i]) || r(xs[i]))
    requires forall i :: 0 <= i < |xs| ==> !(q(xs[i]) && r(xs[i]))
    ensures Count(xs, p) == Count(xs, q) + Count(xs, r)
  {
    if |xs| > 0 {
      CountSplit(xs[1..], p, q, r);
    }
  }

  /** Removing the element at `k` removes one occurrence of it. */
  lemma RemoveAt<T>(ys: seq<T>, k: nat)
    requires k < |ys|
    ensures multiset(ys[..k] + ys[k + 1..]) == multiset(ys) - multiset{ys[k]}
  {
    assert ys == ys[..k] + ([ys[k]] + ys[k + 1..]);
    assert multiset(ys) == multiset(ys[..k]) + multiset{ys[k]} + multiset(ys[k + 1..]);
  }

  /** Removing the element at `k` uncounts it. */
  lemma {:induction false} CountRemoveAt<T>(ys: seq<T>, k: nat, p: T -> bool)
    requires k < |ys|
    ensures Count(ys, p) == Count(ys[..k] + ys[k + 1..], p) + (if p(ys[k]) then 1 else 0)
  {
    var rest := ys[..k] + ys[k + 1..];
    if k == 0 {
      assert rest == ys[1..];
    } else {
      var tail := ys[1..];
      CountRemoveAt(tail, k - 1, p);
      var rest' := tail[..k - 1] + tail[k..];
      assert rest[1..] == rest';
      assert rest[0] == ys[0] && tail[k - 1] == ys[k];
    }
  }

  /** Replacing the element at `k` by `v` trades its count for that of `v`. */
  lemma {:induction false} CountUpdate<T>(xs: seq<T>, k: nat, v: T, p: T -> bool)
    requires k < |xs|
    ensures Count(xs[k := v], p) + (if p(xs[k]) then 1 else 0) == Count(xs, p) + (if p(v) then 1 else 0)
  {
    if k > 0 {
      CountUpdate(xs[1..], k - 1, v, p);
      assert xs[k := v][1..] == xs[1..][k - 1 := v];
    } else {
      assert xs[k := v][1..] == xs[1..];
    }
  }

  /** Counting does not depend on the order of the elements. */
  lemma {:induction false} CountPermutation<T>(xs: seq<T>, ys: seq<T>, p: T -> bool)
    requires multiset(xs) == multiset(ys)
    ensures Count(xs, p) == Count(ys, p)
    decreases |xs|
  {
    if |xs| > 0 {
      var x := xs[0];
      assert x in multiset(ys);
      var k :| 0 <= k < |ys| && ys[k] == x;
      RemoveAt(ys, k);
      CountRemoveAt(ys, k, p);
      assert xs == [x] + xs[1..];
      assert multiset(xs[1..]) == multiset(xs) - multiset{x};
      CountPermutation(xs[1..], ys[..k] + ys[k + 1..], p);
    }
  }

  /** Position of the first element satisfying `p`, if any: the ORM's
      `get(...)` on a column whose values are unique. */
  function Find<T>(xs: seq<T>, p: T -> bool): (k: Option<nat>)
    ensures k.None? <==> forall i :: 0 <= i < |xs| ==> !p(xs[i])
    ensures k.Some? ==> k.value < |xs| && p(xs[k.value])
    ensures k.Some? ==> forall i :: 0 <= i < k.value ==> !p(xs[i])
  {
    if |xs| == 0 then None
    else if p(xs[0]) then Some(0)
    else match Find(xs[1..], p)
      case None => None
      case Some(k) => Some(k + 1)
  }

  /** The elements of `xs` satisfying `p`, in their original order. */
  function Filter<T>(xs: seq<T>, p: T -> bool): (r: seq<T>)
    ensures |r| == Count(xs, p)
    ensures forall i :: 0 <= i < |r| ==> p(r[i])
    ensures forall i :: 0 <= i < |xs| && p(xs[i]) ==> xs[i] in r
    ensures multiset(r) <= multiset(xs)
  {
    if |xs| == 0 then []
    else
      assert xs == [xs[0]] + xs[1..];
      if p(xs[0]) then [xs[0]] + Filter(xs[1..], p)
      else Filter(xs[1..], p)
  }

  /** Filtering keeps every occurrence of a value satisfying `p` and drops
      every other value. */
  lemma {:induction false} FilterMultiplicity<T>(xs: seq<T>, p: T -> bool, v: T)
    ensures multiset(Filter(xs, p))[v] == if p(v) then multiset(xs)[v] else 0
  {
    if |xs| > 0 {
      FilterMultiplicity(xs[1..], p, v);
      assert xs == [xs[0]] + xs[1..];
    }
  }

  /** Filtering two permutations of each other gives permutations of each
      other. */
  lemma FilterPermutation<T>(xs: seq<T>, ys: seq<T>, p: T -> bool)
    requires multiset(xs) == multiset(ys)
    ensures multiset(Filter(xs, p)) == multiset(Filter(ys, p))
  {
    forall v
      ensures multiset(Filter(xs, p))[v] == multiset(Filter(ys, p))[v]
    {
      FilterMultiplicity(xs, p, v);
      FilterMultiplicity(ys, p, v);
    }
  }

  /** Python's `xs[:n]` for `n >= 0`: the first `n` elements, or all of them. */
  function Prefix<T>(xs: seq<T>, n: nat): (r: seq<T>)
    ensures |r| == if n < |xs| then n else |xs|
    ensures r <= xs
    ensures multiset(r) <= multiset(xs)
  {
    var r := if n < |xs| then xs[..n] else xs;
    assert xs == r + xs[|r|..];
    r
  }

  function Sum(xs: seq<int>): int {
    if |xs| == 0 then 0 else xs[0] + Sum(xs[1..])
  }

  /** Python's `list(reversed(xs))`. */
  function Reverse<T>(xs: seq<T>): (r: seq<T>)
    ensures |r| == |xs|
    ensures forall i :: 0 <= i < |xs| ==> r[i] == xs[|xs| - 1 - i]
  {
    if |xs| == 0 then [] else Reverse(xs[1..]) + [xs[0]]
  }

  predicate NoDuplicates<T(==)>(xs: seq<T>) {
    forall i, j :: 0 <= i < j < |xs| ==> xs[i] != xs[j]
  }

  /** The distinct elements of `xs`, each kept at its first occurrence. */
  function Distinct<T(==)>(xs: seq<T>): (r: seq<T>)
    ensures NoDuplicates(r)
    ensures forall i :: 0 <= i < |r| ==> r[i] in xs
    ensures forall i :: 0 <= i < |xs| ==> xs[i] in r
  {
    if |xs| == 0 then []
    else
      var d := Distinct(xs[..|xs| - 1]);
      assert xs == xs[..|xs| - 1] + [xs[|xs| - 1]];
      if xs[|xs| - 1] in d then d else d + [xs[|xs| - 1]]
  }

  /** A sequence without duplicates holds each value at most once. */
  lemma {:induction false} NoDuplicatesMultiplicity<T>(xs: seq<T>, v: T)
    requires NoDuplicates(xs)
    ensures multiset(xs)[v] <= 1
  {
    if |xs| > 0 {
      assert xs == [xs[0]] + xs[1..];
      NoDuplicatesMultiplicity(xs[1..], v);
      if xs[0] == v {
        assert v !in xs[1..];
      }
    }
  }

  /** A sub-multiset of a duplicate-free sequence is itself duplicate-free. */
  lemma SubMultisetNoDuplicates<T>(xs: seq<T>, ys: seq<T>)
    requires NoDuplicates(xs)
    requires multiset(ys) <= multiset(xs)
    ensures NoDuplicates(ys)
  {
    forall i, j | 0 <= i < j < |ys|
      ensures ys[i] != ys[j]
    {
      if ys[i] == ys[j] {
        var v := ys[i];
        assert ys == ys[..j] + [ys[j]] + ys[j + 1..];
        assert v in ys[..j];
        assert multiset(ys) == multiset(ys[..j]) + multiset{v} + multiset(ys[j + 1..]);
        assert multiset(ys)[v] >= 2;
        NoDuplicatesMultiplicity(xs, v);
        assert false;
      }
    }
  }
}
