/** Sequence operations every page applies to its loaded list:
    `Array.prototype.filter`, `find` and `map`-based replacement, together
    with the facts the pages need about them. */
module Listing {
  import opened Wrappers

  /** `a` is an order-preserving subsequence of `b`. */
  predicate Subsequence<T(==)>(a: seq<T>, b: seq<T>)
    decreases |b|
  {
    if a == [] then true
    else if b == [] then false
    else if a[0] == b[0] then Subsequence(a[1..], b[1..])
    else Subsequence(a, b[1..])
  }

  /** `xs.filter(keep)`: the rows `keep` accepts, each as often as in `xs`. */
  function Filter<T(!new)>(xs: seq<T>, keep: T -> bool): (r: seq<T>)
    ensures |r| <= |xs|
    ensures forall x :: x in r <==> x in xs && keep(x)
    ensures forall x :: multiset(r)[x] == if keep(x) then multiset(xs)[x] else 0
  {
    if xs == [] then []
    else
      var rest := Filter(xs[1..], keep);
      assert xs == [xs[0]] + xs[1..];
      if keep(xs[0]) then [xs[0]] + rest else rest
  }

  lemma {:induction false} FilterIsSubsequence<T(!new)>(xs: seq<T>, keep: T -> bool)
    ensures Subsequence(Filter(xs, keep), xs)
    decreases |xs|
  {
    if xs != [] {
      FilterIsSubsequence(xs[1..], keep);
      var r := Filter(xs, keep);
      if keep(xs[0]) {
        assert r[0] == xs[0] && r[1..] == Filter(xs[1..], keep);
      } else {
        SubsequenceDropFront(r, xs);
      }
    }
  }

  /** A subsequence of `b[1..]` is a subsequence of `b`. */
  lemma {:induction false} SubsequenceDropFront<T>(a: seq<T>, b: seq<T>)
    requires b != [] && Subsequence(a, b[1..])
    ensures Subsequence(a, b)
    decreases |b|, 0
  {
    if a != [] && a[0] == b[0] {
      SubsequenceTail(a, b[1..]);
    }
  }

  /** Dropping the head of a subsequence keeps it a subsequence. */
  lemma {:induction false} SubsequenceTail<T>(a: seq<T>, b: seq<T>)
    requires a != [] && Subsequence(a, b)
    ensures Subsequence(a[1..], b)
    decreases |b|, 1
  {
    if a[0] == b[0] {
      SubsequenceDropFront(a[1..], b);
    } else {
      SubsequenceTail(a, b[1..]);
      SubsequenceDropFront(a[1..], b);
    }
  }

  /** Filtering with a test every row passes returns the list itself. */
  lemma {:induction false} FilterKeepsAll<T(!new)>(xs: seq<T>, keep: T -> bool)
    requires forall i :: 0 <= i < |xs| ==> keep(xs[i])
    ensures Filter(xs, keep) == xs
    decreases |xs|
  {
    if xs != [] {
      FilterKeepsAll(xs[1..], keep);
    }
  }

  /** Filtering distributes over concatenation. */
  lemma {:induction false} FilterAppend<T(!new)>(xs: seq<T>, ys: seq<T>, keep: T -> bool)
    ensures Filter(xs + ys, keep) == Filter(xs, keep) + Filter(ys, keep)
    decreases |xs|
  {
    if xs == [] {
      assert xs + ys == ys;
    } else {
      assert (xs + ys)[1..] == xs[1..] + ys;
      FilterAppend(xs[1..], ys, keep);
    }
  }

  /** `xs.findIndex(p)`: the first index whose row passes `p`. */
  function FindIndex<T>(xs: seq<T>, p: T -> bool): (r: Option<nat>)
    ensures r.Some? ==> r.value < |xs| && p(xs[r.value])
    ensures r.Some? ==> forall j :: 0 <= j < r.value ==> !p(xs[j])
    ensures r.None? ==> forall j :: 0 <= j < |xs| ==> !p(xs[j])
  {
    if xs == [] then None
    else if p(xs[0]) then Some(0)
    else match FindIndex(xs[1..], p)
      case None => None
      case Some(k) => Some(k + 1)
  }

  /** `xs.find(p)`: the first row passing `p`, if any. */
  function Find<T>(xs: seq<T>, p: T -> bool): (r: Option<T>)
    ensures r.Some? ==> r.value in xs && p(r.value)
    ensures r.None? <==> forall j :: 0 <= j < |xs| ==> !p(xs[j])
    ensures r.Some? ==> exists i :: 0 <= i < |xs| && xs[i] == r.value && FirstAt(xs, p, i)
  {
    match FindIndex(xs, p)
    case None => None
    case Some(i) => assert FirstAt(xs, p, i); Some(xs[i])
  }

  /** Index `i` holds the first row of `xs` passing `p`. */
  predicate FirstAt<T>(xs: seq<T>, p: T -> bool, i: int) {
    0 <= i < |xs| && p(xs[i]) && forall j :: 0 <= j < i ==> !p(xs[j])
  }

  /** `xs.find(x => key(x) === k)`: the first row with key `k`; when the
      keys are unique, the one row that has it. */
  function FindByKey<T>(xs: seq<T>, key: T -> int, k: int): (r: Option<T>)
    ensures r.None? <==> forall j :: 0 <= j < |xs| ==> key(xs[j]) != k
    ensures r.Some? ==> r.value in xs && key(r.value) == k
    ensures forall j :: 0 <= j < |xs| && key(xs[j]) == k && UniqueKeys(xs, key) ==> r == Some(xs[j])
  {
    var r := Find(xs, (x: T) => key(x) == k);
    assert forall j :: 0 <= j < |xs| && key(xs[j]) == k && UniqueKeys(xs, key) ==> r == Some(xs[j]) by {
      forall j | 0 <= j < |xs| && key(xs[j]) == k && UniqueKeys(xs, key)
        ensures r == Some(xs[j])
      {
        var i :| 0 <= i < |xs| && xs[i] == r.value && FirstAt(xs, (x: T) => key(x) == k, i);
        assert i == j;
      }
    }
    r
  }

  /** `xs.map(x => same(x) ? row : x)`: every row `same` picks is replaced by `row`. */
  function ReplaceWhere<T>(xs: seq<T>, same: T -> bool, row: T): (r: seq<T>)
    ensures |r| == |xs|
    ensures forall i :: 0 <= i < |xs| ==> r[i] == if same(xs[i]) then row else xs[i]
  {
    seq(|xs|, i requires 0 <= i < |xs| => if same(xs[i]) then row else xs[i])
  }

  /** No two elements of `xs` have the same key. */
  predicate UniqueKeys<T>(xs: seq<T>, key: T -> int) {
    forall i, j :: 0 <= i < j < |xs| ==> key(xs[i]) != key(xs[j])
  }

  /** Filtering never introduces a duplicate key. */
  lemma {:induction false} FilterKeepsUniqueKeys<T(!new)>(xs: seq<T>, keep: T -> bool, key: T -> int)
    requires UniqueKeys(xs, key)
    ensures UniqueKeys(Filter(xs, keep), key)
    decreases |xs|
  {
    if xs != [] {
      var tail := xs[1..];
      FilterKeepsUniqueKeys(tail, keep, key);
      var rest := Filter(tail, keep);
      forall j | 0 <= j < |rest|
        ensures key(rest[j]) != key(xs[0])
      {
        assert rest[j] in tail;
        var k :| 0 <= k < |tail| && tail[k] == rest[j];
        assert xs[k + 1] == rest[j];
      }
    }
  }

  /** `xs.map(f)`. */
  function Map<T, U>(xs: seq<T>, f: T -> U): (r: seq<U>)
    ensures |r| == |xs|
    ensures forall i :: 0 <= i < |xs| ==> r[i] == f(xs[i])
  {
    seq(|xs|, i requires 0 <= i < |xs| => f(xs[i]))
  }

  /** Mapping with `f` and then `g` is mapping with their composition. */
  lemma MapCompose<T, U, V>(xs: seq<T>, f: T -> U, g: U -> V, h: T -> V)
    requires forall x :: h(x) == g(f(x))
    ensures Map(xs, h) == Map(Map(xs, f), g)
  {
  }
}
