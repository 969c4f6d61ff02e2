/**
 `Array.prototype.filter` on sequences, and the order-preservation facts the
 delete operations rely on.
 */
module Seqs {

  /** `a` can be obtained from `b` by deleting elements: the relative order
      of what remains is unchanged. */
  ghost predicate Subsequence<T>(a: seq<T>, b: seq<T>)
    decreases |b|
  {
    if a == [] then true
    else if b == [] then false
    else if a[0] == b[0] then Subsequence(a[1..], b[1..])
    else Subsequence(a, b[1..])
  }

  /** `xs.filter(keep)`. */
  function Filter<T(==)>(xs: seq<T>, keep: T -> bool): (r: seq<T>)
    ensures |r| <= |xs|
    ensures forall x :: x in r ==> x in xs && keep(x)
    ensures forall x :: x in xs && keep(x) ==> x in r
    ensures forall x :: x in xs ==> multiset(r)[x] == (if keep(x) then multiset(xs)[x] else 0)
    ensures Subsequence(r, xs)
  {
    if xs == [] then []
    else
      var rest := Filter(xs[1..], keep);
      assert xs == [xs[0]] + xs[1..];
      assert multiset(xs) == multiset{xs[0]} + multiset(xs[1..]);
      if keep(xs[0]) then
        var r := [xs[0]] + rest;
        assert multiset(r) == multiset{xs[0]} + multiset(rest);
        r
      else
        assert rest != [] ==> rest[0] != xs[0] by {
          if rest != [] { assert rest[0] in rest; }
        }
        rest
  }

  /** Filtering what was already filtered changes nothing. */
  lemma {:induction false} FilterIdempotent<T>(xs: seq<T>, keep: T -> bool)
    ensures Filter(Filter(xs, keep), keep) == Filter(xs, keep)
  {
    FilterKeepsAll(Filter(xs, keep), keep);
  }

  /** A filter that every element passes returns its input. */
  lemma {:induction false} FilterKeepsAll<T>(xs: seq<T>, keep: T -> bool)
    requires forall x :: x in xs ==> keep(x)
    ensures Filter(xs, keep) == xs
  {
    if xs != [] {
      assert xs[0] in xs;
      FilterKeepsAll(xs[1..], keep);
      assert xs == [xs[0]] + xs[1..];
    }
  }

  /** No two elements of `xs` share a key. */
  predicate DistinctKeys<T, K(==)>(xs: seq<T>, key: T -> K) {
    forall i, j :: 0 <= i < j < |xs| ==> key(xs[i]) != key(xs[j])
  }

  /** Filtering never makes two remaining elements share a key. */
  lemma {:induction false} FilterKeepsDistinct<T, K>(xs: seq<T>, keep: T -> bool, key: T -> K)
    requires DistinctKeys(xs, key)
    ensures DistinctKeys(Filter(xs, keep), key)
  {
    if xs != [] {
      HeadKeyFresh(xs, key);
      FilterKeepsDistinct(xs[1..], keep, key);
      if keep(xs[0]) {
        PrependDistinct(xs[0], Filter(xs[1..], keep), key);
      }
    }
  }

  /** The head's key is not shared by anything behind it, and the tail keeps distinct keys. */
  lemma HeadKeyFresh<T, K>(xs: seq<T>, key: T -> K)
    requires xs != [] && DistinctKeys(xs, key)
    ensures forall y :: y in xs[1..] ==> key(y) != key(xs[0])
    ensures DistinctKeys(xs[1..], key)
  {
    var tail := xs[1..];
    forall y | y in tail ensures key(y) != key(xs[0]) {
      var m :| 0 <= m < |tail| && tail[m] == y;
      assert xs[m + 1] == y;
    }
    forall i, j | 0 <= i < j < |tail| ensures key(tail[i]) != key(tail[j]) {
      assert tail[i] == xs[i + 1] && tail[j] == xs[j + 1];
    }
  }

  /** Putting an element with a fresh key in front keeps the keys distinct. */
  lemma PrependDistinct<T, K>(x: T, rest: seq<T>, key: T -> K)
    requires DistinctKeys(rest, key)
    requires forall y :: y in rest ==> key(y) != key(x)
    ensures DistinctKeys([x] + rest, key)
  {
    var r := [x] + rest;
    forall i, j | 0 <= i < j < |r| ensures key(r[i]) != key(r[j]) {
      assert r[j] == rest[j - 1] && rest[j - 1] in rest;
      if i > 0 {
        assert r[i] == rest[i - 1];
      }
    }
  }
}
