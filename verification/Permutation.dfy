/** Lists that hold the same elements in another order, and sums that do not depend on the order. */
module Permutation {
  /** How many times an element is in a list. */
  function Times<T(==)>(xs: seq<T>, x: T): nat {
    if xs == [] then 0 else Times(xs[..|xs| - 1], x) + if xs[|xs| - 1] == x then 1 else 0
  }

  ghost predicate Permutes<T(!new)>(a: seq<T>, b: seq<T>) {
    forall x :: Times(a, x) == Times(b, x)
  }

  lemma TimesLast<T>(xs: seq<T>, y: T, x: T)
    ensures Times(xs + [y], x) == Times(xs, x) + if y == x then 1 else 0
  {
    assert (xs + [y])[..|xs|] == xs;
  }

  lemma {:induction false} TimesIn<T>(xs: seq<T>, x: T)
    ensures Times(xs, x) > 0 <==> x in xs
  {
    if xs != [] {
      TimesIn(xs[..|xs| - 1], x);
      assert xs == xs[..|xs| - 1] + [xs[|xs| - 1]];
    }
  }

  function SumOf<T>(f: T -> int, xs: seq<T>): int {
    if xs == [] then 0 else SumOf(f, xs[..|xs| - 1]) + f(xs[|xs| - 1])
  }

  lemma SumOfLast<T>(f: T -> int, xs: seq<T>, y: T)
    ensures SumOf(f, xs + [y]) == SumOf(f, xs) + f(y)
  {
    assert (xs + [y])[..|xs|] == xs;
  }

  function Drop<T>(xs: seq<T>, k: nat): seq<T>
    requires k < |xs|
  {
    xs[..k] + xs[k + 1..]
  }

  lemma DropLast<T>(xs: seq<T>, k: nat)
    requires k < |xs| - 1
    ensures Drop(xs, k) == Drop(xs[..|xs| - 1], k) + [xs[|xs| - 1]]
  {
  }

  lemma {:induction false} WithoutOne<T>(f: T -> int, xs: seq<T>, k: nat, x: T)
    requires k < |xs|
    ensures SumOf(f, xs) == SumOf(f, Drop(xs, k)) + f(xs[k])
    ensures Times(xs, x) == Times(Drop(xs, k), x) + if xs[k] == x then 1 else 0
  {
    var n := |xs| - 1;
    if k == n {
      assert Drop(xs, k) == xs[..n];
    } else {
      WithoutOne(f, xs[..n], k, x);
      DropLast(xs, k);
      SumOfLast(f, Drop(xs[..n], k), xs[n]);
      TimesLast(Drop(xs[..n], k), xs[n], x);
    }
  }

  lemma PermutesWithout<T(!new)>(f: T -> int, a: seq<T>, b: seq<T>, i: nat, k: nat)
    requires Permutes(a, b) && i < |a| && k < |b| && a[i] == b[k]
    ensures Permutes(Drop(a, i), Drop(b, k))
  {
    forall x ensures Times(Drop(a, i), x) == Times(Drop(b, k), x) {
      WithoutOne(f, a, i, x);
      WithoutOne(f, b, k, x);
    }
  }

  lemma {:induction false} SumPermutes<T(!new)>(f: T -> int, a: seq<T>, b: seq<T>)
    requires Permutes(a, b)
    ensures SumOf(f, a) == SumOf(f, b) && |a| == |b|
    decreases |a|
  {
    if a == [] {
      if b != [] {
        TimesIn(b, b[0]);
        TimesIn(a, b[0]);
      }
    } else {
      var x := a[|a| - 1];
      TimesIn(a, x);
      TimesIn(b, x);
      var k :| 0 <= k < |b| && b[k] == x;
      WithoutOne(f, a, |a| - 1, x);
      WithoutOne(f, b, k, x);
      PermutesWithout(f, a, b, |a| - 1, k);
      SumPermutes(f, Drop(a, |a| - 1), Drop(b, k));
    }
  }

  lemma SameElements<T(!new)>(a: seq<T>, b: seq<T>, x: T)
    requires Permutes(a, b)
    ensures x in a <==> x in b
  {
    TimesIn(a, x);
    TimesIn(b, x);
  }

  function Map<S, T>(f: S -> T, xs: seq<S>): (ys: seq<T>)
    ensures |ys| == |xs| && forall i :: 0 <= i < |xs| ==> ys[i] == f(xs[i])
  {
    if xs == [] then [] else Map(f, xs[..|xs| - 1]) + [f(xs[|xs| - 1])]
  }

  lemma {:induction false} TimesOfMap<S, T>(f: S -> T, isX: S -> int, xs: seq<S>, x: T)
    requires forall i :: 0 <= i < |xs| ==> isX(xs[i]) == if f(xs[i]) == x then 1 else 0
    ensures Times(Map(f, xs), x) == SumOf(isX, xs)
  {
    if xs != [] {
      TimesOfMap(f, isX, xs[..|xs| - 1], x);
      TimesLast(Map(f, xs[..|xs| - 1]), f(xs[|xs| - 1]), x);
    }
  }

  lemma MapPermutes<S(!new), T(!new)>(f: S -> T, a: seq<S>, b: seq<S>)
    requires Permutes(a, b)
    ensures Permutes(Map(f, a), Map(f, b))
  {
    forall x ensures Times(Map(f, a), x) == Times(Map(f, b), x) {
      var isX := s => if f(s) == x then 1 else 0;
      TimesOfMap(f, isX, a, x);
      TimesOfMap(f, isX, b, x);
      SumPermutes(isX, a, b);
    }
  }
}
