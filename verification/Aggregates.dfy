/** The collectors behind the aggregate functions of a grouped lookup, over integers. */
module Aggregates {
  import opened Permutation

  const MIN_INT64 := -0x8000_0000_0000_0000
  const MAX_INT64 := 0x7FFF_FFFF_FFFF_FFFF

  predicate IsInt64(x: int) {
    MIN_INT64 <= x <= MAX_INT64
  }

  /** Addition of two 64-bit integers wraps around. */
  function Wrap(x: int): (w: int)
    ensures IsInt64(w)
  {
    (x - MIN_INT64) % 0x1_0000_0000_0000_0000 + MIN_INT64
  }

  datatype AggFunc = Sum | Count | Avg | Min | Max

  function Itself(x: int): int {
    x
  }

  function Total(args: seq<int>): int {
    SumOf(Itself, args)
  }

  function Least(args: seq<int>): int {
    if args == [] then MAX_INT64
    else var m, x := Least(args[..|args| - 1]), args[|args| - 1]; if x < m then x else m
  }

  function Greatest(args: seq<int>): int {
    if args == [] then MIN_INT64
    else var m, x := Greatest(args[..|args| - 1]), args[|args| - 1]; if x > m then x else m
  }

  /** The value of an aggregate over the arguments of the rows it was applied to. */
  function Value(f: AggFunc, args: seq<int>): int {
    match f
    case Sum => Wrap(Total(args))
    case Count => |args|
    case Avg => if args == [] then 0 else Total(args) / |args|
    case Min => Least(args)
    case Max => Greatest(args)
  }

  // ---------------------------------------------------------------- the collectors

  lemma WrapAdd(a: int, b: int)
    ensures Wrap(Wrap(a) + b) == Wrap(a + b)
  {
    var m, k := 0x1_0000_0000_0000_0000, (a - MIN_INT64) / 0x1_0000_0000_0000_0000;
    assert Wrap(a) == a - k * m;
    assert (a + b - k * m - MIN_INT64) % m == (a + b - MIN_INT64) % m by {
      ModShift(a + b - MIN_INT64, k);
    }
  }

  lemma ModShift(x: int, k: int)
    ensures (x - k * 0x1_0000_0000_0000_0000) % 0x1_0000_0000_0000_0000 == x % 0x1_0000_0000_0000_0000
  {
  }

  class EvalCtx {
    const aggFunc: AggFunc
    var sum: int
    var avgInt: int
    var avgCount: nat
    var count: nat
    var min: int
    var max: int
    ghost var fed: seq<int>

    ghost predicate Valid()
      reads this
    {
      match aggFunc
      case Sum => sum == Wrap(Total(fed))
      case Count => count == |fed|
      case Avg => avgInt == Total(fed) && avgCount == |fed|
      case Min => min == Least(fed)
      case Max => max == Greatest(fed)
    }

    constructor (aggFunc: AggFunc)
      ensures Valid() && this.aggFunc == aggFunc && fed == []
    {
      this.aggFunc := aggFunc;
      sum, avgInt, avgCount, count := 0, 0, 0, 0;
      min, max := MAX_INT64, MIN_INT64;
      fed := [];
    }

    /** One row: its argument is collected when the condition of the `_if` variant holds. */
    method Eval(arg: int, isApply: bool) returns (value: int)
      requires Valid() && IsInt64(arg)
      modifies this
      ensures Valid() && fed == (if isApply then old(fed) + [arg] else old(fed))
      ensures value == Value(aggFunc, fed)
    {
      if isApply {
        FeedOne(fed, arg);
        Collect(arg);
        fed := fed + [arg];
      }
      match aggFunc
      case Sum => value := sum;
      case Count => value := count;
      case Avg => value := if avgCount > 0 then avgInt / avgCount else 0;
      case Min => value := min;
      case Max => value := max;
    }

    method Collect(arg: int)
      modifies this
      ensures fed == old(fed)
      ensures match aggFunc
              case Sum => sum == Wrap(old(sum) + arg)
              case Count => count == old(count) + 1
              case Avg => avgInt == old(avgInt) + arg && avgCount == old(avgCount) + 1
              case Min => min == if arg < old(min) then arg else old(min)
              case Max => max == if arg > old(max) then arg else old(max)
    {
      match aggFunc
      case Sum => sum := Wrap(sum + arg);
      case Count => count := count + 1;
      case Avg => avgInt, avgCount := avgInt + arg, avgCount + 1;
      case Min => if arg < min { min := arg; }
      case Max => if arg > max { max := arg; }
    }
  }

  lemma FeedOne(args: seq<int>, arg: int)
    ensures Total(args + [arg]) == Total(args) + arg && Wrap(Wrap(Total(args)) + arg) == Wrap(Total(args + [arg]))
    ensures Least(args + [arg]) == if arg < Least(args) then arg else Least(args)
    ensures Greatest(args + [arg]) == if arg > Greatest(args) then arg else Greatest(args)
  {
    SumOfLast(Itself, args, arg);
    WrapAdd(Total(args), arg);
    assert (args + [arg])[..|args|] == args;
  }

  // ---------------------------------------------------------------- what the values mean

  predicate AllInt64(args: seq<int>) {
    forall i :: 0 <= i < |args| ==> IsInt64(args[i])
  }

  lemma {:induction false} LeastMeans(args: seq<int>)
    requires args != [] && AllInt64(args)
    ensures Least(args) in args && forall x :: x in args ==> Least(args) <= x
  {
    var n := |args| - 1;
    var front := args[..n];
    assert args == front + [args[n]];
    if n > 0 {
      LeastMeans(front);
      assert forall x :: x in args <==> x in front || x == args[n];
    }
  }

  lemma {:induction false} GreatestMeans(args: seq<int>)
    requires args != [] && AllInt64(args)
    ensures Greatest(args) in args && forall x :: x in args ==> Greatest(args) >= x
  {
    var n := |args| - 1;
    var front := args[..n];
    assert args == front + [args[n]];
    if n > 0 {
      GreatestMeans(front);
      assert forall x :: x in args <==> x in front || x == args[n];
    }
  }

  lemma {:induction false} TotalBetween(args: seq<int>, low: int, high: int)
    requires forall x :: x in args ==> low <= x <= high
    ensures |args| * low <= Total(args) <= |args| * high
  {
    if args != [] {
      var n := |args| - 1;
      assert args[n] in args && forall x :: x in args[..n] ==> x in args;
      TotalBetween(args[..n], low, high);
      assert |args| * low == n * low + low && |args| * high == n * high + high;
    }
  }

  lemma FloorBetween(t: int, n: nat, low: int, high: int)
    requires n > 0 && n * low <= t <= n * high
    ensures low <= t / n <= high && n * (t / n) <= t < n * (t / n) + n
  {
    Division(t, n);
    MulLess(n, low, t / n + 1);
    MulLess(n, t / n, high + 1);
  }

  lemma Division(t: int, n: nat)
    requires n > 0
    ensures n * (t / n) <= t < n * (t / n) + n && n * (t / n + 1) == n * (t / n) + n
  {
  }

  lemma MulLess(n: nat, a: int, b: int)
    requires n * a < n * b
    ensures a < b
  {
    assert n * (b - a) > 0;
  }

  /** The average is rounded down, lies between the least and the greatest argument, and so fits. */
  lemma AvgMeans(args: seq<int>)
    requires args != [] && AllInt64(args)
    ensures var v, n := Value(Avg, args), |args|;
            n * v <= Total(args) < n * v + n && Least(args) <= v <= Greatest(args) && IsInt64(v)
  {
    LeastMeans(args);
    GreatestMeans(args);
    TotalBetween(args, Least(args), Greatest(args));
    FloorBetween(Total(args), |args|, Least(args), Greatest(args));
  }

  /** No aggregate depends on the order in which the rows arrive. */
  lemma ValuePermutes(f: AggFunc, a: seq<int>, b: seq<int>)
    requires Permutes(a, b) && AllInt64(a) && AllInt64(b)
    ensures Value(f, a) == Value(f, b)
  {
    SumPermutes(Itself, a, b);
    if a != [] {
      LeastMeans(a);
      LeastMeans(b);
      GreatestMeans(a);
      GreatestMeans(b);
      SameElements(a, b, Least(a));
      SameElements(a, b, Least(b));
      SameElements(a, b, Greatest(a));
      SameElements(a, b, Greatest(b));
    }
  }
}
