/** The split of the 64-bit token space among the batches of a node, and what the batches' scans
    read together. */
module TokenIntervals {
  import opened TokenScan

  const MIN_INT64 := -0x8000_0000_0000_0000
  const MAX_INT64 := 0x7FFF_FFFF_FFFF_FFFF
  const MAX_BATCHES := 1000000

  /** Addition of two 64-bit integers wraps around. */
  function Wrap(x: int): int {
    (x - MIN_INT64) % 0x1_0000_0000_0000_0000 + MIN_INT64
  }

  predicate IsInt64(x: int) {
    MIN_INT64 <= x <= MAX_INT64
  }

  /** Integer division truncates toward zero. */
  function Quotient(a: int, n: nat): int
    requires n > 0
  {
    if a >= 0 then a / n else -(-a / n)
  }

  function Width(n: nat): int
    requires n > 0
  {
    Quotient(MAX_INT64, n) - Quotient(MIN_INT64, n)
  }

  lemma QuotientBounds(x: int, n: nat)
    requires 2 <= n <= MAX_BATCHES <= x
    ensures n * (x / n) <= x < n * (x / n) + n && 1 <= x / n && 2 * (x / n) <= x
  {
    assert (n - 2) * (x / n) >= 0;
  }

  /** What the division leaves over for the last interval. */
  lemma {:induction false} WidthLeavesOver(n: nat)
    requires 1 < n <= MAX_BATCHES
    ensures Width(n) <= MAX_INT64 && FitsInt64(n, Width(n))
  {
    var a, b := MAX_INT64 / n, -MIN_INT64 / n;
    QuotientBounds(MAX_INT64, n);
    QuotientBounds(-MIN_INT64, n);
    assert n * (a + b) == n * a + n * b;
  }

  datatype Interval = Interval(left: int, right: int)

  /** Contiguous, non-empty intervals of 64-bit integers that cover them all. */
  ghost predicate Partition(ivs: seq<Interval>) {
    && ivs != [] && ivs[0].left == MIN_INT64 && ivs[|ivs| - 1].right == MAX_INT64
    && (forall i :: 0 <= i < |ivs| ==> IsInt64(ivs[i].left) && IsInt64(ivs[i].right) && ivs[i].left <= ivs[i].right)
    && (forall i :: 0 < i < |ivs| ==> Follows(ivs, i))
  }

  predicate Follows(ivs: seq<Interval>, i: nat)
    requires 0 < i < |ivs|
  {
    ivs[i].left == ivs[i - 1].right + 1
  }

  method GetTokenIntervalsByNumberOfBatches(n: nat) returns (intervals: seq<Interval>)
    requires 1 <= n <= MAX_BATCHES
    ensures |intervals| == n && Partition(intervals)
    ensures forall i :: 0 <= i < n - 1 ==> intervals[i].right - intervals[i].left + 1 == Width(n)
    ensures n > 1 ==> 1 <= intervals[n - 1].right - intervals[n - 1].left + 1 - Width(n) <= 2 * n - 1
  {
    if n == 1 {
      return [Interval(MIN_INT64, MAX_INT64)];
    }
    WidthLeavesOver(n);
    var per := Wrap(Quotient(MAX_INT64, n) - Quotient(MIN_INT64, n));
    intervals := SplitEvenly(n, per);
  }

  method SplitEvenly(n: nat, per: int) returns (intervals: seq<Interval>)
    requires n > 1 && FitsInt64(n, per)
    ensures |intervals| == n && Partition(intervals)
    ensures forall i :: 0 <= i < n - 1 ==> intervals[i].right - intervals[i].left + 1 == per
    ensures 1 <= intervals[n - 1].right - intervals[n - 1].left + 1 - per <= 2 * n - 1
  {
    intervals := [];
    var left := MIN_INT64;
    for i := 0 to n
      invariant |intervals| == i && (i < n ==> left == LeftOf(per, i))
      invariant forall k :: 0 <= k < i ==> intervals[k] == IntervalNo(n, per, k)
    {
      var right;
      LeftBounds(n, per, i);
      if i == n - 1 {
        right := MAX_INT64;
      } else {
        right := Wrap(Wrap(left + per) - 1);
      }
      intervals := intervals + [Interval(left, right)];
      left := Wrap(right + 1);
    }
    IsPartition(n, per, intervals);
  }

  function LeftOf(w: int, i: nat): int {
    if i == 0 then MIN_INT64 else LeftOf(w, i - 1) + w
  }

  lemma {:induction false} LeftIs(w: int, i: nat)
    ensures LeftOf(w, i) == MIN_INT64 + i * w
  {
    if i > 0 {
      LeftIs(w, i - 1);
    }
  }

  function IntervalNo(n: nat, w: int, i: nat): Interval {
    Interval(LeftOf(w, i), if i == n - 1 then MAX_INT64 else LeftOf(w, i) + w - 1)
  }

  predicate FitsInt64(n: nat, w: int) {
    w >= 2 && 1 <= 0x1_0000_0000_0000_0000 - n * w <= 2 * n - 1
  }

  lemma LeftBounds(n: nat, w: int, i: nat)
    requires FitsInt64(n, w) && i < n
    ensures LeftOf(w, i + 1) == LeftOf(w, i) + w
    ensures MIN_INT64 <= LeftOf(w, i) < LeftOf(w, i) + w <= MAX_INT64
    ensures i == n - 1 ==> 1 <= MAX_INT64 - LeftOf(w, i) + 1 - w <= 2 * n - 1
  {
    LeftIs(w, i);
    Multiples(n, w, i);
  }

  lemma Multiples(n: nat, w: nat, i: nat)
    requires i < n
    ensures 0 <= i * w && (i + 1) * w == i * w + w <= n * w && (n - 1) * w == n * w - w
  {
    assert (i + 1) * w + (n - i - 1) * w == n * w;
  }

  lemma IsPartition(n: nat, w: int, ivs: seq<Interval>)
    requires FitsInt64(n, w) && n > 1 && |ivs| == n
    requires forall k :: 0 <= k < n ==> ivs[k] == IntervalNo(n, w, k)
    ensures Partition(ivs)
    ensures forall i :: 0 <= i < n - 1 ==> ivs[i].right - ivs[i].left + 1 == w
    ensures 1 <= ivs[n - 1].right - ivs[n - 1].left + 1 - w <= 2 * n - 1
  {
    LeftBounds(n, w, n - 1);
    forall i | 0 <= i < n
      ensures IsInt64(ivs[i].left) && IsInt64(ivs[i].right) && ivs[i].left <= ivs[i].right
    {
      LeftBounds(n, w, i);
    }
    forall i | 0 < i < n ensures Follows(ivs, i) {
      LeftBounds(n, w, i - 1);
    }
  }

  // ---------------------------------------------------------------- the batches of a source table

  /** The rows a batch's query selects. */
  function RowsIn(src: seq<Row>, iv: Interval): seq<Row>
    requires iv.left <= iv.right
  {
    FirstAtGrows(src, iv.left, iv.right + 1, 0);
    src[FirstAt(src, iv.left, 0)..FirstAt(src, iv.right + 1, 0)]
  }

  lemma {:induction false} FirstAtGrows(src: seq<Row>, a: int, b: int, i: nat)
    requires i <= |src| && a <= b
    ensures FirstAt(src, a, i) <= FirstAt(src, b, i)
    decreases |src| - i
  {
    if i < |src| && src[i].token < a {
      FirstAtGrows(src, a, b, i + 1);
    }
  }

  /** A row is selected by the batch whose interval holds its token, and by no other. */
  lemma RowInIff(src: seq<Row>, iv: Interval, k: nat)
    requires Sorted(src) && k < |src| && iv.left <= iv.right
    ensures FirstAt(src, iv.left, 0) <= k < FirstAt(src, iv.right + 1, 0) <==> iv.left <= src[k].token <= iv.right
  {
    assert InOrder(src, FirstAt(src, iv.left, 0), k) && InOrder(src, FirstAt(src, iv.right + 1, 0), k);
  }

  lemma {:induction false} IntervalOf(ivs: seq<Interval>, token: int, n: nat) returns (i: nat)
    requires Partition(ivs) && n < |ivs| && IsInt64(token) && token <= ivs[n].right
    ensures i <= n && ivs[i].left <= token <= ivs[i].right
  {
    if ivs[n].left <= token {
      i := n;
    } else {
      assert n > 0 ==> Follows(ivs, n);
      i := IntervalOf(ivs, token, n - 1);
    }
  }

  lemma {:induction false} IntervalsApart(ivs: seq<Interval>, i: nat, j: nat)
    requires Partition(ivs) && i < j < |ivs|
    ensures ivs[i].right < ivs[j].left
  {
    assert Follows(ivs, j);
    if i < j - 1 {
      IntervalsApart(ivs, i, j - 1);
    }
  }

  /** Every token is in exactly one interval. */
  lemma TokenInOneInterval(ivs: seq<Interval>, token: int) returns (i: nat)
    requires Partition(ivs) && IsInt64(token)
    ensures i < |ivs| && forall j :: 0 <= j < |ivs| ==> (ivs[j].left <= token <= ivs[j].right <==> j == i)
  {
    i := IntervalOf(ivs, token, |ivs| - 1);
    forall j | 0 <= j < |ivs| ensures ivs[j].left <= token <= ivs[j].right <==> j == i {
      if j < i {
        IntervalsApart(ivs, j, i);
      } else if i < j {
        IntervalsApart(ivs, i, j);
      }
    }
  }

  /** What the first `n` batches read, one batch after the other. */
  function ReadBy(src: seq<Row>, ivs: seq<Interval>, n: nat): seq<Row>
    requires n <= |ivs| && forall i :: 0 <= i < |ivs| ==> ivs[i].left <= ivs[i].right
  {
    if n == 0 then [] else ReadBy(src, ivs, n - 1) + RowsIn(src, ivs[n - 1])
  }

  lemma NextBatch(src: seq<Row>, before: int, iv: Interval)
    requires iv.left == before + 1 <= iv.right
    ensures src[..FirstAt(src, before + 1, 0)] + RowsIn(src, iv) == src[..FirstAt(src, iv.right + 1, 0)]
  {
    FirstAtGrows(src, iv.left, iv.right + 1, 0);
  }

  lemma FirstBatch(src: seq<Row>, iv: Interval)
    requires iv.left == MIN_INT64 <= iv.right && forall i :: 0 <= i < |src| ==> IsInt64(src[i].token)
    ensures RowsIn(src, iv) == src[..FirstAt(src, iv.right + 1, 0)]
  {
    assert FirstAt(src, MIN_INT64, 0) == 0;
  }

  lemma {:induction false} ReadByPrefix(src: seq<Row>, ivs: seq<Interval>, n: nat)
    requires Partition(ivs) && 0 < n <= |ivs|
    requires forall i :: 0 <= i < |src| ==> IsInt64(src[i].token)
    ensures ReadBy(src, ivs, n) == src[..FirstAt(src, ivs[n - 1].right + 1, 0)]
  {
    if n == 1 {
      FirstBatch(src, ivs[0]);
      assert ReadBy(src, ivs, 1) == [] + RowsIn(src, ivs[0]);
    } else {
      ReadByPrefix(src, ivs, n - 1);
      assert Follows(ivs, n - 1);
      NextBatch(src, ivs[n - 2].right, ivs[n - 1]);
    }
  }

  /** Together the batches read the source table: each row once, in token order. */
  lemma {:induction false} BatchesReadEverything(src: seq<Row>, ivs: seq<Interval>)
    requires Partition(ivs) && forall i :: 0 <= i < |src| ==> IsInt64(src[i].token)
    ensures ReadBy(src, ivs, |ivs|) == src
  {
    var n: nat := |ivs|;
    ReadByPrefix(src, ivs, n);
    var end := FirstAt(src, ivs[n - 1].right + 1, 0);
    assert forall i :: 0 <= i < |src| ==> src[i].token < ivs[n - 1].right + 1;
    assert src[..end] == src;
  }

  lemma PartSorted(src: seq<Row>, a: nat, b: nat)
    requires Sorted(src) && Distinct(src) && a <= b <= |src|
    ensures Sorted(src[a..b]) && Distinct(src[a..b])
  {
    forall i, j ensures InOrder(src[a..b], i, j) {
      assert InOrder(src, a + i, a + j);
    }
    forall i, j ensures Apart(src[a..b], i, j) {
      assert Apart(src, a + i, a + j);
    }
  }

  /** A batch's scan is exactly-once on its own rows exactly when its own pages fit. */
  lemma BatchExactlyOnceIff(src: seq<Row>, size: nat, iv: Interval)
    requires Sorted(src) && Distinct(src) && iv.left <= iv.right
    ensures ExactlyOnce(RowsIn(src, iv), size, iv.left) <==> PagesFit(RowsIn(src, iv), size)
  {
    var rows := RowsIn(src, iv);
    PartSorted(src, FirstAt(src, iv.left, 0), FirstAt(src, iv.right + 1, 0));
    ExactlyOnceIff(rows, size, iv.left);
  }

  /** When tokens are distinct and a rowset holds two rows or more, all batches are exactly-once. */
  lemma DistinctTokensRead(src: seq<Row>, size: nat, iv: Interval)
    requires Sorted(src) && Distinct(src) && iv.left <= iv.right
    requires size >= 2 && forall i :: TokensDiffer(src, i)
    ensures ExactlyOnce(RowsIn(src, iv), size, iv.left)
  {
    var a, b := FirstAt(src, iv.left, 0), FirstAt(src, iv.right + 1, 0);
    FirstAtGrows(src, iv.left, iv.right + 1, 0);
    forall i ensures TokensDiffer(src[a..b], i) {
      assert TokensDiffer(src, a + i);
    }
    DistinctTokensFit(RowsIn(src, iv), size);
    BatchExactlyOnceIff(src, size, iv);
  }
}
