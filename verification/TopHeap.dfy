/** Keeping the rows with the least keys: a heap with the greatest key on top, cut to a limit. */
module TopHeap {
  import opened Permutation

  /** A file record with the key it is ordered by; a key is its rank among all strings. */
  datatype Item = Item(record: int, key: int)

  function Parent(i: nat): nat
    requires i > 0
  {
    (i - 1) / 2
  }

  predicate UnderParent(h: seq<Item>, k: nat)
    requires 0 < k < |h|
  {
    h[Parent(k)].key >= h[k].key
  }

  /** Every item is under its parent. */
  ghost predicate IsHeap(h: seq<Item>) {
    forall k :: 0 < k < |h| ==> UnderParent(h, k)
  }

  function Swap(h: seq<Item>, i: nat, j: nat): (s: seq<Item>)
    requires i < |h| && j < |h|
    ensures |s| == |h| && multiset(s) == multiset(h)
  {
    h[i := h[j]][j := h[i]]
  }

  lemma {:induction false} TopIsGreatest(h: seq<Item>, k: nat)
    requires IsHeap(h) && k < |h|
    ensures h[0].key >= h[k].key
  {
    if k > 0 {
      assert UnderParent(h, k);
      TopIsGreatest(h, Parent(k));
    }
  }

  // ---------------------------------------------------------------- sifting

  /** A heap but for item `j`, which may be above its parent. */
  ghost predicate HeapButUp(h: seq<Item>, j: nat) {
    && j < |h|
    && (forall k :: 0 < k < |h| && k != j ==> UnderParent(h, k))
    && (forall k :: 0 < k < |h| && j > 0 && Parent(k) == j ==> h[Parent(j)].key >= h[k].key)
  }

  lemma {:induction false} UpStep(h: seq<Item>, j: nat)
    requires HeapButUp(h, j) && j > 0 && h[j].key > h[Parent(j)].key
    ensures HeapButUp(Swap(h, Parent(j), j), Parent(j))
  {
    var i := Parent(j);
    var s := Swap(h, i, j);
    forall k | 0 < k < |s| && k != i ensures UnderParent(s, k) {
      if k != j {
        assert UnderParent(h, k);
      }
    }
    forall k | 0 < k < |s| && i > 0 && Parent(k) == i ensures s[Parent(i)].key >= s[k].key {
      assert UnderParent(h, i);
      if k != j {
        assert UnderParent(h, k);
      }
    }
  }

  method Up(h0: seq<Item>, j0: nat) returns (h: seq<Item>)
    requires HeapButUp(h0, j0)
    ensures IsHeap(h) && |h| == |h0| && multiset(h) == multiset(h0)
  {
    h := h0;
    var j := j0;
    while j > 0 && h[j].key > h[Parent(j)].key
      invariant HeapButUp(h, j) && |h| == |h0| && multiset(h) == multiset(h0)
    {
      UpStep(h, j);
      h := Swap(h, Parent(j), j);
      j := Parent(j);
    }
    forall k | 0 < k < |h| ensures UnderParent(h, k) {
      if k != j {
        assert UnderParent(h, k);
      }
    }
  }

  /** A heap but for item `i`, which may be below one of its children. */
  ghost predicate HeapButDown(h: seq<Item>, i: nat) {
    && (forall k :: 0 < k < |h| && Parent(k) != i ==> UnderParent(h, k))
    && (forall k :: 0 < i < |h| && 0 < k < |h| && Parent(k) == i ==> h[Parent(i)].key >= h[k].key)
  }

  lemma {:induction false} DownStep(h: seq<Item>, i: nat, j: nat)
    requires HeapButDown(h, i) && 0 < j < |h| && Parent(j) == i && h[j].key > h[i].key
    requires forall k :: 0 < k < |h| && Parent(k) == i ==> h[j].key >= h[k].key
    ensures HeapButDown(Swap(h, i, j), j)
  {
    var s := Swap(h, i, j);
    forall k | 0 < k < |s| && Parent(k) != j ensures UnderParent(s, k) {
      if Parent(k) != i {
        assert UnderParent(h, k);
      }
    }
    forall k | 0 < k < |s| && Parent(k) == j ensures s[i].key >= s[k].key {
      assert UnderParent(h, k);
    }
  }

  method Down(h0: seq<Item>) returns (h: seq<Item>)
    requires HeapButDown(h0, 0)
    ensures IsHeap(h) && |h| == |h0| && multiset(h) == multiset(h0)
  {
    h := h0;
    var i := 0;
    while 2 * i + 1 < |h|
      invariant HeapButDown(h, i) && |h| == |h0| && multiset(h) == multiset(h0)
      decreases |h| - i
    {
      var j := 2 * i + 1;
      if j + 1 < |h| && h[j + 1].key > h[j].key {
        j := j + 1;
      }
      if h[j].key <= h[i].key {
        forall k | 0 < k < |h| ensures UnderParent(h, k) {
          if Parent(k) != i {
            assert UnderParent(h, k);
          }
        }
        return;
      }
      DownStep(h, i, j);
      h := Swap(h, i, j);
      i := j;
    }
    forall k | 0 < k < |h| ensures UnderParent(h, k) {
      assert Parent(k) != i;
    }
  }

  // ---------------------------------------------------------------- the heap

  class FileRecordHeap {
    var items: seq<Item>

    ghost predicate Valid()
      reads this
    {
      IsHeap(items)
    }

    constructor ()
      ensures Valid() && items == []
    {
      items := [];
    }

    method Push(x: Item)
      requires Valid()
      modifies this
      ensures Valid() && multiset(items) == multiset(old(items)) + multiset{x}
    {
      var h := items + [x];
      forall k | 0 < k < |h| - 1 ensures UnderParent(h, k) {
        assert UnderParent(items, k);
      }
      items := Up(h, |h| - 1);
    }

    method Pop() returns (top: Item)
      requires Valid() && items != []
      modifies this
      ensures Valid() && multiset(old(items)) == multiset(items) + multiset{top}
      ensures forall x :: x in old(items) ==> x.key <= top.key
    {
      top := items[0];
      forall x | x in items ensures x.key <= top.key {
        var k :| 0 <= k < |items| && items[k] == x;
        TopIsGreatest(items, k);
      }
      var n := |items| - 1;
      PopShape(items);
      items := Down(Swap(items, 0, n)[..n]);
    }
  }

  lemma PopShape(h: seq<Item>)
    requires IsHeap(h) && h != []
    ensures var rest := Swap(h, 0, |h| - 1)[..|h| - 1];
            HeapButDown(rest, 0) && multiset(h) == multiset(rest) + multiset{h[0]}
  {
    var n := |h| - 1;
    var s := Swap(h, 0, n);
    assert s == s[..n] + [h[0]];
    forall k | 0 < k < n && Parent(k) != 0 ensures UnderParent(s[..n], k) {
      assert UnderParent(h, k);
    }
  }

  // ---------------------------------------------------------------- the top rows of a stream

  predicate Ascending(s: seq<Item>) {
    forall i, j :: 0 <= i < j < |s| ==> s[i].key <= s[j].key
  }

  /** The rest of the stream was dropped, and no dropped key is less than a kept one. */
  ghost predicate IsTop(kept: multiset<Item>, dropped: multiset<Item>, stream: seq<Item>) {
    kept + dropped == multiset(stream) && forall x, y :: x in kept && y in dropped ==> x.key <= y.key
  }

  /** Pushing an item and dropping the greatest keeps the top. */
  lemma DropGreatest(kept: multiset<Item>, dropped: multiset<Item>, stream: seq<Item>, x: Item, top: Item,
                     rest: multiset<Item>)
    requires IsTop(kept, dropped, stream) && kept + multiset{x} == rest + multiset{top}
    requires forall y :: y in kept + multiset{x} ==> y.key <= top.key
    ensures IsTop(rest, dropped + multiset{top}, stream + [x])
  {
    forall y, z | y in rest && z in dropped + multiset{top} ensures y.key <= z.key {
      assert y in kept + multiset{x};
      if z in dropped {
        if y in kept {
        } else {
          assert y == x && x != top && top in kept + multiset{x};
          assert top in kept;
        }
      }
    }
    Regroup(kept, dropped, multiset(stream), x, top, rest);
    assert multiset(stream + [x]) == multiset(stream) + multiset{x};
  }

  lemma Regroup(kept: multiset<Item>, dropped: multiset<Item>, all: multiset<Item>, x: Item, top: Item,
                rest: multiset<Item>)
    requires kept + dropped == all && kept + multiset{x} == rest + multiset{top}
    ensures rest + (dropped + multiset{top}) == all + multiset{x}
  {
    assert rest + (dropped + multiset{top}) == (rest + multiset{top}) + dropped == (kept + multiset{x}) + dropped;
  }

  method CollectTop(stream: seq<Item>, limit: nat) returns (topHeap: FileRecordHeap, ghost dropped: seq<Item>)
    ensures fresh(topHeap) && topHeap.Valid()
    ensures |topHeap.items| == if |stream| < limit then |stream| else limit
    ensures IsTop(multiset(topHeap.items), multiset(dropped), stream)
  {
    topHeap := new FileRecordHeap();
    dropped := [];
    for i := 0 to |stream|
      invariant fresh(topHeap) && topHeap.Valid()
      invariant |topHeap.items| == (if i < limit then i else limit) && (i <= limit ==> dropped == [])
      invariant IsTop(multiset(topHeap.items), multiset(dropped), stream[..i])
    {
      assert stream[..i + 1] == stream[..i] + [stream[i]];
      ghost var kept := multiset(topHeap.items);
      topHeap.Push(stream[i]);
      assert |multiset(topHeap.items)| == |topHeap.items| == |kept| + 1;
      if |topHeap.items| > limit {
        var top := topHeap.Pop();
        assert |multiset(topHeap.items)| == |topHeap.items|;
        DropGreatest(kept, multiset(dropped), stream[..i], stream[i], top, multiset(topHeap.items));
        dropped := dropped + [top];
      }
    }
    assert stream[..|stream|] == stream;
  }

  /** Pops the heap from the back of the list to its front. */
  method Unload(topHeap: FileRecordHeap) returns (out: seq<Item>)
    requires topHeap.Valid()
    modifies topHeap
    ensures Ascending(out) && multiset(out) == multiset(old(topHeap.items))
  {
    out := [];
    while topHeap.items != []
      invariant topHeap.Valid() && Ascending(out)
      invariant multiset(topHeap.items) + multiset(out) == multiset(old(topHeap.items))
      invariant forall x, y :: x in multiset(topHeap.items) && y in out ==> x.key <= y.key
      decreases |topHeap.items|
    {
      ghost var before := topHeap.items;
      var top := topHeap.Pop();
      assert |multiset(before)| == |multiset(topHeap.items)| + 1;
      assert |multiset(before)| == |before| && |multiset(topHeap.items)| == |topHeap.items|;
      forall x | x in multiset(topHeap.items) + multiset{top} ensures x.key <= top.key && x in multiset(before) {
        assert x in multiset(before);
      }
      out := [top] + out;
    }
  }

  method ReadTop(stream: seq<Item>, limit: nat) returns (out: seq<Item>, ghost dropped: seq<Item>)
    ensures |out| == if |stream| < limit then |stream| else limit
    ensures Ascending(out) && IsTop(multiset(out), multiset(dropped), stream)
  {
    var topHeap;
    topHeap, dropped := CollectTop(stream, limit);
    ghost var kept := topHeap.items;
    out := Unload(topHeap);
    assert |multiset(out)| == |out| && |multiset(kept)| == |kept|;
  }

  // ---------------------------------------------------------------- sort, then take

  function IsBelow(v: int): Item -> int {
    (x: Item) => if x.key < v then 1 else 0
  }

  /** How many keys are less than `v`. */
  function CountBelow(s: seq<Item>, v: int): int {
    SumOf(IsBelow(v), s)
  }

  lemma {:induction false} CountRange(s: seq<Item>, v: int)
    ensures 0 <= CountBelow(s, v) <= |s|
    ensures (forall x :: x in s ==> x.key >= v) ==> CountBelow(s, v) == 0
  {
    if s != [] {
      CountRange(s[..|s| - 1], v);
      assert s == s[..|s| - 1] + [s[|s| - 1]];
    }
  }

  lemma {:induction false} CountAscending(s: seq<Item>, v: int, i: nat)
    requires Ascending(s) && i < |s|
    ensures if s[i].key < v then CountBelow(s, v) > i else CountBelow(s, v) <= i
  {
    var n := |s| - 1;
    if i < n {
      CountAscending(s[..n], v, i);
    } else {
      CountRange(s[..n], v);
      if s[n].key < v {
        CountAll(s[..n], v);
      }
    }
  }

  lemma {:induction false} CountAll(s: seq<Item>, v: int)
    requires forall k :: 0 <= k < |s| ==> s[k].key < v
    ensures CountBelow(s, v) == |s|
  {
    if s != [] {
      CountAll(s[..|s| - 1], v);
    }
  }

  lemma {:induction false} CountSum(a: seq<Item>, b: seq<Item>, v: int)
    ensures CountBelow(a + b, v) == CountBelow(a, v) + CountBelow(b, v)
  {
    if b == [] {
      assert a + b == a;
    } else {
      var n := |b| - 1;
      assert a + b == (a + b[..n]) + [b[n]];
      CountSum(a, b[..n], v);
      SumOfLast(IsBelow(v), a + b[..n], b[n]);
    }
  }

  lemma {:induction false} TimesIsMultiset(s: seq<Item>, x: Item)
    ensures Times(s, x) == multiset(s)[x]
  {
    if s != [] {
      TimesIsMultiset(s[..|s| - 1], x);
      assert s == s[..|s| - 1] + [s[|s| - 1]];
    }
  }

  lemma SameCount(a: seq<Item>, b: seq<Item>, v: int)
    requires multiset(a) == multiset(b)
    ensures CountBelow(a, v) == CountBelow(b, v)
  {
    forall x ensures Times(a, x) == Times(b, x) {
      TimesIsMultiset(a, x);
      TimesIsMultiset(b, x);
    }
    SumPermutes(IsBelow(v), a, b);
  }

  /** The keys of the top are the first keys of the stream in any sorted order. */
  lemma TopIsSortThenTake(stream: seq<Item>, out: seq<Item>, dropped: seq<Item>, sorted: seq<Item>, i: nat)
    requires Ascending(out) && IsTop(multiset(out), multiset(dropped), stream) && i < |out|
    requires Ascending(sorted) && multiset(sorted) == multiset(stream)
    ensures i < |sorted| && out[i].key == sorted[i].key
  {
    assert multiset(out + dropped) == multiset(sorted);
    assert |multiset(out + dropped)| == |out| + |dropped| && |multiset(sorted)| == |sorted|;
    CompareAt(out, dropped, sorted, out[i].key);
    CompareAt(out, dropped, sorted, sorted[i].key);
    CountAscending(out, out[i].key, i);
    CountAscending(out, sorted[i].key, i);
    CountAscending(sorted, out[i].key, i);
    CountAscending(sorted, sorted[i].key, i);
    forall x | x in dropped ensures x.key >= out[i].key {
      assert out[i] in multiset(out) && x in multiset(dropped);
    }
    CountRange(dropped, out[i].key);
    CountRange(dropped, sorted[i].key);
  }

  lemma CompareAt(out: seq<Item>, dropped: seq<Item>, sorted: seq<Item>, v: int)
    requires multiset(out + dropped) == multiset(sorted)
    ensures CountBelow(sorted, v) == CountBelow(out, v) + CountBelow(dropped, v)
  {
    SameCount(out + dropped, sorted, v);
    CountSum(out, dropped, v);
  }
}
