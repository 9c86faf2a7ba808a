/** The paged scan of a source table in token order. Rows may share a token, so every page starts
    at the last token of the page before and skips the rows that page handed out with it. */
module TokenScan {
  datatype Row = Row(token: int, rowid: int)

  predicate InOrder(src: seq<Row>, i: int, j: int) {
    0 <= i <= j < |src| ==> src[i].token <= src[j].token
  }

  predicate Apart(src: seq<Row>, i: int, j: int) {
    0 <= i < j < |src| ==> src[i].rowid != src[j].rowid
  }

  ghost predicate Sorted(src: seq<Row>) {
    forall i, j :: InOrder(src, i, j)
  }

  /** The rowid is the table's partition key. */
  ghost predicate Distinct(src: seq<Row>) {
    forall i, j :: Apart(src, i, j)
  }

  // ---------------------------------------------------------------- one page

  /** The first row from `i` on whose token is not below the given one. */
  function FirstAt(src: seq<Row>, token: int, i: nat): (n: nat)
    requires i <= |src|
    ensures i <= n <= |src| && forall j :: i <= j < n ==> src[j].token < token
    ensures n < |src| ==> src[n].token >= token
    decreases |src| - i
  {
    if i == |src| || src[i].token >= token then i else FirstAt(src, token, i + 1)
  }

  function Min(a: nat, b: nat): nat {
    if a < b then a else b
  }

  /** The result of the query, when `src` holds the rows up to the scan's last token: its LIMIT is
      the size of the rowset. */
  function Query(src: seq<Row>, size: nat, token: int): (out: seq<Row>)
    ensures |out| <= size
  {
    var n := FirstAt(src, token, 0);
    src[n..Min(n + size, |src|)]
  }

  /** The rows among the first `n` that were not handed out by the page before. */
  function Fresh(rows: seq<Row>, n: nat, token: int, skip: set<int>): (out: seq<Row>)
    requires n <= |rows|
    ensures |out| <= n
  {
    if n == 0 then []
    else
      Fresh(rows, n - 1, token, skip)
      + if rows[n - 1].token == token && rows[n - 1].rowid in skip then [] else [rows[n - 1]]
  }

  function LastToken(rows: seq<Row>): int {
    if rows == [] then 0 else rows[|rows| - 1].token
  }

  /** The rowids at the end of the first `n` rows that share the token the query ended with. */
  function Epilogue(rows: seq<Row>, n: nat, token: int): set<int>
    requires n <= |rows|
  {
    if n == 0 || rows[n - 1].token != token then {} else Epilogue(rows, n - 1, token) + {rows[n - 1].rowid}
  }

  method SelectBatchFromTableByToken(src: seq<Row>, size: nat, token: int, skip: seq<int>)
    returns (rows: seq<Row>, last: int, epilogue: seq<int>)
    ensures var page := Query(src, size, token);
            rows == Fresh(page, |page|, token, IdSet(skip)) && last == LastToken(page)
    ensures IdSet(epilogue) == Epilogue(rows, |rows|, last)
  {
    var iter := Query(src, size, token);
    rows, last := [], 0;
    var k := 0;
    while |rows| < size && k < |iter|
      invariant 0 <= k <= |iter| && |rows| <= k
      invariant rows == Fresh(iter, k, token, IdSet(skip)) && last == LastToken(iter[..k])
    {
      last := iter[k].token;
      k := k + 1;
      if last == token && iter[k - 1].rowid in skip {
        continue;
      }
      rows := rows + [iter[k - 1]];
    }
    assert iter[..|iter|] == iter;
    epilogue := ReadEpilogue(rows, last);
  }

  method ReadEpilogue(rows: seq<Row>, last: int) returns (epilogue: seq<int>)
    ensures IdSet(epilogue) == Epilogue(rows, |rows|, last)
  {
    epilogue := [];
    var i := |rows|;
    while i > 0 && rows[i - 1].token == last
      invariant 0 <= i <= |rows|
      invariant Epilogue(rows, |rows|, last) == IdSet(epilogue) + Epilogue(rows, i, last)
    {
      epilogue := epilogue + [rows[i - 1].rowid];
      i := i - 1;
    }
  }

  function IdSet(ids: seq<int>): set<int> {
    set i | i in ids
  }

  // ---------------------------------------------------------------- the page loop

  /** What the loop carries from page to page, and the rows handed out so far. */
  datatype Scan = Scan(handed: seq<Row>, token: int, skip: set<int>)

  function PageRows(src: seq<Row>, size: nat, s: Scan): seq<Row> {
    var page := Query(src, size, s.token);
    Fresh(page, |page|, s.token, s.skip)
  }

  /** One iteration; the loop stops at the first page that hands out nothing. */
  function Step(src: seq<Row>, size: nat, s: Scan): Scan {
    Advance(s, PageRows(src, size, s), LastToken(Query(src, size, s.token)))
  }

  function Advance(s: Scan, rows: seq<Row>, last: int): Scan {
    if rows == [] then s else Scan(s.handed + rows, last, Epilogue(rows, |rows|, last))
  }

  function Times<S>(f: S -> S, s: S, k: nat): S {
    if k == 0 then s else Times(f, f(s), k - 1)
  }

  lemma {:induction false} OneMoreTime<S>(f: S -> S, s: S, k: nat)
    ensures Times(f, s, k + 1) == f(Times(f, s, k))
  {
    if k > 0 {
      OneMoreTime(f, f(s), k - 1);
    }
  }

  lemma {:induction false} FixedLater<S>(f: S -> S, s: S, n: nat, k: nat)
    requires n <= k && f(Times(f, s, n)) == Times(f, s, n)
    ensures Times(f, s, k) == Times(f, s, n)
    decreases k
  {
    if n < k {
      FixedLater(f, s, n, k - 1);
      OneMoreTime(f, s, k - 1);
    }
  }

  function Page(src: seq<Row>, size: nat): Scan -> Scan {
    s => Step(src, size, s)
  }

  function Iterate(src: seq<Row>, size: nat, s: Scan, k: nat): Scan {
    Times(Page(src, size), s, k)
  }

  /** The loop has stopped here, and every row was handed out once, in token order. */
  predicate Done(src: seq<Row>, size: nat, s: Scan) {
    PageRows(src, size, s) == [] && s.handed == src
  }

  ghost predicate Reaches(src: seq<Row>, size: nat, s: Scan) {
    exists k: nat :: Done(src, size, Iterate(src, size, s, k))
  }

  /** The scan of all rows, started at the batch's first token. */
  ghost predicate ExactlyOnce(src: seq<Row>, size: nat, first: int) {
    Reaches(src, size, Scan([], first, {}))
  }

  lemma StepReaches(src: seq<Row>, size: nat, s: Scan)
    ensures Reaches(src, size, Step(src, size, s)) ==> Reaches(src, size, s)
    ensures Reaches(src, size, s) && !Done(src, size, s) ==> Reaches(src, size, Step(src, size, s))
  {
    if Reaches(src, size, Step(src, size, s)) {
      var k: nat :| Done(src, size, Iterate(src, size, Step(src, size, s), k));
      assert Done(src, size, Iterate(src, size, s, k + 1));
    }
    if Reaches(src, size, s) && !Done(src, size, s) {
      var k: nat :| Done(src, size, Iterate(src, size, s, k));
      assert Done(src, size, Iterate(src, size, Step(src, size, s), k - 1));
    }
  }

  // ---------------------------------------------------------------- when the pages fit

  /** Where the run of rows with the token of `src[p - 1]` starts and ends. */
  function ClassStart(src: seq<Row>, p: nat): (c: nat)
    requires 0 < p <= |src|
    ensures c < p && forall i :: c <= i < p ==> src[i].token == src[p - 1].token
    ensures c > 0 ==> src[c - 1].token != src[p - 1].token
  {
    if p == 1 || src[p - 2].token != src[p - 1].token then p - 1 else ClassStart(src, p - 1)
  }

  function ClassEnd(src: seq<Row>, p: nat): (e: nat)
    requires 0 < p <= |src|
    ensures p <= e <= |src| && forall i :: p <= i < e ==> src[i].token == src[p - 1].token
    ensures e < |src| ==> src[e].token != src[p - 1].token
    decreases |src| - p
  {
    if p == |src| || src[p].token != src[p - 1].token then p else ClassEnd(src, p + 1)
  }

  /** Where the page after a page that ended at `p` ends. */
  function NextEnd(src: seq<Row>, size: nat, p: nat): nat
    requires 0 < p <= |src|
  {
    Min(ClassStart(src, p) + size, |src|)
  }

  /** Every page that does not end the table reaches beyond the token it started with. */
  predicate FitsFrom(src: seq<Row>, size: nat, p: nat)
    requires 0 < p <= |src|
    decreases |src| - p
  {
    p == |src| || (NextEnd(src, size, p) > ClassEnd(src, p) && FitsFrom(src, size, NextEnd(src, size, p)))
  }

  predicate PagesFit(src: seq<Row>, size: nat) {
    src == [] || (size > 0 && FitsFrom(src, size, Min(size, |src|)))
  }

  function Ids(src: seq<Row>, a: nat, b: nat): set<int>
    requires b <= |src|
  {
    if b <= a then {} else Ids(src, a, b - 1) + {src[b - 1].rowid}
  }

  lemma {:induction false} InIds(src: seq<Row>, i: nat, a: nat, b: nat)
    requires a <= i < b <= |src|
    ensures src[i].rowid in Ids(src, a, b)
  {
    if i < b - 1 {
      InIds(src, i, a, b - 1);
    }
  }

  /** The scan after handing out exactly the first `p` rows, ready to go on. */
  ghost predicate Good(src: seq<Row>, s: Scan, p: nat) {
    && 0 < p <= |src|
    && s.handed == src[..p]
    && s.token == src[p - 1].token
    && s.skip == Ids(src, ClassStart(src, p), p)
  }

  lemma {:induction false} EpilogueOfClass(rows: seq<Row>, c: nat, n: nat, token: int)
    requires c <= n <= |rows| && forall i :: c <= i < n ==> rows[i].token == token
    requires c > 0 ==> rows[c - 1].token != token
    ensures Epilogue(rows, n, token) == Ids(rows, c, n)
  {
    if c < n {
      EpilogueOfClass(rows, c, n - 1, token);
    }
  }

  lemma IdsOfSlice(src: seq<Row>, p: nat, c: nat, q: nat)
    requires p <= c <= q <= |src|
    ensures Ids(src[p..q], c - p, q - p) == Ids(src, c, q)
  {
    IdsOfPrefix(src, p, c, q, q);
  }

  lemma {:induction false} IdsOfPrefix(src: seq<Row>, p: nat, c: nat, n: nat, q: nat)
    requires p <= c <= n <= q <= |src|
    ensures Ids(src[p..q], c - p, n - p) == Ids(src, c, n)
  {
    if c < n {
      IdsOfPrefix(src, p, c, n - 1, q);
    }
  }

  lemma {:induction false} FreshNone(rows: seq<Row>, n: nat, token: int, skip: set<int>)
    requires n <= |rows|
    requires forall i :: 0 <= i < n ==> rows[i].token == token && rows[i].rowid in skip
    ensures Fresh(rows, n, token, skip) == []
  {
    if n > 0 {
      FreshNone(rows, n - 1, token, skip);
    }
  }

  /** A page whose first `a` rows were handed out before and whose other rows were not. */
  lemma {:induction false} FreshTail(rows: seq<Row>, a: nat, n: nat, token: int, skip: set<int>)
    requires a <= n <= |rows|
    requires forall i :: 0 <= i < a ==> rows[i].token == token && rows[i].rowid in skip
    requires forall i :: a <= i < n ==> rows[i].rowid !in skip
    ensures Fresh(rows, n, token, skip) == rows[a..n]
  {
    if n == a {
      FreshNone(rows, a, token, skip);
    } else {
      FreshTail(rows, a, n - 1, token, skip);
      assert rows[a..n] == rows[a..n - 1] + [rows[n - 1]];
    }
  }

  lemma {:induction false} FreshAll(rows: seq<Row>, n: nat, token: int, skip: set<int>)
    requires n <= |rows|
    requires forall i :: 0 <= i < n ==> rows[i].rowid !in skip
    ensures Fresh(rows, n, token, skip) == rows[..n]
  {
    if n > 0 {
      FreshAll(rows, n - 1, token, skip);
      assert rows[..n] == rows[..n - 1] + [rows[n - 1]];
    }
  }

  /** A page whose first `a` rows are not skipped and whose other rows are. */
  lemma {:induction false} FreshHead(rows: seq<Row>, a: nat, n: nat, token: int, skip: set<int>)
    requires a <= n <= |rows|
    requires forall i :: 0 <= i < a ==> rows[i].rowid !in skip
    requires forall i :: a <= i < n ==> rows[i].token == token && rows[i].rowid in skip
    ensures Fresh(rows, n, token, skip) == rows[..a]
  {
    if n == a {
      FreshAll(rows, a, token, skip);
    } else {
      FreshHead(rows, a, n - 1, token, skip);
    }
  }

  lemma FirstOfClass(src: seq<Row>, p: nat)
    requires Sorted(src) && 0 < p <= |src|
    ensures FirstAt(src, src[p - 1].token, 0) == ClassStart(src, p)
  {
    var c: int, s: int := ClassStart(src, p), FirstAt(src, src[p - 1].token, 0);
    assert src[c].token == src[p - 1].token;
    assert InOrder(src, c - 1, c) && InOrder(src, s, c - 1);
  }

  /** The page read with the token of row `p - 1`, as a stretch of the table. */
  lemma QueryClass(src: seq<Row>, size: nat, p: nat)
    requires Sorted(src) && 0 < p <= |src|
    ensures ClassStart(src, p) <= NextEnd(src, size, p)
    ensures Query(src, size, src[p - 1].token) == src[ClassStart(src, p)..NextEnd(src, size, p)]
  {
    FirstOfClass(src, p);
  }

  lemma {:induction false} IdsApart(src: seq<Row>, i: nat, c: nat, d: nat)
    requires Distinct(src) && i < |src| && d <= |src| && (i < c || d <= i)
    ensures src[i].rowid !in Ids(src, c, d)
  {
    if c < d {
      assert Apart(src, i, d - 1) && Apart(src, d - 1, i);
      IdsApart(src, i, c, d - 1);
    }
  }

  lemma PageSkipped(src: seq<Row>, s: Scan, p: nat, q: nat)
    requires Good(src, s, p) && ClassStart(src, p) <= q <= p
    ensures Fresh(src[ClassStart(src, p)..q], q - ClassStart(src, p), s.token, s.skip) == []
  {
    var c := ClassStart(src, p);
    var page := src[c..q];
    forall i | 0 <= i < q - c ensures page[i].token == s.token && page[i].rowid in s.skip {
      assert page[i] == src[c + i];
      InIds(src, c + i, c, p);
    }
    FreshNone(page, q - c, s.token, s.skip);
  }

  lemma PageTail(src: seq<Row>, s: Scan, p: nat, q: nat)
    requires Distinct(src) && Good(src, s, p) && p < q <= |src|
    ensures Fresh(src[ClassStart(src, p)..q], q - ClassStart(src, p), s.token, s.skip) == src[p..q]
  {
    var c := ClassStart(src, p);
    var page := src[c..q];
    forall i | 0 <= i < p - c ensures page[i].token == s.token && page[i].rowid in s.skip {
      assert page[i] == src[c + i];
      InIds(src, c + i, c, p);
    }
    forall i | p - c <= i < q - c ensures page[i].rowid !in s.skip {
      assert page[i] == src[c + i];
      IdsApart(src, c + i, c, p);
    }
    FreshTail(page, p - c, q - c, s.token, s.skip);
    SliceOfSlice(src, c, p, q);
  }

  lemma SliceOfSlice(src: seq<Row>, c: nat, p: nat, q: nat)
    requires c <= p <= q <= |src|
    ensures src[c..q][p - c..q - c] == src[p..q]
  {
  }

  /** The next page hands out the rows from `p` on, as far as it reaches. */
  lemma GoodPage(src: seq<Row>, size: nat, s: Scan, p: nat)
    requires Sorted(src) && Distinct(src) && Good(src, s, p)
    ensures PageRows(src, size, s) == if NextEnd(src, size, p) <= p then [] else src[p..NextEnd(src, size, p)]
  {
    QueryClass(src, size, p);
    if NextEnd(src, size, p) <= p {
      PageSkipped(src, s, p, NextEnd(src, size, p));
    } else {
      PageTail(src, s, p, NextEnd(src, size, p));
    }
  }

  lemma EpilogueAfter(src: seq<Row>, p: nat, q: nat)
    requires Sorted(src) && 0 < p < q <= |src| && q > ClassEnd(src, p)
    ensures Epilogue(src[p..q], q - p, src[q - 1].token) == Ids(src, ClassStart(src, q), q)
  {
    var c, e := ClassStart(src, q), ClassEnd(src, p);
    assert InOrder(src, p - 1, e) && InOrder(src, e, q - 1);
    EpilogueOfClass(src[p..q], c - p, q - p, src[q - 1].token);
    IdsOfSlice(src, p, c, q);
  }

  lemma AdvanceIs(src: seq<Row>, s: Scan, c: nat, p: nat, q: nat)
    requires c <= p < q <= |src| && s.handed == src[..p]
    ensures Advance(s, src[p..q], LastToken(src[c..q]))
            == Scan(src[..q], src[q - 1].token, Epilogue(src[p..q], q - p, src[q - 1].token))
  {
    assert src[..q] == src[..p] + src[p..q];
  }

  lemma GoodStep(src: seq<Row>, size: nat, s: Scan, p: nat)
    requires Sorted(src) && Distinct(src) && Good(src, s, p) && NextEnd(src, size, p) > ClassEnd(src, p)
    ensures Good(src, Step(src, size, s), NextEnd(src, size, p))
  {
    var q := NextEnd(src, size, p);
    GoodPage(src, size, s, p);
    QueryClass(src, size, p);
    AdvanceIs(src, s, ClassStart(src, p), p, q);
    EpilogueAfter(src, p, q);
  }

  lemma FirstStep(src: seq<Row>, size: nat, first: int)
    requires Sorted(src) && src != [] && size > 0 && first <= src[0].token
    ensures Good(src, Step(src, size, Scan([], first, {})), Min(size, |src|))
    ensures !Done(src, size, Scan([], first, {}))
  {
    var p := Min(size, |src|);
    FirstPage(src, size, first);
    AdvanceIs(src, Scan([], first, {}), 0, 0, p);
    FirstEpilogue(src, p);
  }

  lemma FirstEpilogue(src: seq<Row>, p: nat)
    requires 0 < p <= |src|
    ensures Epilogue(src[0..p], p, src[p - 1].token) == Ids(src, ClassStart(src, p), p)
  {
    EpilogueOfClass(src[0..p], ClassStart(src, p), p, src[p - 1].token);
    IdsOfSlice(src, 0, ClassStart(src, p), p);
  }

  lemma FirstPage(src: seq<Row>, size: nat, first: int)
    requires src != [] && first <= src[0].token
    ensures Query(src, size, first) == PageRows(src, size, Scan([], first, {})) == src[0..Min(size, |src|)]
  {
    FreshTail(src[0..Min(size, |src|)], 0, Min(size, |src|), first, {});
  }

  lemma {:induction false} FitsReaches(src: seq<Row>, size: nat, s: Scan, p: nat)
    requires Sorted(src) && Distinct(src) && Good(src, s, p) && FitsFrom(src, size, p)
    ensures Reaches(src, size, s)
    decreases |src| - p
  {
    if p == |src| {
      GoodPage(src, size, s, p);
      assert Done(src, size, Iterate(src, size, s, 0));
    } else {
      GoodStep(src, size, s, p);
      FitsReaches(src, size, Step(src, size, s), NextEnd(src, size, p));
      StepReaches(src, size, s);
    }
  }

  lemma {:induction false} StuckNeverReaches(src: seq<Row>, size: nat, s: Scan, k: nat)
    requires PageRows(src, size, s) == [] && s.handed != src
    ensures !Done(src, size, Iterate(src, size, s, k))
  {
    if k > 0 {
      StuckNeverReaches(src, size, s, k - 1);
    }
  }

  ghost predicate Repeats(rows: seq<Row>) {
    exists i, j :: 0 <= i < j < |rows| && !Apart(rows, i, j)
  }

  lemma RepeatsExtend(rows: seq<Row>, more: seq<Row>)
    requires Repeats(rows)
    ensures Repeats(rows + more)
  {
    var i, j :| 0 <= i < j < |rows| && !Apart(rows, i, j);
    assert !Apart(rows + more, i, j);
  }

  lemma StepRepeats(src: seq<Row>, size: nat, s: Scan)
    requires Repeats(s.handed)
    ensures Repeats(Step(src, size, s).handed)
  {
    RepeatsExtend(s.handed, PageRows(src, size, s));
  }

  lemma RepeatNotDone(src: seq<Row>, size: nat, s: Scan)
    requires Distinct(src) && Repeats(s.handed)
    ensures !Done(src, size, s)
  {
  }

  lemma {:induction false} RepeatNeverReaches(src: seq<Row>, size: nat, s: Scan, k: nat)
    requires Distinct(src) && Repeats(s.handed)
    ensures !Done(src, size, Iterate(src, size, s, k))
    decreases k
  {
    if k > 0 {
      StepRepeats(src, size, s);
      RepeatNeverReaches(src, size, Step(src, size, s), k - 1);
    } else {
      RepeatNotDone(src, size, s);
    }
  }

  /** A page that ends inside the token it started with forgets the rows handed out before it. */
  lemma SplitStep(src: seq<Row>, size: nat, s: Scan, p: nat)
    requires Sorted(src) && Distinct(src) && Good(src, s, p)
    requires 0 < p < NextEnd(src, size, p) <= ClassEnd(src, p)
    ensures var q := NextEnd(src, size, p);
            Step(src, size, s) == Scan(src[..q], s.token, Ids(src, p, q))
  {
    var q := NextEnd(src, size, p);
    GoodPage(src, size, s, p);
    QueryClass(src, size, p);
    AdvanceIs(src, s, ClassStart(src, p), p, q);
    SplitEpilogue(src, p, q);
  }

  lemma SplitEpilogue(src: seq<Row>, p: nat, q: nat)
    requires 0 < p < q <= |src| && q <= ClassEnd(src, p)
    ensures src[q - 1].token == src[p - 1].token
    ensures Epilogue(src[p..q], q - p, src[p - 1].token) == Ids(src, p, q)
  {
    EpilogueOfClass(src[p..q], 0, q - p, src[p - 1].token);
    IdsOfSlice(src, p, p, q);
  }

  lemma PageHead(src: seq<Row>, c: nat, p: nat, q: nat, token: int)
    requires Distinct(src) && c <= p <= q <= |src| && forall i :: c <= i < q ==> src[i].token == token
    ensures Fresh(src[c..q], q - c, token, Ids(src, p, q)) == src[c..p]
  {
    var page, skip := src[c..q], Ids(src, p, q);
    forall i | 0 <= i < p - c ensures page[i].rowid !in skip {
      IdsApart(src, c + i, p, q);
    }
    forall i | p - c <= i < q - c ensures page[i].token == token && page[i].rowid in skip {
      assert page[i] == src[c + i];
      InIds(src, c + i, p, q);
    }
    FreshHead(page, p - c, q - c, token, skip);
    assert page[..p - c] == src[c..p];
  }

  /** So the page after that hands those rows out again. */
  lemma SplitPage(src: seq<Row>, size: nat, p: nat)
    requires Sorted(src) && Distinct(src) && 0 < p <= |src|
    requires p < NextEnd(src, size, p) <= ClassEnd(src, p)
    ensures var q := NextEnd(src, size, p);
            PageRows(src, size, Scan(src[..q], src[p - 1].token, Ids(src, p, q))) == src[ClassStart(src, p)..p]
  {
    QueryClass(src, size, p);
    PageHead(src, ClassStart(src, p), p, NextEnd(src, size, p), src[p - 1].token);
  }

  lemma RepeatsTwice(src: seq<Row>, c: nat, p: nat, q: nat)
    requires c < p <= q <= |src|
    ensures Repeats(src[..q] + src[c..p])
  {
    var h := src[..q] + src[c..p];
    assert h[c] == src[c] == h[q];
    assert !Apart(h, c, q);
  }

  lemma SplitRepeats(src: seq<Row>, size: nat, s: Scan, p: nat)
    requires Sorted(src) && Distinct(src) && Good(src, s, p)
    requires p < NextEnd(src, size, p) <= ClassEnd(src, p)
    ensures !Done(src, size, s) && !Done(src, size, Step(src, size, s))
    ensures Repeats(Step(src, size, Step(src, size, s)).handed)
  {
    GoodPage(src, size, s, p);
    SplitStep(src, size, s, p);
    SplitPage(src, size, p);
    RepeatsTwice(src, ClassStart(src, p), p, NextEnd(src, size, p));
  }

  lemma {:induction false} UnfitNeverReaches(src: seq<Row>, size: nat, s: Scan, p: nat)
    requires Sorted(src) && Distinct(src) && Good(src, s, p) && !FitsFrom(src, size, p)
    ensures !Reaches(src, size, s)
    decreases |src| - p
  {
    var q := NextEnd(src, size, p);
    GoodPage(src, size, s, p);
    if q > ClassEnd(src, p) {
      GoodStep(src, size, s, p);
      UnfitNeverReaches(src, size, Step(src, size, s), q);
      StepReaches(src, size, s);
    } else if q <= p {
      forall k: nat ensures !Done(src, size, Iterate(src, size, s, k)) {
        StuckNeverReaches(src, size, s, k);
      }
    } else {
      SplitRepeats(src, size, s, p);
      var x := Step(src, size, s);
      forall k: nat ensures !Done(src, size, Iterate(src, size, Step(src, size, x), k)) {
        RepeatNeverReaches(src, size, Step(src, size, x), k);
      }
      StepReaches(src, size, x);
      StepReaches(src, size, s);
    }
  }

  /** The scan hands out every row exactly once, and stops, exactly when the pages fit. */
  lemma ExactlyOnceIff(src: seq<Row>, size: nat, first: int)
    requires Sorted(src) && Distinct(src) && (src != [] ==> first <= src[0].token)
    ensures ExactlyOnce(src, size, first) <==> PagesFit(src, size)
  {
    var s := Scan([], first, {});
    if src == [] {
      assert Done(src, size, Iterate(src, size, s, 0));
    } else if size == 0 {
      forall k: nat ensures !Done(src, size, Iterate(src, size, s, k)) {
        StuckNeverReaches(src, size, s, k);
      }
    } else {
      FirstStep(src, size, first);
      StepReaches(src, size, s);
      if PagesFit(src, size) {
        FitsReaches(src, size, Step(src, size, s), Min(size, |src|));
      } else {
        UnfitNeverReaches(src, size, Step(src, size, s), Min(size, |src|));
      }
    }
  }

  // ---------------------------------------------------------------- conditions a deployment can check

  /** No token fills a rowset, and the greatest token belongs to one row. */
  predicate SmallClasses(src: seq<Row>, size: nat) {
    forall p {:trigger ClassEnd(src, p)} :: 0 < p < |src| ==>
      ClassEnd(src, p) < |src| && ClassEnd(src, p) - ClassStart(src, p) < size
  }

  lemma {:induction false} SmallFitsFrom(src: seq<Row>, size: nat, p: nat)
    requires SmallClasses(src, size) && 0 < p <= |src|
    ensures FitsFrom(src, size, p)
    decreases |src| - p
  {
    if p < |src| {
      assert ClassEnd(src, p) - ClassStart(src, p) < size;
      SmallFitsFrom(src, size, NextEnd(src, size, p));
    }
  }

  lemma SmallClassesFit(src: seq<Row>, size: nat)
    requires size > 0 && SmallClasses(src, size)
    ensures PagesFit(src, size)
  {
    if src != [] {
      SmallFitsFrom(src, size, Min(size, |src|));
    }
  }

  predicate TokensDiffer(src: seq<Row>, i: nat) {
    0 < i < |src| ==> src[i - 1].token != src[i].token
  }

  /** When no two rows share a token, any rowset of two rows or more will do ... */
  lemma DistinctTokensFit(src: seq<Row>, size: nat)
    requires size >= 2 && forall i :: TokensDiffer(src, i)
    ensures PagesFit(src, size)
  {
    forall p | 0 < p < |src| ensures ClassEnd(src, p) == p && ClassStart(src, p) == p - 1 {
      assert TokensDiffer(src, p) && TokensDiffer(src, p - 1);
    }
    SmallClassesFit(src, size);
  }

  /** ... and a rowset of one row never will, for a table of two rows or more. */
  lemma OneRowNeverFits(src: seq<Row>)
    requires |src| >= 2
    ensures !PagesFit(src, 1)
  {
    assert ClassStart(src, 1) == 0;
  }

  // ---------------------------------------------------------------- the loop itself

  lemma IterateOneMore(src: seq<Row>, size: nat, s: Scan, k: nat)
    ensures Iterate(src, size, s, k + 1) == Step(src, size, Iterate(src, size, s, k))
  {
    OneMoreTime(Page(src, size), s, k);
  }

  lemma StuckLater(src: seq<Row>, size: nat, s: Scan, n: nat, k: nat)
    requires n <= k && PageRows(src, size, Iterate(src, size, s, n)) == []
    ensures Iterate(src, size, s, k) == Iterate(src, size, s, n)
  {
    FixedLater(Page(src, size), s, n, k);
  }

  lemma FirstOfMany(src: seq<Row>, size: nat, s: Scan, k: nat)
    requires k > 0
    ensures Iterate(src, size, s, k) == Iterate(src, size, Step(src, size, s), k - 1)
  {
  }

  lemma AtTheEnd(src: seq<Row>, size: nat, s: Scan, k: nat)
    requires Sorted(src) && Distinct(src) && Good(src, s, |src|)
    ensures Done(src, size, Iterate(src, size, s, k))
  {
    GoodPage(src, size, s, |src|);
    StuckLater(src, size, s, 0, k);
  }

  lemma {:induction false} FitsDone(src: seq<Row>, size: nat, s: Scan, p: nat, k: nat)
    requires Sorted(src) && Distinct(src) && Good(src, s, p) && FitsFrom(src, size, p) && k >= |src| - p
    ensures Done(src, size, Iterate(src, size, s, k))
    decreases k
  {
    if p == |src| {
      AtTheEnd(src, size, s, k);
    } else {
      GoodStep(src, size, s, p);
      FirstOfMany(src, size, s, k);
      FitsDone(src, size, Step(src, size, s), NextEnd(src, size, p), k - 1);
    }
  }

  lemma DoneAfterStep(src: seq<Row>, size: nat, s: Scan, p: nat, k: nat)
    requires Sorted(src) && Distinct(src) && Good(src, Step(src, size, s), p) && FitsFrom(src, size, p) && k > |src| - p
    ensures Done(src, size, Iterate(src, size, s, k))
  {
    FirstOfMany(src, size, s, k);
    FitsDone(src, size, Step(src, size, s), p, k - 1);
  }

  /** One page more than there are rows is always enough. */
  lemma ScanDone(src: seq<Row>, size: nat, first: int, k: nat)
    requires Sorted(src) && Distinct(src) && (src != [] ==> first <= src[0].token)
    requires PagesFit(src, size) && k >= |src|
    ensures Done(src, size, Iterate(src, size, Scan([], first, {}), k))
  {
    if src == [] {
      StuckLater(src, size, Scan([], first, {}), 0, k);
    } else {
      FirstStep(src, size, first);
      DoneAfterStep(src, size, Scan([], first, {}), Min(size, |src|), k);
    }
  }

  lemma StoppedFits(src: seq<Row>, size: nat, first: int, n: nat)
    requires Sorted(src) && Distinct(src) && (src != [] ==> first <= src[0].token)
    requires Done(src, size, Iterate(src, size, Scan([], first, {}), n))
    ensures PagesFit(src, size)
  {
    assert ExactlyOnce(src, size, first);
    ExactlyOnceIff(src, size, first);
  }

  lemma {:induction false} StoppedDone(src: seq<Row>, size: nat, first: int, n: nat)
    requires Sorted(src) && Distinct(src) && (src != [] ==> first <= src[0].token) && PagesFit(src, size)
    requires PageRows(src, size, Iterate(src, size, Scan([], first, {}), n)) == []
    ensures Iterate(src, size, Scan([], first, {}), n).handed == src
  {
    ScanDone(src, size, first, n + |src|);
    StuckLater(src, size, Scan([], first, {}), n, n + |src|);
  }

  /** `pages` is the number of pages the worker lives to read. */
  method RunCreateTableForBatch(src: seq<Row>, size: nat, first: int, pages: nat)
    returns (handed: seq<Row>, stopped: bool, rowsRead: nat)
    requires Sorted(src) && Distinct(src) && (src != [] ==> first <= src[0].token)
    ensures rowsRead == |handed|
    ensures stopped && handed == src ==> PagesFit(src, size)
    ensures PagesFit(src, size) && pages > |src| ==> stopped && handed == src
  {
    var token, skip, n := first, [], 0;
    handed, stopped, rowsRead := [], false, 0;
    ghost var start := Scan([], first, {});
    while n < pages && !stopped
      invariant n <= pages && rowsRead == |handed|
      invariant !stopped ==> Iterate(src, size, start, n) == Scan(handed, token, IdSet(skip))
      invariant !stopped && n > 0 ==> PageRows(src, size, Iterate(src, size, start, n - 1)) != []
      invariant stopped ==> Iterate(src, size, start, n).handed == handed
      invariant stopped ==> PageRows(src, size, Iterate(src, size, start, n)) == []
      decreases pages - n, !stopped
    {
      var rows, last, epilogue := SelectBatchFromTableByToken(src, size, token, skip);
      token, skip := last, epilogue;
      if rows == [] {
        stopped := true;
      } else {
        IterateOneMore(src, size, start, n);
        handed, rowsRead := handed + rows, rowsRead + |rows|;
        n := n + 1;
      }
    }
    if stopped && handed == src {
      StoppedFits(src, size, first, n);
    }
    if PagesFit(src, size) && pages > |src| {
      if stopped {
        StoppedDone(src, size, first, n);
      } else {
        ScanDone(src, size, first, n - 1);
      }
    }
  }
}
