/** What a batch of a lookup node writes: the records of all pages of left rows that its scan hands
    out, and the records of grouped nodes. */
module LookupBatch {
  import opened Permutation
  import opened Aggregates
  import opened Lookup
  import T = TokenScan
  import I = TokenIntervals

  // ---------------------------------------------------------------- records, left row by left row

  /** The records of all left rows, in their order. */
  function Each(f: Row -> seq<Record>, left: seq<Row>): seq<Record> {
    if left == [] then [] else Each(f, left[..|left| - 1]) + f(left[|left| - 1])
  }

  lemma {:induction false} EachOfSum(f: Row -> seq<Record>, a: seq<Row>, b: seq<Row>)
    ensures Each(f, a + b) == Each(f, a) + Each(f, b)
  {
    if b == [] {
      assert a + b == a;
    } else {
      var n := |b| - 1;
      EachOfSum(f, a, b[..n]);
      assert (a + b)[..|a| + n] == a + b[..n];
      assert Each(f, a) + Each(f, b[..n]) + f(b[n]) == Each(f, a) + (Each(f, b[..n]) + f(b[n]));
    }
  }

  lemma {:induction false} FlattenIsEach(f: Row -> seq<Record>, left: seq<Row>, parts: seq<seq<Record>>, n: nat)
    requires n <= |left| == |parts| && forall l :: 0 <= l < |left| ==> parts[l] == f(left[l])
    ensures Flatten(parts, n) == Each(f, left[..n])
  {
    if n > 0 {
      FlattenIsEach(f, left, parts, n - 1);
      assert left[..n][..n - 1] == left[..n - 1];
    }
  }

  function JoinWith(node: Node, rightKey: Row -> Key, ids: seq<nat>): Row -> seq<Record> {
    row => TableJoinOf(node, rightKey, row, ids)
  }

  lemma TableJoinIsEach(node: Node, rightKey: Row -> Key, left: seq<Row>, ids: seq<nat>)
    ensures TableJoin(node, rightKey, left, ids) == Each(JoinWith(node, rightKey, ids), left)
  {
    var parts := seq(|left|, l requires 0 <= l < |left| => TableJoinOf(node, rightKey, left[l], ids));
    FlattenIsEach(JoinWith(node, rightKey, ids), left, parts, |left|);
    assert left[..|left|] == left;
  }

  // ---------------------------------------------------------------- the records of a grouped node

  /** A column of a grouped node: an aggregate with the default of its field, or an expression over
      the left row. */
  datatype Column = Aggregate(field: Field, absent: int) | OfLeft(value: Row -> int)

  function ColumnValue(node: Node, column: Column, row: Row, rowids: seq<nat>): int {
    match column
    case Aggregate(field, absent) => if rowids == [] then absent else Grouped(node, field, row, rowids)
    case OfLeft(value) => value(row)
  }

  function GroupedRecord(node: Node, columns: seq<Column>, row: Row, rowids: seq<nat>): (record: Record)
    ensures |record| == |columns|
  {
    seq(|columns|, i requires 0 <= i < |columns| => ColumnValue(node, columns[i], row, rowids))
  }

  /** A left row without right rows yields a record in a left join only. */
  function GroupOf(node: Node, columns: seq<Column>, row: Row, rowids: seq<nat>): seq<Record> {
    if rowids == [] && !node.leftJoin then [] else Passing(node, GroupedRecord(node, columns, row, rowids))
  }

  /** The grouped records of a page, from what its left rows have met. */
  function Groups(node: Node, columns: seq<Column>, left: seq<Row>, met: seq<seq<nat>>, n: nat): seq<Record>
    requires n <= |left| == |met|
  {
    if n == 0 then [] else Groups(node, columns, left, met, n - 1) + GroupOf(node, columns, left[n - 1], met[n - 1])
  }

  /** After the pools: one record for every left row that found something, or is to be kept. */
  method WriteGrouped(node: Node, columns: seq<Column>, left: seq<Row>, found: seq<bool>, met: seq<seq<nat>>)
    returns (out: seq<Record>)
    requires |left| == |found| == |met|
    requires forall l :: 0 <= l < |left| ==> (found[l] <==> met[l] != [])
    ensures out == Groups(node, columns, left, met, |left|)
  {
    out := [];
    for l := 0 to |left|
      invariant out == Groups(node, columns, left, met, l)
    {
      if !found[l] && !node.leftJoin {
        continue;
      }
      var record := ProduceGroupedTableRecord(node, columns, left[l], found[l], met[l]);
      if node.having(record) {
        out := out + [record];
      }
    }
  }

  method ProduceGroupedTableRecord(node: Node, columns: seq<Column>, row: Row, found: bool, met: seq<nat>)
    returns (record: Record)
    requires found <==> met != []
    ensures record == GroupedRecord(node, columns, row, met)
  {
    record := [];
    for i := 0 to |columns|
      invariant record == GroupedRecord(node, columns, row, met)[..i]
    {
      var value;
      match columns[i] {
        case Aggregate(field, absent) => value := if found then Grouped(node, field, row, met) else absent;
        case OfLeft(f) => value := f(row);
      }
      record := record + [value];
    }
  }

  ghost predicate AllInt64(columns: seq<Column>) {
    forall i, a, b :: 0 <= i < |columns| && columns[i].Aggregate? ==> IsInt64(columns[i].field.arg(a, b))
  }

  function GroupWith(node: Node, rightKey: Row -> Key, columns: seq<Column>, ids: seq<nat>): Row -> seq<Record> {
    row => GroupOf(node, columns, row, Joined(node, rightKey, node.keyOf(row), ids))
  }

  lemma GroupPermutes(node: Node, columns: seq<Column>, row: Row, a: seq<nat>, b: seq<nat>)
    requires Permutes(a, b) && AllInt64(columns)
    ensures GroupOf(node, columns, row, a) == GroupOf(node, columns, row, b)
  {
    SumPermutes((r: nat) => 0, a, b);
    forall i | 0 <= i < |columns|
      ensures ColumnValue(node, columns[i], row, a) == ColumnValue(node, columns[i], row, b)
    {
      if columns[i].Aggregate? {
        GroupedPermutes(node, columns[i].field, row, a, b);
      }
    }
    assert GroupedRecord(node, columns, row, a) == GroupedRecord(node, columns, row, b);
  }

  ghost predicate MeetsJoined(node: Node, rightKey: Row -> Key, left: seq<Row>, ids: seq<nat>, met: seq<seq<nat>>)
    requires |left| == |met|
  {
    forall l :: 0 <= l < |left| ==> Permutes(met[l], Joined(node, rightKey, node.keyOf(left[l]), ids))
  }

  lemma {:induction false} GroupsAreEach(node: Node, rightKey: Row -> Key, columns: seq<Column>, left: seq<Row>,
                                         ids: seq<nat>, met: seq<seq<nat>>, n: nat)
    requires n <= |left| == |met| && AllInt64(columns) && MeetsJoined(node, rightKey, left, ids, met)
    ensures Groups(node, columns, left, met, n) == Each(GroupWith(node, rightKey, columns, ids), left[..n])
  {
    if n > 0 {
      GroupsAreEach(node, rightKey, columns, left, ids, met, n - 1);
      assert left[..n][..n - 1] == left[..n - 1];
      GroupPermutes(node, columns, left[n - 1], met[n - 1], Joined(node, rightKey, node.keyOf(left[n - 1]), ids));
    }
  }

  lemma PermutesTrans(a: seq<nat>, b: seq<nat>, c: seq<nat>)
    requires Permutes(a, b) && Permutes(b, c)
    ensures Permutes(a, c)
  {
    forall x ensures Times(a, x) == Times(c, x) {
      assert Times(a, x) == Times(b, x);
    }
  }

  /** The records of a page of a grouped node, in the order of its left rows: a left row yields a record
      exactly if a right row with an equal key passes the filter or the join is a left join, and the
      record holds the aggregates over all such right rows. */
  lemma PageIsGrouped(node: Node, rightKey: Row -> Key, columns: seq<Column>, left: seq<Row>, ids: seq<nat>,
                      keys: seq<Key>, rowsOf: map<Key, seq<nat>>, states: seq<State>, picks: seq<nat>)
    requires IndexIsExact(node, rightKey) && Lists(node, ids) && AllInt64(columns)
    requires PageRun(node, left, keys, rowsOf, states, picks) && states[|picks|].todo == []
    ensures |states[|picks|].found| == |states[|picks|].met| == |left|
    ensures forall l :: 0 <= l < |left| ==> (states[|picks|].found[l] <==> states[|picks|].met[l] != [])
    ensures Groups(node, columns, left, states[|picks|].met, |left|)
            == Each(GroupWith(node, rightKey, columns, ids), left)
  {
    var t := states[|picks|];
    RunIsValid(node, left, keys, rowsOf, states, picks, |picks|);
    forall l | 0 <= l < |left|
      ensures Permutes(t.met[l], Joined(node, rightKey, node.keyOf(left[l]), ids)) && (t.found[l] <==> t.met[l] != [])
    {
      var matches := Matches(node, Entries(node, node.keyOf(left[l])));
      EveryRowMeetsItsMatches(node, left, keys, rowsOf, states, picks, l);
      IndexFindsJoined(node, rightKey, node.keyOf(left[l]), ids);
      PermutesTrans(t.met[l], matches, Joined(node, rightKey, node.keyOf(left[l]), ids));
      SumPermutes((r: nat) => 0, t.met[l], matches);
    }
    GroupsAreEach(node, rightKey, columns, left, ids, t.met, |left|);
    assert left[..|left|] == left;
  }

  // ---------------------------------------------------------------- the pages of a batch

  function Flat<X>(parts: seq<seq<X>>): seq<X> {
    if parts == [] then [] else Flat(parts[..|parts| - 1]) + parts[|parts| - 1]
  }

  /** The pages that the first `k` reads of the scan hand out. */
  function Pages(src: seq<T.Row>, size: nat, s: T.Scan, k: nat): (pages: seq<seq<T.Row>>)
    ensures |pages| == k
  {
    if k == 0 then []
    else Pages(src, size, s, k - 1) + [T.PageRows(src, size, T.Iterate(src, size, s, k - 1))]
  }

  lemma {:induction false} PagesAreHanded(src: seq<T.Row>, size: nat, s: T.Scan, k: nat)
    requires s.handed == []
    ensures Flat(Pages(src, size, s, k)) == T.Iterate(src, size, s, k).handed
  {
    if k > 0 {
      PagesAreHanded(src, size, s, k - 1);
      T.IterateOneMore(src, size, s, k - 1);
      var pages := Pages(src, size, s, k);
      assert pages[..k - 1] == Pages(src, size, s, k - 1);
    }
  }

  /** The records of one page: the work of the two pools, and the default records after it. */
  ghost predicate WritesJoin(node: Node, left: seq<Row>, out: seq<Record>) {
    exists keys, rowsOf, states, picks :: JoinRun(node, left, out, keys, rowsOf, states, picks)
  }

  ghost predicate JoinRun(node: Node, left: seq<Row>, out: seq<Record>, keys: seq<Key>, rowsOf: map<Key, seq<nat>>,
                          states: seq<State>, picks: seq<nat>) {
    && PageRun(node, left, keys, rowsOf, states, picks) && |states| == |picks| + 1
    && states[|picks|].todo == [] && |states[|picks|].found| == |left|
    && out == states[|picks|].out + Flatten(ChildlessParts(node, left, states[|picks|].found), |left|)
  }

  /** The records of one page of a grouped node. */
  ghost predicate WritesGroups(node: Node, columns: seq<Column>, left: seq<Row>, out: seq<Record>) {
    exists keys, rowsOf, states, picks :: GroupRun(node, columns, left, out, keys, rowsOf, states, picks)
  }

  ghost predicate GroupRun(node: Node, columns: seq<Column>, left: seq<Row>, out: seq<Record>, keys: seq<Key>,
                           rowsOf: map<Key, seq<nat>>, states: seq<State>, picks: seq<nat>) {
    && PageRun(node, left, keys, rowsOf, states, picks) && |states| == |picks| + 1
    && states[|picks|].todo == [] && |states[|picks|].met| == |left|
    && out == Groups(node, columns, left, states[|picks|].met, |left|)
  }

  lemma PageTimes(node: Node, rightKey: Row -> Key, left: seq<Row>, ids: seq<nat>, out: seq<Record>, x: Record)
    requires IndexIsExact(node, rightKey) && Lists(node, ids) && WritesJoin(node, left, out)
    ensures Times(out, x) == Times(Each(JoinWith(node, rightKey, ids), left), x)
  {
    var keys, rowsOf, states, picks :| JoinRun(node, left, out, keys, rowsOf, states, picks);
    PageIsTableJoin(node, rightKey, left, ids, keys, rowsOf, states, picks);
    TableJoinIsEach(node, rightKey, left, ids);
  }

  lemma MapOfSum<X, Y>(f: X -> Y, a: seq<X>, b: seq<X>)
    ensures Map(f, a + b) == Map(f, a) + Map(f, b)
  {
  }

  lemma {:induction false} BatchTimes(node: Node, rightKey: Row -> Key, content: T.Row -> Row, pages: seq<seq<T.Row>>,
                                      ids: seq<nat>, outs: seq<seq<Record>>, x: Record)
    requires IndexIsExact(node, rightKey) && Lists(node, ids) && |outs| == |pages|
    requires forall i :: 0 <= i < |pages| ==> WritesJoin(node, Map(content, pages[i]), outs[i])
    ensures Times(Flat(outs), x) == Times(Each(JoinWith(node, rightKey, ids), Map(content, Flat(pages))), x)
  {
    if pages != [] {
      var n, f := |pages| - 1, JoinWith(node, rightKey, ids);
      BatchTimes(node, rightKey, content, pages[..n], ids, outs[..n], x);
      PageTimes(node, rightKey, Map(content, pages[n]), ids, outs[n], x);
      MapOfSum(content, Flat(pages[..n]), pages[n]);
      EachOfSum(f, Map(content, Flat(pages[..n])), Map(content, pages[n]));
      TimesSum(Flat(outs[..n]), outs[n], x);
      TimesSum(Each(f, Map(content, Flat(pages[..n]))), Each(f, Map(content, pages[n])), x);
    }
  }

  lemma {:induction false} BatchGroups(node: Node, rightKey: Row -> Key, columns: seq<Column>, content: T.Row -> Row,
                                       pages: seq<seq<T.Row>>, ids: seq<nat>, outs: seq<seq<Record>>)
    requires IndexIsExact(node, rightKey) && Lists(node, ids) && AllInt64(columns) && |outs| == |pages|
    requires forall i :: 0 <= i < |pages| ==> WritesGroups(node, columns, Map(content, pages[i]), outs[i])
    ensures Flat(outs) == Each(GroupWith(node, rightKey, columns, ids), Map(content, Flat(pages)))
  {
    if pages != [] {
      var n := |pages| - 1;
      BatchGroups(node, rightKey, columns, content, pages[..n], ids, outs[..n]);
      GroupedPage(node, rightKey, columns, Map(content, pages[n]), ids, outs[n]);
      MapOfSum(content, Flat(pages[..n]), pages[n]);
      EachOfSum(GroupWith(node, rightKey, columns, ids), Map(content, Flat(pages[..n])), Map(content, pages[n]));
    }
  }

  lemma GroupedPage(node: Node, rightKey: Row -> Key, columns: seq<Column>, left: seq<Row>, ids: seq<nat>,
                    out: seq<Record>)
    requires IndexIsExact(node, rightKey) && Lists(node, ids) && AllInt64(columns)
    requires WritesGroups(node, columns, left, out)
    ensures out == Each(GroupWith(node, rightKey, columns, ids), left)
  {
    var keys, rowsOf, states, picks :| GroupRun(node, columns, left, out, keys, rowsOf, states, picks);
    PageIsGrouped(node, rightKey, columns, left, ids, keys, rowsOf, states, picks);
  }

  /** The scan of the batch's share of the source table, with pages that fit, has stopped after `k` reads. */
  lemma ShareIsRead(table: seq<T.Row>, size: nat, iv: I.Interval, k: nat)
    requires T.Sorted(table) && T.Distinct(table) && iv.left <= iv.right && T.PagesFit(I.RowsIn(table, iv), size)
    requires k >= |I.RowsIn(table, iv)|
    ensures Flat(Pages(I.RowsIn(table, iv), size, T.Scan([], iv.left, {}), k)) == I.RowsIn(table, iv)
  {
    var share := I.RowsIn(table, iv);
    I.PartSorted(table, T.FirstAt(table, iv.left, 0), T.FirstAt(table, iv.right + 1, 0));
    T.ScanDone(share, size, iv.left, k);
    PagesAreHanded(share, size, T.Scan([], iv.left, {}), k);
  }

  /** What a batch of a lookup node writes is the join of its whole share of the left table, when the
      pages of the share fit, the index is exact, and the batch reads on until it is handed nothing. */
  lemma BatchIsTableJoin(node: Node, rightKey: Row -> Key, content: T.Row -> Row, table: seq<T.Row>, size: nat,
                         iv: I.Interval, ids: seq<nat>, k: nat, outs: seq<seq<Record>>)
    requires T.Sorted(table) && T.Distinct(table) && iv.left <= iv.right && T.PagesFit(I.RowsIn(table, iv), size)
    requires IndexIsExact(node, rightKey) && Lists(node, ids) && k == |outs| >= |I.RowsIn(table, iv)|
    requires var pages := Pages(I.RowsIn(table, iv), size, T.Scan([], iv.left, {}), k);
             forall i :: 0 <= i < k ==> WritesJoin(node, Map(content, pages[i]), outs[i])
    ensures Permutes(Flat(outs), TableJoin(node, rightKey, Map(content, I.RowsIn(table, iv)), ids))
  {
    var pages := Pages(I.RowsIn(table, iv), size, T.Scan([], iv.left, {}), k);
    ShareIsRead(table, size, iv, k);
    TableJoinIsEach(node, rightKey, Map(content, I.RowsIn(table, iv)), ids);
    forall x
      ensures Times(Flat(outs), x) == Times(TableJoin(node, rightKey, Map(content, I.RowsIn(table, iv)), ids), x)
    {
      BatchTimes(node, rightKey, content, pages, ids, outs, x);
    }
  }

  /** The same for a grouped node: one record for every left row of the share that has a right row, or
      for all in a left join, with the aggregates over its right rows, in the order of the share. */
  lemma BatchIsGrouped(node: Node, rightKey: Row -> Key, columns: seq<Column>, content: T.Row -> Row, table: seq<T.Row>,
                       size: nat, iv: I.Interval, ids: seq<nat>, k: nat, outs: seq<seq<Record>>)
    requires T.Sorted(table) && T.Distinct(table) && iv.left <= iv.right && T.PagesFit(I.RowsIn(table, iv), size)
    requires IndexIsExact(node, rightKey) && Lists(node, ids) && AllInt64(columns)
    requires k == |outs| >= |I.RowsIn(table, iv)|
    requires var pages := Pages(I.RowsIn(table, iv), size, T.Scan([], iv.left, {}), k);
             forall i :: 0 <= i < k ==> WritesGroups(node, columns, Map(content, pages[i]), outs[i])
    ensures Flat(outs) == Each(GroupWith(node, rightKey, columns, ids), Map(content, I.RowsIn(table, iv)))
  {
    ShareIsRead(table, size, iv, k);
    var pages := Pages(I.RowsIn(table, iv), size, T.Scan([], iv.left, {}), k);
    BatchGroups(node, rightKey, columns, content, pages, ids, outs);
  }
}
