/** Joining a page of left rows with a lookup table, by pools of workers. */
module Lookup {
  import opened Permutation
  import opened Aggregates

  type Row = seq<int>
  type Record = seq<int>
  /** Index keys are only compared for equality. */
  type Key = nat

  /** A lookup node: the right table by rowid, its index by key, and the node's expressions. */
  datatype Node = Node(
    keyOf: Row -> Key,
    rightRows: map<nat, Row>,
    entries: map<Key, seq<nat>>,
    filter: Row -> bool,
    produce: (Row, Row) -> Record,
    childless: Row -> Record,
    having: Record -> bool,
    leftJoin: bool)

  function Entries(node: Node, key: Key): seq<nat> {
    if key in node.entries then node.entries[key] else []
  }

  /** The entry leads to a right row that passes the lookup filter. */
  predicate Live(node: Node, rowid: nat) {
    rowid in node.rightRows && node.filter(node.rightRows[rowid])
  }

  function Matches(node: Node, rowids: seq<nat>): seq<nat> {
    if rowids == [] then []
    else
      var front, r := Matches(node, rowids[..|rowids| - 1]), rowids[|rowids| - 1];
      if Live(node, r) then front + [r] else front
  }

  // ---------------------------------------------------------------- the keys of a page

  /** The rows of the page that have the key, in order. */
  function RowsWith(node: Node, left: seq<Row>, key: Key, n: nat): seq<nat>
    requires n <= |left|
  {
    if n == 0 then []
    else if HasKey(node, left, key, n - 1) then RowsWith(node, left, key, n - 1) + [n - 1]
    else RowsWith(node, left, key, n - 1)
  }

  predicate HasKey(node: Node, left: seq<Row>, key: Key, l: nat) {
    l < |left| && node.keyOf(left[l]) == key
  }

  lemma TimesNext(front: seq<nat>, all: seq<nat>, added: bool, y: nat, l: nat)
    requires all == if added then front + [y] else front
    ensures Times(all, l) == Times(front, l) + if added && y == l then 1 else 0
  {
    TimesLast(front, y, l);
  }

  lemma {:induction false} RowOnce(node: Node, left: seq<Row>, key: Key, n: nat, l: nat)
    requires n <= |left|
    ensures Times(RowsWith(node, left, key, n), l) == if l < n && HasKey(node, left, key, l) then 1 else 0
  {
    if n > 0 {
      RowOnce(node, left, key, n - 1, l);
      var front, all := RowsWith(node, left, key, n - 1), RowsWith(node, left, key, n);
      TimesNext(front, all, HasKey(node, left, key, n - 1), n - 1, l);
    }
  }

  predicate Distinct(keys: seq<Key>) {
    forall i, j :: 0 <= i < j < |keys| ==> keys[i] != keys[j]
  }

  method BuildKeysToFindInTheLookupIndex(node: Node, left: seq<Row>)
    returns (keys: seq<Key>, rowsOf: map<Key, seq<nat>>)
    ensures Distinct(keys) && forall k :: k in keys <==> k in rowsOf
    ensures GroupsPage(node, left, |left|, rowsOf)
  {
    rowsOf := map[];
    for l := 0 to |left|
      invariant GroupsPage(node, left, l, rowsOf)
    {
      var key := node.keyOf(left[l]);
      GroupsNext(node, left, l, rowsOf);
      if key !in rowsOf {
        rowsOf := rowsOf[key := []];
      }
      rowsOf := rowsOf[key := rowsOf[key] + [l]];
    }
    keys := Elements(rowsOf.Keys);
  }

  /** The keys of the first `n` rows, each with the rows that have it. */
  ghost predicate GroupsPage(node: Node, left: seq<Row>, n: nat, rowsOf: map<Key, seq<nat>>)
    requires n <= |left|
  {
    forall k :: RowsWith(node, left, k, n) == RowsOf(rowsOf, k) && (k in rowsOf <==> RowsOf(rowsOf, k) != [])
  }

  lemma GroupsNext(node: Node, left: seq<Row>, l: nat, rowsOf: map<Key, seq<nat>>)
    requires l < |left| && GroupsPage(node, left, l, rowsOf)
    ensures var key := node.keyOf(left[l]);
            GroupsPage(node, left, l + 1, rowsOf[key := RowsOf(rowsOf, key) + [l]])
  {
    var key := node.keyOf(left[l]);
    var next := rowsOf[key := RowsOf(rowsOf, key) + [l]];
    forall k ensures RowsWith(node, left, k, l + 1) == RowsOf(next, k) && (k in next <==> RowsOf(next, k) != []) {
      assert RowsWith(node, left, k, l) == RowsOf(rowsOf, k);
    }
  }

  method Elements(keys: set<Key>) returns (list: seq<Key>)
    ensures Distinct(list) && forall k :: k in list <==> k in keys
  {
    list := [];
    var todo := keys;
    while todo != {}
      invariant todo <= keys && Distinct(list)
      invariant forall k :: k in list <==> k in keys && k !in todo
      decreases |todo|
    {
      var k :| k in todo;
      list, todo := list + [k], todo - {k};
    }
  }

  // ---------------------------------------------------------------- the pools

  /** Work handed to a pool: a key to page through, an entry to fetch, a pair of rows to join. */
  datatype Item = AKey(key: Key) | AnEntry(key: Key, rowid: nat) | APair(rowid: nat, row: nat)

  /** What is left to do, whether a left row found a right one, the right rows each left row has met
      so far, and the records added. */
  datatype State = State(todo: seq<Item>, found: seq<bool>, met: seq<seq<nat>>, out: seq<Record>)

  function RowsOf(rowsOf: map<Key, seq<nat>>, key: Key): seq<nat> {
    if key in rowsOf then rowsOf[key] else []
  }

  function KeyItems(keys: seq<Key>): (items: seq<Item>)
    ensures forall i :: 0 <= i < |items| ==> items[i].AKey?
  {
    if keys == [] then [] else KeyItems(keys[..|keys| - 1]) + [AKey(keys[|keys| - 1])]
  }

  function EntryItems(key: Key, rowids: seq<nat>): (items: seq<Item>)
    ensures forall i :: 0 <= i < |items| ==> items[i].AnEntry?
  {
    if rowids == [] then [] else EntryItems(key, rowids[..|rowids| - 1]) + [AnEntry(key, rowids[|rowids| - 1])]
  }

  function Pairs(rowid: nat, rows: seq<nat>): (items: seq<Item>)
    ensures forall i :: 0 <= i < |items| ==> items[i].APair? && items[i].rowid == rowid && items[i].row in rows
  {
    if rows == [] then [] else Pairs(rowid, rows[..|rows| - 1]) + [APair(rowid, rows[|rows| - 1])]
  }

  /** A key is paged through its index entries; an entry that leads to a live row is joined with
      every left row that has the key. */
  function Expand(node: Node, rowsOf: map<Key, seq<nat>>, item: Item): seq<Item> {
    match item
    case AKey(k) => EntryItems(k, Entries(node, k))
    case AnEntry(k, r) => if Live(node, r) then Pairs(r, RowsOf(rowsOf, k)) else []
    case APair(_, _) => []
  }

  /** The record is added when it satisfies the having condition. */
  function Passing(node: Node, record: Record): seq<Record> {
    if node.having(record) then [record] else []
  }

  function RecordOf(node: Node, row: Row, rowid: nat): seq<Record> {
    if rowid in node.rightRows then Passing(node, node.produce(row, node.rightRows[rowid])) else []
  }

  function Without(todo: seq<Item>, i: nat): seq<Item>
    requires i < |todo|
  {
    todo[..i] + todo[i + 1..]
  }

  predicate Possible(node: Node, left: seq<Row>, item: Item) {
    item.APair? ==> item.row < |left| && Live(node, item.rowid)
  }

  ghost predicate Valid(node: Node, left: seq<Row>, s: State) {
    |s.found| == |s.met| == |left| && forall i :: 0 <= i < |s.todo| ==> Possible(node, left, s.todo[i])
  }

  /** A worker takes any item whose turn it can be, and handles it. */
  function Handle(node: Node, left: seq<Row>, rowsOf: map<Key, seq<nat>>, s: State, i: nat): State
    requires Valid(node, left, s) && i < |s.todo|
  {
    var item := s.todo[i];
    var todo := Without(s.todo, i) + Expand(node, rowsOf, item);
    if item.APair? then
      State(todo, s.found[item.row := true], s.met[item.row := s.met[item.row] + [item.rowid]],
            s.out + RecordOf(node, left[item.row], item.rowid))
    else s.(todo := todo)
  }

  ghost predicate Run(node: Node, left: seq<Row>, rowsOf: map<Key, seq<nat>>, states: seq<State>, picks: seq<nat>) {
    && |states| == |picks| + 1
    && forall k :: 0 <= k < |picks| ==> StepAt(node, left, rowsOf, states, picks, k)
  }

  ghost predicate StepAt(node: Node, left: seq<Row>, rowsOf: map<Key, seq<nat>>, states: seq<State>, picks: seq<nat>,
                         k: nat)
    requires k < |picks| && |states| == |picks| + 1
  {
    Follows(node, left, rowsOf, states[k], picks[k], states[k + 1])
  }

  ghost predicate Follows(node: Node, left: seq<Row>, rowsOf: map<Key, seq<nat>>, s: State, pick: nat, t: State) {
    Valid(node, left, s) && pick < |s.todo| && t == Handle(node, left, rowsOf, s, pick)
  }

  function Start(left: seq<Row>, keys: seq<Key>): State {
    State(KeyItems(keys), seq(|left|, _ => false), seq(|left|, _ => []), [])
  }

  // ---------------------------------------------------------------- each pair of rows meets once

  /** How often the item will make left row `l` meet right row `x`. */
  function Will(node: Node, left: seq<Row>, item: Item, l: nat, x: nat): nat
    requires l < |left|
  {
    match item
    case AKey(k) => if node.keyOf(left[l]) == k then Times(Matches(node, Entries(node, k)), x) else 0
    case AnEntry(k, r) => if Live(node, r) && r == x && node.keyOf(left[l]) == k then 1 else 0
    case APair(r, row) => if r == x && row == l then 1 else 0
  }

  function WillAll(node: Node, left: seq<Row>, items: seq<Item>, l: nat, x: nat): nat
    requires l < |left|
  {
    if items == [] then 0
    else WillAll(node, left, items[..|items| - 1], l, x) + Will(node, left, items[|items| - 1], l, x)
  }

  lemma WillLast(node: Node, left: seq<Row>, items: seq<Item>, item: Item, l: nat, x: nat)
    requires l < |left|
    ensures WillAll(node, left, items + [item], l, x) == WillAll(node, left, items, l, x) + Will(node, left, item, l, x)
  {
    assert (items + [item])[..|items|] == items;
  }

  lemma {:induction false} WillSum(node: Node, left: seq<Row>, a: seq<Item>, b: seq<Item>, l: nat, x: nat)
    requires l < |left|
    ensures WillAll(node, left, a + b, l, x) == WillAll(node, left, a, l, x) + WillAll(node, left, b, l, x)
    decreases |b|
  {
    if b == [] {
      assert a + b == a;
    } else {
      var n := |b| - 1;
      assert a + b == (a + b[..n]) + [b[n]];
      WillLast(node, left, a + b[..n], b[n], l, x);
      WillSum(node, left, a, b[..n], l, x);
    }
  }

  lemma WillWithout(node: Node, left: seq<Row>, todo: seq<Item>, i: nat, l: nat, x: nat)
    requires i < |todo| && l < |left|
    ensures WillAll(node, left, todo, l, x)
            == WillAll(node, left, Without(todo, i), l, x) + Will(node, left, todo[i], l, x)
  {
    assert todo == (todo[..i] + [todo[i]]) + todo[i + 1..];
    WillSum(node, left, todo[..i] + [todo[i]], todo[i + 1..], l, x);
    WillLast(node, left, todo[..i], todo[i], l, x);
    WillSum(node, left, todo[..i], todo[i + 1..], l, x);
  }

  lemma {:induction false} PairsMeet(node: Node, left: seq<Row>, r: nat, rows: seq<nat>, l: nat, x: nat)
    requires l < |left|
    ensures WillAll(node, left, Pairs(r, rows), l, x) == if r == x then Times(rows, l) else 0
  {
    if rows != [] {
      var n := |rows| - 1;
      PairsMeet(node, left, r, rows[..n], l, x);
      WillLast(node, left, Pairs(r, rows[..n]), APair(r, rows[n]), l, x);
    }
  }

  lemma {:induction false} EntriesMeet(node: Node, left: seq<Row>, k: Key, rowids: seq<nat>, l: nat, x: nat)
    requires l < |left|
    ensures WillAll(node, left, EntryItems(k, rowids), l, x)
            == if node.keyOf(left[l]) == k then Times(Matches(node, rowids), x) else 0
  {
    if rowids != [] {
      var n := |rowids| - 1;
      EntriesMeet(node, left, k, rowids[..n], l, x);
      WillLast(node, left, EntryItems(k, rowids[..n]), AnEntry(k, rowids[n]), l, x);
      TimesLast(Matches(node, rowids[..n]), rowids[n], x);
    }
  }

  /** Splitting work up neither adds nor loses a meeting. */
  lemma ExpandKeeps(node: Node, left: seq<Row>, rowsOf: map<Key, seq<nat>>, item: Item, l: nat, x: nat)
    requires GroupsPage(node, left, |left|, rowsOf) && l < |left| && !item.APair?
    ensures WillAll(node, left, Expand(node, rowsOf, item), l, x) == Will(node, left, item, l, x)
  {
    match item
    case AKey(k) => EntriesMeet(node, left, k, Entries(node, k), l, x);
    case AnEntry(k, r) =>
      assert RowsWith(node, left, k, |left|) == RowsOf(rowsOf, k);
      RowOnce(node, left, k, |left|, l);
      PairsMeet(node, left, r, RowsOf(rowsOf, k), l, x);
  }

  lemma DistinctPrefix(keys: seq<Key>, n: nat)
    requires Distinct(keys) && n < |keys|
    ensures Distinct(keys[..n]) && keys[n] !in keys[..n]
    ensures forall k :: k in keys <==> k in keys[..n] || k == keys[n] || k in keys[n + 1..]
  {
    assert keys == keys[..n] + [keys[n]] + keys[n + 1..];
  }

  lemma {:induction false} KeysMeet(node: Node, left: seq<Row>, keys: seq<Key>, l: nat, x: nat)
    requires l < |left| && Distinct(keys)
    ensures WillAll(node, left, KeyItems(keys), l, x)
            == if node.keyOf(left[l]) in keys then Times(Matches(node, Entries(node, node.keyOf(left[l]))), x) else 0
  {
    if keys != [] {
      var n := |keys| - 1;
      DistinctPrefix(keys, n);
      KeysMeet(node, left, keys[..n], l, x);
      WillLast(node, left, KeyItems(keys[..n]), AKey(keys[n]), l, x);
    }
  }

  /** What a left row has met and will meet stays the same. */
  function Meetings(node: Node, left: seq<Row>, s: State, l: nat, x: nat): nat
    requires l < |left| == |s.met|
  {
    Times(s.met[l], x) + WillAll(node, left, s.todo, l, x)
  }

  lemma TodoAfter(node: Node, left: seq<Row>, rowsOf: map<Key, seq<nat>>, todo: seq<Item>, i: nat, l: nat, x: nat)
    requires GroupsPage(node, left, |left|, rowsOf) && i < |todo| && l < |left|
    ensures WillAll(node, left, Without(todo, i) + Expand(node, rowsOf, todo[i]), l, x)
            == WillAll(node, left, todo, l, x) - if todo[i].APair? then Will(node, left, todo[i], l, x) else 0
  {
    WillWithout(node, left, todo, i, l, x);
    WillSum(node, left, Without(todo, i), Expand(node, rowsOf, todo[i]), l, x);
    if !todo[i].APair? {
      ExpandKeeps(node, left, rowsOf, todo[i], l, x);
    }
  }

  lemma HandleKeepsMeetings(node: Node, left: seq<Row>, rowsOf: map<Key, seq<nat>>, s: State, i: nat, l: nat, x: nat)
    requires GroupsPage(node, left, |left|, rowsOf) && Valid(node, left, s) && i < |s.todo| && l < |left|
    ensures Meetings(node, left, Handle(node, left, rowsOf, s, i), l, x) == Meetings(node, left, s, l, x)
  {
    TodoAfter(node, left, rowsOf, s.todo, i, l, x);
    if s.todo[i].APair? {
      TimesLast(s.met[l], s.todo[i].rowid, x);
    }
  }

  // ---------------------------------------------------------------- what the pools leave behind

  /** The page's keys and the rows that have each of them. */
  ghost predicate IsPage(node: Node, left: seq<Row>, keys: seq<Key>, rowsOf: map<Key, seq<nat>>) {
    Distinct(keys) && (forall k :: k in keys <==> k in rowsOf) && GroupsPage(node, left, |left|, rowsOf)
  }

  lemma ExpandIsPossible(node: Node, left: seq<Row>, rowsOf: map<Key, seq<nat>>, item: Item, more: Item)
    requires GroupsPage(node, left, |left|, rowsOf) && more in Expand(node, rowsOf, item)
    ensures Possible(node, left, more)
  {
    if item.AnEntry? {
      assert RowsWith(node, left, item.key, |left|) == RowsOf(rowsOf, item.key);
      if more.APair? {
        RowOnce(node, left, item.key, |left|, more.row);
        TimesIn(RowsOf(rowsOf, item.key), more.row);
      }
    }
  }

  lemma HandleIsValid(node: Node, left: seq<Row>, rowsOf: map<Key, seq<nat>>, s: State, i: nat)
    requires GroupsPage(node, left, |left|, rowsOf) && Valid(node, left, s) && i < |s.todo|
    ensures Valid(node, left, Handle(node, left, rowsOf, s, i))
  {
    var rest, more := Without(s.todo, i), Expand(node, rowsOf, s.todo[i]);
    forall k | 0 <= k < |rest + more| ensures Possible(node, left, (rest + more)[k]) {
      if k >= |rest| {
        ExpandIsPossible(node, left, rowsOf, s.todo[i], more[k - |rest|]);
      } else {
        assert rest[k] == s.todo[if k < i then k else k + 1];
      }
    }
  }

  ghost predicate FoundIffMet(s: State) {
    |s.found| == |s.met| && forall l :: 0 <= l < |s.met| ==> (s.found[l] <==> s.met[l] != [])
  }

  ghost predicate PageRun(node: Node, left: seq<Row>, keys: seq<Key>, rowsOf: map<Key, seq<nat>>, states: seq<State>,
                          picks: seq<nat>) {
    IsPage(node, left, keys, rowsOf) && Run(node, left, rowsOf, states, picks) && states[0] == Start(left, keys)
  }

  lemma {:induction false} RunIsValid(node: Node, left: seq<Row>, keys: seq<Key>, rowsOf: map<Key, seq<nat>>,
                                      states: seq<State>, picks: seq<nat>, n: nat)
    requires PageRun(node, left, keys, rowsOf, states, picks) && n <= |picks|
    ensures Valid(node, left, states[n]) && FoundIffMet(states[n])
  {
    if n > 0 {
      RunIsValid(node, left, keys, rowsOf, states, picks, n - 1);
      assert StepAt(node, left, rowsOf, states, picks, n - 1);
      HandleIsValid(node, left, rowsOf, states[n - 1], picks[n - 1]);
    }
  }

  lemma {:induction false} RunKeepsMeetings(node: Node, left: seq<Row>, keys: seq<Key>, rowsOf: map<Key, seq<nat>>,
                                            states: seq<State>, picks: seq<nat>, n: nat, l: nat, x: nat)
    requires PageRun(node, left, keys, rowsOf, states, picks) && n <= |picks| && l < |left|
    ensures |states[n].met| == |left|
    ensures Meetings(node, left, states[n], l, x) == WillAll(node, left, KeyItems(keys), l, x)
  {
    RunIsValid(node, left, keys, rowsOf, states, picks, n);
    if n > 0 {
      RunKeepsMeetings(node, left, keys, rowsOf, states, picks, n - 1, l, x);
      assert StepAt(node, left, rowsOf, states, picks, n - 1);
      HandleKeepsMeetings(node, left, rowsOf, states[n - 1], picks[n - 1], l, x);
    }
  }

  lemma SameMeansBothEmpty(a: seq<nat>, b: seq<nat>)
    requires Permutes(a, b) && b == []
    ensures a == []
  {
    if a != [] {
      TimesIn(a, a[0]);
      TimesIn(b, a[0]);
    }
  }

  /** Whatever the order of the work, when it is all done each left row has met exactly the live
      right rows under its key, each once, and it is marked as found exactly when there was one. */
  lemma EveryRowMeetsItsMatches(node: Node, left: seq<Row>, keys: seq<Key>, rowsOf: map<Key, seq<nat>>,
                                states: seq<State>, picks: seq<nat>, l: nat)
    requires PageRun(node, left, keys, rowsOf, states, picks)
    requires states[|picks|].todo == [] && l < |left|
    ensures |states[|picks|].met| == |states[|picks|].found| == |left|
    ensures var matches := Matches(node, Entries(node, node.keyOf(left[l])));
            Permutes(states[|picks|].met[l], matches) && (states[|picks|].found[l] <==> matches != [])
  {
    var t, key := states[|picks|], node.keyOf(left[l]);
    var matches := Matches(node, Entries(node, key));
    RunIsValid(node, left, keys, rowsOf, states, picks, |picks|);
    RowOnce(node, left, key, |left|, l);
    assert RowsWith(node, left, key, |left|) == RowsOf(rowsOf, key);
    assert key in keys;
    forall x: nat ensures Times(t.met[l], x) == Times(matches, x) {
      RunKeepsMeetings(node, left, keys, rowsOf, states, picks, |picks|, l, x);
      KeysMeet(node, left, keys, l, x);
    }
    if matches == [] {
      SameMeansBothEmpty(t.met[l], matches);
    } else if t.met[l] == [] {
      SameMeansBothEmpty(matches, t.met[l]);
    }
  }

  // ---------------------------------------------------------------- the index is the join condition

  /** Each live right row is in the index once, under its own key, and nothing else is. */
  ghost predicate IndexIsExact(node: Node, rightKey: Row -> Key) {
    forall k, r :: r in node.rightRows ==>
      Times(Entries(node, k), r) == if rightKey(node.rightRows[r]) == k then 1 else 0
  }

  lemma {:induction false} MatchTimes(node: Node, rowids: seq<nat>, r: nat)
    ensures Times(Matches(node, rowids), r) == if Live(node, r) then Times(rowids, r) else 0
  {
    if rowids != [] {
      var front, last := rowids[..|rowids| - 1], rowids[|rowids| - 1];
      MatchTimes(node, front, r);
      TimesLast(Matches(node, front), last, r);
    }
  }

  /** With an exact index the rows under a key are the right rows with that key that pass the filter. */
  lemma MatchesAreTheJoin(node: Node, rightKey: Row -> Key, key: Key, r: nat)
    requires IndexIsExact(node, rightKey)
    ensures Times(Matches(node, Entries(node, key)), r)
            == if Live(node, r) && rightKey(node.rightRows[r]) == key then 1 else 0
  {
    MatchTimes(node, Entries(node, key), r);
  }

  // ---------------------------------------------------------------- the records of a page

  function RecordsOf(node: Node, row: Row, rowids: seq<nat>): seq<Record> {
    if rowids == [] then []
    else RecordsOf(node, row, rowids[..|rowids| - 1]) + RecordOf(node, row, rowids[|rowids| - 1])
  }

  /** The join of one left row: a record for each match, or the default record of a left join. */
  function JoinOf(node: Node, row: Row): seq<Record> {
    var matches := Matches(node, Entries(node, node.keyOf(row)));
    RecordsOf(node, row, matches) + ChildlessOf(node, row, matches != [])
  }

  function Flatten(parts: seq<seq<Record>>, n: nat): seq<Record>
    requires n <= |parts|
  {
    if n == 0 then [] else Flatten(parts, n - 1) + parts[n - 1]
  }

  /** The join of a page, left row by left row. */
  function Join(node: Node, left: seq<Row>): seq<Record> {
    Flatten(seq(|left|, l requires 0 <= l < |left| => JoinOf(node, left[l])), |left|)
  }

  function ChildlessParts(node: Node, left: seq<Row>, found: seq<bool>): (parts: seq<seq<Record>>)
    requires |left| == |found|
    ensures |parts| == |left|
  {
    seq(|left|, l requires 0 <= l < |left| => ChildlessOf(node, left[l], found[l]))
  }

  /** The default record of a left row without matches, in a left join. */
  function ChildlessOf(node: Node, row: Row, found: bool): seq<Record> {
    if node.leftJoin && !found then Passing(node, node.childless(row)) else []
  }

  /** After the pools: the left rows of a left join that found nothing. */
  method AddChildless(node: Node, left: seq<Row>, found: seq<bool>) returns (out: seq<Record>)
    requires |left| == |found|
    ensures out == Flatten(ChildlessParts(node, left, found), |left|)
  {
    out := [];
    if node.leftJoin {
      for l := 0 to |left|
        invariant out == Flatten(ChildlessParts(node, left, found), l)
      {
        if found[l] {
          continue;
        }
        var record := node.childless(left[l]);
        if node.having(record) {
          out := out + [record];
        }
      }
    } else {
      NoChildless(node, left, found, |left|);
    }
  }

  lemma {:induction false} NoChildless(node: Node, left: seq<Row>, found: seq<bool>, n: nat)
    requires n <= |left| == |found| && !node.leftJoin
    ensures Flatten(ChildlessParts(node, left, found), n) == []
  {
    if n > 0 {
      NoChildless(node, left, found, n - 1);
    }
  }

  lemma {:induction false} TimesSum(a: seq<Record>, b: seq<Record>, x: Record)
    ensures Times(a + b, x) == Times(a, x) + Times(b, x)
  {
    if b == [] {
      assert a + b == a;
    } else {
      var n := |b| - 1;
      assert a + b == (a + b[..n]) + [b[n]];
      TimesSum(a, b[..n], x);
      TimesLast(a + b[..n], b[n], x);
    }
  }

  function NumRecord(node: Node, row: Row, x: Record): nat -> int {
    (r: nat) => Times(RecordOf(node, row, r), x)
  }

  lemma {:induction false} RecordsSum(node: Node, row: Row, rowids: seq<nat>, x: Record)
    ensures Times(RecordsOf(node, row, rowids), x) == SumOf(NumRecord(node, row, x), rowids)
  {
    if rowids != [] {
      var n := |rowids| - 1;
      RecordsSum(node, row, rowids[..n], x);
      TimesSum(RecordsOf(node, row, rowids[..n]), RecordOf(node, row, rowids[n]), x);
    }
  }

  /** What the left rows have produced from the right rows they met. */
  function Produced(node: Node, left: seq<Row>, met: seq<seq<nat>>, n: nat, x: Record): int
    requires n <= |left| == |met|
  {
    if n == 0 then 0 else Produced(node, left, met, n - 1, x) + SumOf(NumRecord(node, left[n - 1], x), met[n - 1])
  }

  lemma {:induction false} ProducedMore(node: Node, left: seq<Row>, met: seq<seq<nat>>, l: nat, r: nat, n: nat,
                                        x: Record)
    requires n <= |left| == |met| && l < |left|
    ensures Produced(node, left, met[l := met[l] + [r]], n, x)
            == Produced(node, left, met, n, x) + if l < n then Times(RecordOf(node, left[l], r), x) else 0
  {
    if n > 0 {
      ProducedMore(node, left, met, l, r, n - 1, x);
      if l == n - 1 {
        SumOfLast(NumRecord(node, left[l], x), met[l], r);
      }
    }
  }

  lemma {:induction false} NothingProduced(node: Node, left: seq<Row>, met: seq<seq<nat>>, n: nat, x: Record)
    requires n <= |left| == |met| && forall l :: 0 <= l < |met| ==> met[l] == []
    ensures Produced(node, left, met, n, x) == 0
  {
    if n > 0 {
      NothingProduced(node, left, met, n - 1, x);
    }
  }

  lemma {:induction false} RunProduces(node: Node, left: seq<Row>, keys: seq<Key>, rowsOf: map<Key, seq<nat>>,
                                       states: seq<State>, picks: seq<nat>, n: nat, x: Record)
    requires PageRun(node, left, keys, rowsOf, states, picks) && n <= |picks|
    ensures |states[n].met| == |left| && Times(states[n].out, x) == Produced(node, left, states[n].met, |left|, x)
  {
    RunIsValid(node, left, keys, rowsOf, states, picks, n);
    if n == 0 {
      NothingProduced(node, left, states[0].met, |left|, x);
    } else {
      RunProduces(node, left, keys, rowsOf, states, picks, n - 1, x);
      assert StepAt(node, left, rowsOf, states, picks, n - 1);
      RunIsValid(node, left, keys, rowsOf, states, picks, n - 1);
      HandleProduces(node, left, rowsOf, states[n - 1], picks[n - 1], x);
    }
  }

  lemma HandleProduces(node: Node, left: seq<Row>, rowsOf: map<Key, seq<nat>>, s: State, i: nat, x: Record)
    requires Valid(node, left, s) && i < |s.todo| && Times(s.out, x) == Produced(node, left, s.met, |left|, x)
    ensures var t := Handle(node, left, rowsOf, s, i);
            |t.met| == |left| && Times(t.out, x) == Produced(node, left, t.met, |left|, x)
  {
    var item := s.todo[i];
    if item.APair? {
      assert Possible(node, left, item);
      ProducedMore(node, left, s.met, item.row, item.rowid, |left|, x);
      TimesSum(s.out, RecordOf(node, left[item.row], item.rowid), x);
    }
  }

  lemma JoinedRow(node: Node, row: Row, met: seq<nat>, found: bool, x: Record)
    requires RowIsJoined(node, row, met, found)
    ensures Times(JoinOf(node, row), x) == SumOf(NumRecord(node, row, x), met) + Times(ChildlessOf(node, row, found), x)
  {
    var matches := Matches(node, Entries(node, node.keyOf(row)));
    SumPermutes(NumRecord(node, row, x), met, matches);
    RecordsSum(node, row, matches, x);
    TimesSum(RecordsOf(node, row, matches), ChildlessOf(node, row, found), x);
  }

  function SumTo(xs: seq<int>, n: nat): int
    requires n <= |xs|
  {
    if n == 0 then 0 else SumTo(xs, n - 1) + xs[n - 1]
  }

  lemma {:induction false} SumsAdd(a: seq<int>, b: seq<int>, c: seq<int>, n: nat)
    requires n <= |a| == |b| == |c| && forall l :: 0 <= l < |a| ==> a[l] == b[l] + c[l]
    ensures SumTo(a, n) == SumTo(b, n) + SumTo(c, n)
  {
    if n > 0 {
      SumsAdd(a, b, c, n - 1);
    }
  }

  lemma {:induction false} FlattenSum(parts: seq<seq<Record>>, a: seq<int>, n: nat, x: Record)
    requires n <= |parts| == |a| && forall l :: 0 <= l < |a| ==> a[l] == Times(parts[l], x)
    ensures Times(Flatten(parts, n), x) == SumTo(a, n)
  {
    if n > 0 {
      FlattenSum(parts, a, n - 1, x);
      TimesSum(Flatten(parts, n - 1), parts[n - 1], x);
    }
  }

  lemma {:induction false} ProducedSum(node: Node, left: seq<Row>, met: seq<seq<nat>>, b: seq<int>, n: nat, x: Record)
    requires n <= |left| == |met| == |b| && forall l :: 0 <= l < |b| ==>
             b[l] == SumOf(NumRecord(node, left[l], x), met[l])
    ensures Produced(node, left, met, n, x) == SumTo(b, n)
  {
    if n > 0 {
      ProducedSum(node, left, met, b, n - 1, x);
    }
  }

  lemma JoinedSums(node: Node, left: seq<Row>, met: seq<seq<nat>>, found: seq<bool>, x: Record)
    requires |left| == |met| == |found|
    requires forall l :: 0 <= l < |left| ==> JoinedAt(node, left, met, found, l)
    ensures Times(Join(node, left), x)
            == Produced(node, left, met, |left|, x) + Times(Flatten(ChildlessParts(node, left, found), |left|), x)
  {
    var n := |left|;
    var joins := seq(n, l requires 0 <= l < n => JoinOf(node, left[l]));
    var childless := ChildlessParts(node, left, found);
    var a: seq<int> := seq(n, l requires 0 <= l < n => Times(joins[l], x));
    var b: seq<int> := seq(n, l requires 0 <= l < n => SumOf(NumRecord(node, left[l], x), met[l]));
    var c: seq<int> := seq(n, l requires 0 <= l < n => Times(childless[l], x));
    forall l | 0 <= l < n ensures a[l] == b[l] + c[l] {
      assert JoinedAt(node, left, met, found, l);
      JoinedRow(node, left[l], met[l], found[l], x);
    }
    FlattenSum(joins, a, n, x);
    ProducedSum(node, left, met, b, n, x);
    FlattenSum(childless, c, n, x);
    SumsAdd(a, b, c, n);
  }

  ghost predicate JoinedAt(node: Node, left: seq<Row>, met: seq<seq<nat>>, found: seq<bool>, l: nat)
    requires l < |left| == |met| == |found|
  {
    RowIsJoined(node, left[l], met[l], found[l])
  }

  ghost predicate RowIsJoined(node: Node, row: Row, met: seq<nat>, found: bool) {
    var matches := Matches(node, Entries(node, node.keyOf(row)));
    Permutes(met, matches) && (found <==> matches != [])
  }

  /** The records of a page are the join, whatever the order in which the pools did the work. */
  lemma PageIsJoin(node: Node, left: seq<Row>, keys: seq<Key>, rowsOf: map<Key, seq<nat>>, states: seq<State>,
                   picks: seq<nat>)
    requires PageRun(node, left, keys, rowsOf, states, picks) && states[|picks|].todo == []
    ensures |states[|picks|].found| == |left|
    ensures var childless := Flatten(ChildlessParts(node, left, states[|picks|].found), |left|);
            Permutes(states[|picks|].out + childless, Join(node, left))
  {
    var t := states[|picks|];
    RunIsValid(node, left, keys, rowsOf, states, picks, |picks|);
    forall l | 0 <= l < |left| ensures JoinedAt(node, left, t.met, t.found, l) {
      EveryRowMeetsItsMatches(node, left, keys, rowsOf, states, picks, l);
    }
    var childless := Flatten(ChildlessParts(node, left, t.found), |left|);
    forall x ensures Times(t.out + childless, x) == Times(Join(node, left), x) {
      RunProduces(node, left, keys, rowsOf, states, picks, |picks|, x);
      JoinedSums(node, left, t.met, t.found, x);
      TimesSum(t.out, childless, x);
    }
  }

  // ---------------------------------------------------------------- the join of two tables

  /** The right rows with this key that pass the lookup filter, among `ids`. */
  function Joined(node: Node, rightKey: Row -> Key, key: Key, ids: seq<nat>): seq<nat> {
    if ids == [] then []
    else
      var front, r := Joined(node, rightKey, key, ids[..|ids| - 1]), ids[|ids| - 1];
      if Live(node, r) && rightKey(node.rightRows[r]) == key then front + [r] else front
  }

  function TableJoinOf(node: Node, rightKey: Row -> Key, row: Row, ids: seq<nat>): seq<Record> {
    var joined := Joined(node, rightKey, node.keyOf(row), ids);
    RecordsOf(node, row, joined) + ChildlessOf(node, row, joined != [])
  }

  /** Every left row with every right row of an equal key, without an index. */
  function TableJoin(node: Node, rightKey: Row -> Key, left: seq<Row>, ids: seq<nat>): seq<Record> {
    Flatten(seq(|left|, l requires 0 <= l < |left| => TableJoinOf(node, rightKey, left[l], ids)), |left|)
  }

  /** `ids` lists the right table. */
  ghost predicate Lists(node: Node, ids: seq<nat>) {
    forall r :: Times(ids, r) == if r in node.rightRows then 1 else 0
  }

  lemma {:induction false} JoinedTimes(node: Node, rightKey: Row -> Key, key: Key, ids: seq<nat>, r: nat)
    ensures Times(Joined(node, rightKey, key, ids), r)
            == if Live(node, r) && rightKey(node.rightRows[r]) == key then Times(ids, r) else 0
  {
    if ids != [] {
      JoinedTimes(node, rightKey, key, ids[..|ids| - 1], r);
      TimesLast(Joined(node, rightKey, key, ids[..|ids| - 1]), ids[|ids| - 1], r);
    }
  }

  lemma IndexFindsJoined(node: Node, rightKey: Row -> Key, key: Key, ids: seq<nat>)
    requires IndexIsExact(node, rightKey) && Lists(node, ids)
    ensures Permutes(Matches(node, Entries(node, key)), Joined(node, rightKey, key, ids))
  {
    forall r ensures Times(Matches(node, Entries(node, key)), r) == Times(Joined(node, rightKey, key, ids), r) {
      MatchesAreTheJoin(node, rightKey, key, r);
      JoinedTimes(node, rightKey, key, ids, r);
    }
  }

  lemma RowJoinTimes(node: Node, rightKey: Row -> Key, row: Row, ids: seq<nat>, x: Record)
    requires IndexIsExact(node, rightKey) && Lists(node, ids)
    ensures Times(TableJoinOf(node, rightKey, row, ids), x) == Times(JoinOf(node, row), x)
  {
    var a, b := Matches(node, Entries(node, node.keyOf(row))), Joined(node, rightKey, node.keyOf(row), ids);
    IndexFindsJoined(node, rightKey, node.keyOf(row), ids);
    SumPermutes(NumRecord(node, row, x), a, b);
    RecordsSum(node, row, a, x);
    RecordsSum(node, row, b, x);
    TimesSum(RecordsOf(node, row, a), ChildlessOf(node, row, a != []), x);
    TimesSum(RecordsOf(node, row, b), ChildlessOf(node, row, b != []), x);
  }

  lemma JoinTimes(node: Node, rightKey: Row -> Key, left: seq<Row>, ids: seq<nat>, x: Record)
    requires IndexIsExact(node, rightKey) && Lists(node, ids)
    ensures Times(TableJoin(node, rightKey, left, ids), x) == Times(Join(node, left), x)
  {
    var n := |left|;
    var joins := seq(n, l requires 0 <= l < n => JoinOf(node, left[l]));
    var tables := seq(n, l requires 0 <= l < n => TableJoinOf(node, rightKey, left[l], ids));
    var a: seq<int> := seq(n, l requires 0 <= l < n => Times(joins[l], x));
    forall l | 0 <= l < n ensures a[l] == Times(tables[l], x) {
      RowJoinTimes(node, rightKey, left[l], ids, x);
    }
    FlattenSum(joins, a, n, x);
    FlattenSum(tables, a, n, x);
  }

  /** With an exact index, the records of a page are those of the pairs of a left and a right row with
      equal keys, and of the left rows without one, whatever the order in which the pools did the work. */
  lemma PageIsTableJoin(node: Node, rightKey: Row -> Key, left: seq<Row>, ids: seq<nat>, keys: seq<Key>,
                        rowsOf: map<Key, seq<nat>>, states: seq<State>, picks: seq<nat>)
    requires IndexIsExact(node, rightKey) && Lists(node, ids)
    requires PageRun(node, left, keys, rowsOf, states, picks) && states[|picks|].todo == []
    ensures |states[|picks|].found| == |left|
    ensures var childless := Flatten(ChildlessParts(node, left, states[|picks|].found), |left|);
            Permutes(states[|picks|].out + childless, TableJoin(node, rightKey, left, ids))
  {
    PageIsJoin(node, left, keys, rowsOf, states, picks);
    var all := states[|picks|].out + Flatten(ChildlessParts(node, left, states[|picks|].found), |left|);
    forall x ensures Times(all, x) == Times(TableJoin(node, rightKey, left, ids), x) {
      JoinTimes(node, rightKey, left, ids, x);
    }
  }

  // ---------------------------------------------------------------- grouped fields

  /** An aggregate field: its argument for a pair of rows, and the condition of an `_if` variant. */
  datatype Field = Field(func: AggFunc, arg: (Row, Row) -> int, applies: (Row, Row) -> bool)

  function ArgOf(node: Node, field: Field, row: Row): nat -> int {
    (r: nat) => if r in node.rightRows then field.arg(row, node.rightRows[r]) else 0
  }

  /** The matches the field is applied to. */
  function Applied(node: Node, field: Field, row: Row, rowids: seq<nat>): seq<nat> {
    if rowids == [] then []
    else
      var front, r := Applied(node, field, row, rowids[..|rowids| - 1]), rowids[|rowids| - 1];
      if r in node.rightRows && field.applies(row, node.rightRows[r]) then front + [r] else front
  }

  /** The field's value after the row met these right rows, in this order. */
  function Grouped(node: Node, field: Field, row: Row, rowids: seq<nat>): int {
    Value(field.func, Map(ArgOf(node, field, row), Applied(node, field, row, rowids)))
  }

  lemma {:induction false} AppliedTimes(node: Node, field: Field, row: Row, rowids: seq<nat>, r: nat)
    ensures Times(Applied(node, field, row, rowids), r)
            == if r in node.rightRows && field.applies(row, node.rightRows[r]) then Times(rowids, r) else 0
  {
    if rowids != [] {
      var n := |rowids| - 1;
      AppliedTimes(node, field, row, rowids[..n], r);
      TimesLast(Applied(node, field, row, rowids[..n]), rowids[n], r);
    }
  }

  lemma GroupedPermutes(node: Node, field: Field, row: Row, met: seq<nat>, matches: seq<nat>)
    requires Permutes(met, matches) && forall a, b :: IsInt64(field.arg(a, b))
    ensures Grouped(node, field, row, met) == Grouped(node, field, row, matches)
  {
    var a, b := Applied(node, field, row, met), Applied(node, field, row, matches);
    forall r ensures Times(a, r) == Times(b, r) {
      AppliedTimes(node, field, row, met, r);
      AppliedTimes(node, field, row, matches, r);
    }
    MapPermutes(ArgOf(node, field, row), a, b);
    ValuePermutes(field.func, Map(ArgOf(node, field, row), a), Map(ArgOf(node, field, row), b));
  }

  /** A grouped field is the aggregate over the row's matches, whatever the order of the work. */
  lemma GroupedIsAggregate(node: Node, left: seq<Row>, keys: seq<Key>, rowsOf: map<Key, seq<nat>>, states: seq<State>,
                           picks: seq<nat>, l: nat, field: Field)
    requires PageRun(node, left, keys, rowsOf, states, picks) && states[|picks|].todo == [] && l < |left|
    requires forall a, b :: IsInt64(field.arg(a, b))
    ensures |states[|picks|].met| == |left|
    ensures Grouped(node, field, left[l], states[|picks|].met[l])
            == Grouped(node, field, left[l], Matches(node, Entries(node, node.keyOf(left[l]))))
  {
    EveryRowMeetsItsMatches(node, left, keys, rowsOf, states, picks, l);
    var met, matches := states[|picks|].met[l], Matches(node, Entries(node, node.keyOf(left[l])));
    GroupedPermutes(node, field, left[l], met, matches);
  }

  /** The collector of a grouped field, fed with the right rows a left row meets. */
  method EvalRowGroupedField(node: Node, field: Field, row: Row, rowids: seq<nat>) returns (value: int)
    requires rowids != [] && forall r :: r in rowids ==> r in node.rightRows
    requires forall a, b :: IsInt64(field.arg(a, b))
    ensures value == Grouped(node, field, row, rowids)
  {
    var eCtx := new EvalCtx(field.func);
    value := 0;
    for i := 0 to |rowids|
      invariant fresh(eCtx) && eCtx.Valid() && eCtx.aggFunc == field.func
      invariant eCtx.fed == Map(ArgOf(node, field, row), Applied(node, field, row, rowids[..i]))
      invariant i > 0 ==> value == Value(field.func, eCtx.fed)
    {
      assert rowids[i] in rowids;
      var right := node.rightRows[rowids[i]];
      AppliedNext(node, field, row, rowids, i);
      value := eCtx.Eval(field.arg(row, right), field.applies(row, right));
    }
    assert rowids[..|rowids|] == rowids;
  }

  lemma AppliedNext(node: Node, field: Field, row: Row, rowids: seq<nat>, i: nat)
    requires i < |rowids| && rowids[i] in node.rightRows
    ensures var front, r := Applied(node, field, row, rowids[..i]), rowids[i];
            Map(ArgOf(node, field, row), Applied(node, field, row, rowids[..i + 1]))
            == Map(ArgOf(node, field, row), front)
               + if field.applies(row, node.rightRows[r]) then [field.arg(row, node.rightRows[r])] else []
  {
    var front, r := Applied(node, field, row, rowids[..i]), rowids[i];
    assert rowids[..i + 1][..i] == rowids[..i];
    assert (front + [r])[..|front|] == front;
  }
}
