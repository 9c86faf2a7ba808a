/** Clean-up before an abandoned batch is run again: find all rows of the batch by scanning the
    whole data table page by page, delete their index entries, then the rows, and start over. */
module Cleanup {
  datatype TableRow<R> = TableRow(rowid: int, batch: int, rec: R)

  datatype Entry = Entry(name: string, key: string, rowid: int)

  datatype Engine = Cassandra | Keyspaces

  const MAX_KEYSPACES_BATCH_LEN: nat := 30

  /** The rows of all other batches, in table order. */
  ghost function Foreign<R(!new)>(rows: seq<TableRow<R>>, batch: int): seq<TableRow<R>> {
    if rows == [] then []
    else (if rows[0].batch == batch then [] else [rows[0]]) + Foreign(rows[1..], batch)
  }

  function Without<R(!new)>(rows: seq<TableRow<R>>, ids: set<int>): (out: seq<TableRow<R>>)
    ensures |out| <= |rows|
    ensures forall r :: r in out <==> r in rows && r.rowid !in ids
  {
    if rows == [] then []
    else (if rows[0].rowid in ids then [] else [rows[0]]) + Without(rows[1..], ids)
  }

  function IdSet(ids: seq<int>): set<int> {
    set i | i in ids
  }

  /** Where a row comes in every scan: by token, and by rowid among rows of one token. */
  type Place = int -> int

  ghost predicate InScanOrder<R(!new)>(place: Place, rows: seq<TableRow<R>>) {
    forall i, j :: 0 <= i < j < |rows| ==> place(rows[i].rowid) < place(rows[j].rowid)
  }

  lemma {:induction false} WithoutOrdered<R(!new)>(place: Place, rows: seq<TableRow<R>>, ids: set<int>)
    requires InScanOrder(place, rows)
    ensures InScanOrder(place, Without(rows, ids))
  {
    if rows != [] {
      WithoutOrdered(place, rows[1..], ids);
      var rest := Without(rows[1..], ids);
      forall j | 0 <= j < |rest| ensures place(rows[0].rowid) < place(rest[j].rowid) {
        assert rest[j] in rows[1..];
      }
    }
  }

  /** Deleting rows of one batch keeps the rows of the others, in their order. */
  lemma {:induction false} WithoutKeepsForeign<R(!new)>(rows: seq<TableRow<R>>, ids: set<int>, batch: int)
    requires forall r :: r in rows && r.rowid in ids ==> r.batch == batch
    ensures Foreign(Without(rows, ids), batch) == Foreign(rows, batch)
  {
    if rows != [] {
      assert rows[0] in rows && forall r :: r in rows[1..] ==> r in rows;
      WithoutKeepsForeign(rows[1..], ids, batch);
      var rest := Without(rows[1..], ids);
      if rows[0].rowid in ids {
        assert Without(rows, ids) == rest;
        assert Foreign(rows, batch) == Foreign(rows[1..], batch);
      } else {
        assert Without(rows, ids) == [rows[0]] + rest && ([rows[0]] + rest)[1..] == rest;
      }
    }
  }

  lemma {:induction false} WithoutShrinks<R(!new)>(rows: seq<TableRow<R>>, ids: set<int>, r: TableRow<R>)
    requires r in rows && r.rowid in ids
    ensures |Without(rows, ids)| < |rows|
  {
    if rows[0].rowid !in ids {
      WithoutShrinks(rows[1..], ids, r);
    }
  }

  lemma {:induction false} WithoutNothing<R(!new)>(rows: seq<TableRow<R>>)
    ensures Without(rows, {}) == rows
  {
    if rows != [] {
      WithoutNothing(rows[1..]);
    }
  }

  lemma {:induction false} WithoutUnion<R(!new)>(rows: seq<TableRow<R>>, a: set<int>, b: set<int>)
    ensures Without(Without(rows, a), b) == Without(rows, a + b)
  {
    if rows != [] {
      WithoutUnion(rows[1..], a, b);
      var rest := Without(rows[1..], a);
      if rows[0].rowid in a {
        assert Without(rows, a) == rest && Without(rows, a + b) == Without(rows[1..], a + b);
      } else {
        assert Without(rows, a) == [rows[0]] + rest && ([rows[0]] + rest)[1..] == rest;
      }
    }
  }

  lemma {:induction false} ForeignCount<R(!new)>(rows: seq<TableRow<R>>, batch: int)
    ensures |Foreign(rows, batch)| <= |rows|
    ensures (forall r :: r in rows ==> r.batch != batch) <==> |Foreign(rows, batch)| == |rows|
    ensures (exists r :: r in rows && r.batch != batch) <==> Foreign(rows, batch) != []
  {
    if rows != [] {
      ForeignCount(rows[1..], batch);
      assert rows == [rows[0]] + rows[1..];
    }
  }

  lemma SameId<R(!new)>(place: Place, rows: seq<TableRow<R>>, a: TableRow<R>, b: TableRow<R>)
    requires InScanOrder(place, rows) && a in rows && b in rows && a.rowid == b.rowid
    ensures a == b
  {
    var i :| 0 <= i < |rows| && rows[i] == a;
    var j :| 0 <= j < |rows| && rows[j] == b;
    assert i < j || j < i || i == j;
  }

  /** `ids` are the rowids of the batch's rows on the page. */
  ghost predicate OwnIds<R(!new)>(page: seq<TableRow<R>>, batch: int, ids: seq<int>) {
    forall i :: i in ids <==> exists r :: r in page && r.batch == batch && r.rowid == i
  }

  ghost predicate Cleared<R(!new)>(rows: seq<TableRow<R>>, batch: int, upTo: nat) {
    forall i :: 0 <= i < upTo && i < |rows| ==> rows[i].batch != batch
  }

  /** After the batch's rows of the last page are gone, none is left. */
  lemma LastPageClears<R(!new)>(rows: seq<TableRow<R>>, batch: int, from: nat, page: seq<TableRow<R>>, ids: seq<int>)
    requires from <= |rows| && page == rows[from..] && OwnIds(page, batch, ids) && Cleared(rows, batch, from)
    ensures forall r :: r in Without(rows, IdSet(ids)) ==> r.batch != batch
  {
    forall r | r in Without(rows, IdSet(ids)) ensures r.batch != batch {
      var k :| 0 <= k < |rows| && rows[k] == r;
      assert k >= from ==> page[k - from] == r;
      assert r in page && r.batch == batch ==> r.rowid in ids;
    }
  }

  lemma NothingOwn<R(!new)>(rows: seq<TableRow<R>>, batch: int, from: nat, page: seq<TableRow<R>>, ids: seq<int>)
    requires from + |page| <= |rows| && page == rows[from..from + |page|] && OwnIds(page, batch, ids) && ids == []
    requires Cleared(rows, batch, from)
    ensures Cleared(rows, batch, from + |page|)
  {
    forall i | from <= i < from + |page| ensures rows[i].batch != batch {
      var r := page[i - from];
      assert r in page && r.batch == batch ==> r.rowid in ids;
    }
  }

  lemma NothingForeignIff<R(!new)>(rows: seq<TableRow<R>>, batch: int)
    ensures Clean(rows, batch) && Foreign(rows, batch) == [] ==> rows == []
    ensures rows != [] && rows[0].batch != batch ==> Foreign(rows, batch) != []
  {
    if rows != [] {
      assert rows[0] in rows;
    }
  }

  lemma OwnRowIsMet<R(!new)>(rows: seq<TableRow<R>>, batch: int, from: nat, page: seq<TableRow<R>>, ids: seq<int>)
    requires from + |page| <= |rows| && page == rows[from..from + |page|] && OwnIds(page, batch, ids) && ids != []
    ensures !Cleared(rows, batch, from + |page|)
  {
    var r := OwnIdRow(page, batch, ids);
    var k :| 0 <= k < |page| && page[k] == r;
    assert rows[from + k] == r;
  }

  lemma RankDrops(own: int, own': int, width: nat)
    requires own' < own
    ensures own' * (width + 2) + width + 2 <= own * (width + 2)
  {
    var d: nat := own - own' - 1;
    assert own * (width + 2) == own' * (width + 2) + (width + 2) + d * (width + 2);
  }

  /** How many page reads the loop needs at most, started at `pageState` of a table that had
      `width` rows when the clean-up began. */
  ghost function Rank<R(!new)>(rows: seq<TableRow<R>>, batch: int, pageState: nat, width: nat): int {
    (|rows| - |Foreign(rows, batch)|) * (width + 2) + |rows| - pageState + 1
  }

  lemma RankIsPositive<R(!new)>(rows: seq<TableRow<R>>, batch: int, pageState: nat, width: nat)
    requires pageState <= |rows|
    ensures Rank(rows, batch, pageState, width) >= 1
  {
    ForeignCount(rows, batch);
    assert (|rows| - |Foreign(rows, batch)|) * (width + 2) >= 0;
  }

  lemma RankAfterDelete<R(!new)>(rows: seq<TableRow<R>>, rows': seq<TableRow<R>>, batch: int, pageState: nat,
                                 width: nat)
    requires pageState <= |rows| && |rows'| < |rows| <= width && Foreign(rows', batch) == Foreign(rows, batch)
    ensures Rank(rows', batch, 0, width) < Rank(rows, batch, pageState, width)
  {
    RankDrops(|rows| - |Foreign(rows, batch)|, |rows'| - |Foreign(rows', batch)|, width);
  }

  lemma RankAfterPage<R(!new)>(rows: seq<TableRow<R>>, batch: int, from: nat, to: nat, width: nat)
    ensures from < to ==> Rank(rows, batch, to, width) < Rank(rows, batch, from, width)
  {
  }

  /** Whether the loop can stop at all. */
  ghost predicate CanFinish<R(!new)>(engine: Engine, rows: seq<TableRow<R>>, batch: int, exactEnd: bool) {
    engine == Keyspaces || !exactEnd || Foreign(rows, batch) == []
  }

  /** The state of a scan: empty, or the place after which it goes on. */
  datatype PageState = Start | After(at: int)

  /** How many rows a scan that goes on after this place leaves behind. */
  function Index<R(!new)>(place: Place, rows: seq<TableRow<R>>, at: int): (n: nat)
    ensures n <= |rows|
  {
    if rows == [] || place(rows[0].rowid) > at then 0 else 1 + Index(place, rows[1..], at)
  }

  function From<R(!new)>(place: Place, rows: seq<TableRow<R>>, pageState: PageState): (n: nat)
    ensures n <= |rows|
  {
    if pageState.Start? then 0 else Index(place, rows, pageState.at)
  }

  lemma {:induction false} IndexIs<R(!new)>(place: Place, rows: seq<TableRow<R>>, at: int, k: nat)
    requires InScanOrder(place, rows) && k < |rows|
    ensures k < Index(place, rows, at) <==> place(rows[k].rowid) <= at
  {
    if k > 0 {
      if place(rows[0].rowid) <= at {
        IndexIs(place, rows[1..], at, k - 1);
      }
    }
  }

  lemma IndexOf<R(!new)>(place: Place, rows: seq<TableRow<R>>, at: int, n: nat)
    requires InScanOrder(place, rows) && n <= |rows|
    requires (n > 0 ==> place(rows[n - 1].rowid) <= at) && (n < |rows| ==> at < place(rows[n].rowid))
    ensures Index(place, rows, at) == n
  {
    if n > 0 {
      IndexIs(place, rows, at, n - 1);
    }
    if n < |rows| {
      IndexIs(place, rows, at, n);
    }
  }

  /** The page state of a scan that has come to row `to`. */
  function StateAt<R(!new)>(place: Place, rows: seq<TableRow<R>>, to: nat): PageState
    requires to <= |rows| && rows != []
  {
    After(if to > 0 then place(rows[to - 1].rowid) else place(rows[0].rowid) - 1)
  }

  lemma StateIsAt<R(!new)>(place: Place, rows: seq<TableRow<R>>, to: nat)
    requires InScanOrder(place, rows) && to <= |rows| && rows != []
    ensures From(place, rows, StateAt(place, rows, to)) == to
  {
    IndexOf(place, rows, StateAt(place, rows, to).at, to);
  }

  // ---------------------------------------------------------------- other batches

  datatype Tables<R> = Tables(rows: seq<TableRow<R>>, idx: set<Entry>)

  /** What the workers of other batches have done to the tables before a page is read. */
  type Others<!R> = (nat, Tables<R>) -> Tables<R>

  ghost predicate SameOwn<R(!new)>(was: seq<TableRow<R>>, now: seq<TableRow<R>>, batch: int) {
    forall r: TableRow<R> :: r.batch == batch ==> (r in was <==> r in now)
  }

  ghost predicate Quiet<R(!new)>(others: Others<R>) {
    forall n, t :: others(n, t) == t
  }

  /** The others never remove what they spare. */
  ghost predicate Spares<R(!new)>(others: Others<R>, r: TableRow<R>) {
    forall n, t: Tables<R> :: r in t.rows ==> r in others(n, t).rows
  }

  ghost predicate SparesEntry<R(!new)>(others: Others<R>, e: Entry) {
    forall n, t: Tables<R> :: e in t.idx ==> e in others(n, t).idx
  }

  /** Rows and entries of other batches that the others spare are still there. */
  ghost predicate KeptForOthers<R(!new)>(others: Others<R>, batch: int, was: Tables<R>, now: Tables<R>) {
    && (forall r :: r in was.rows && r.batch != batch && Spares(others, r) ==> r in now.rows)
    && (forall r, e :: r in was.rows && r.batch != batch && Spares(others, r) && e in was.idx && e.rowid == r.rowid ==>
          SparesEntry(others, e) ==> e in now.idx)
  }

  lemma PageKeepsForOthers<R(!new)>(others: Others<R>, batch: int, was: Tables<R>, mid: Tables<R>, now: Tables<R>)
    requires KeptForOthers(others, batch, was, mid)
    requires Foreign(now.rows, batch) == Foreign(mid.rows, batch) && Kept(mid.idx, now.idx, ForeignIds(now.rows, batch))
    ensures KeptForOthers(others, batch, was, now)
  {
    ForeignIsForeign(now.rows, batch);
    ForeignIsForeign(mid.rows, batch);
  }

  lemma OthersKeepForOthers<R(!new)>(others: Others<R>, batch: int, was: Tables<R>, n: nat, t: Tables<R>)
    requires KeptForOthers(others, batch, was, t)
    ensures KeptForOthers(others, batch, was, others(n, t))
  {
  }

  /** A scan that has left no row of the batch behind has not after others have written either: its
      state is a place, and the batch's rows stay at theirs. */
  lemma OthersKeepCleared<R(!new)>(place: Place, was: seq<TableRow<R>>, now: seq<TableRow<R>>, batch: int,
                                   pageState: PageState)
    requires InScanOrder(place, was) && InScanOrder(place, now) && SameOwn(was, now, batch)
    requires Cleared(was, batch, From(place, was, pageState))
    ensures Cleared(now, batch, From(place, now, pageState))
  {
    if pageState.After? {
      forall k | 0 <= k < Index(place, now, pageState.at) ensures now[k].batch != batch {
        IndexIs(place, now, pageState.at, k);
        if now[k].batch == batch {
          assert now[k] in now && now[k] in was;
          var i :| 0 <= i < |was| && was[i] == now[k];
          IndexIs(place, was, pageState.at, i);
          assert false;
        }
      }
    }
  }

  /** The driver's page sizes: how many rows it is willing to return at each read. It may return a
      page without rows and a page state to go on with. */
  type Driver = nat -> nat

  ghost predicate NeverEmpty(driver: Driver) {
    forall k :: driver(k) > 0
  }

  function PageLength(wanted: nat, pageSize: nat, rest: nat): (len: nat)
    ensures len <= pageSize && len <= rest
  {
    if wanted <= pageSize && wanted <= rest then wanted else if pageSize <= rest then pageSize else rest
  }

  /** Where the scan of a long table stands after `k` reads. */
  function Position(driver: Driver, pageSize: nat, k: nat): nat {
    if k == 0 then 0
    else Position(driver, pageSize, k - 1) + if driver(k - 1) <= pageSize then driver(k - 1) else pageSize
  }

  /** A scan that is told of the end together with the last rows never goes on from the end. */
  ghost predicate InTable<R(!new)>(engine: Engine, exactEnd: bool, rows: seq<TableRow<R>>, from: nat) {
    engine == Cassandra && exactEnd ==> from < |rows| || rows == []
  }

  /** What one page does for the end of the loop: it stops only if the loop can finish, and otherwise
      brings it nearer. */
  ghost predicate PageTaken<R(!new)>(engine: Engine, batch: int, wanted: nat, exactEnd: bool, was: seq<TableRow<R>>,
                                     from: nat, now: seq<TableRow<R>>, to: nat, stop: bool, width: nat) {
    && (stop && wanted > 0 ==> CanFinish(engine, now, batch, exactEnd))
    && (!stop ==> InTable(engine, exactEnd, now, to))
    && (!stop && CanFinish(engine, now, batch, exactEnd) ==>
          Rank(now, batch, to, width) < Rank(was, batch, from, width))
  }

  /** A clean-up without disturbance after `page` reads. */
  ghost predicate OnCourse<R(!new)>(engine: Engine, batch: int, pageSize: nat, driver: Driver, exactEnd: bool,
                                    was: seq<TableRow<R>>, rows: seq<TableRow<R>>, from: nat, page: nat, most: int) {
    && from <= |rows| <= |was| && Foreign(rows, batch) == Foreign(was, batch) && InTable(engine, exactEnd, rows, from)
    && (CanFinish(engine, was, batch, exactEnd) ==> page + Rank(rows, batch, from, |was|) <= most)
    && (forall k :: k >= 0 && StopsShort(was, batch, driver, pageSize, k) ==>
          StillShort(was, rows, driver, pageSize, k, page, from))
  }

  /** Such a clean-up whose loop was left by read `page`. */
  ghost predicate Arrived<R(!new)>(engine: Engine, batch: int, pageSize: nat, driver: Driver, exactEnd: bool,
                                   was: seq<TableRow<R>>, rows: seq<TableRow<R>>, page: nat, most: int) {
    && (CanFinish(engine, was, batch, exactEnd) ==> page <= most)
    && (driver(page) > 0 ==> CanFinish(engine, was, batch, exactEnd))
    && (forall k :: k >= 0 && StopsShort(was, batch, driver, pageSize, k) ==> rows == was)
  }

  /** A page that has met no row of the batch, short of the end. */
  ghost predicate PagePassed<R(!new)>(batch: int, pageSize: nat, wanted: nat, was: seq<TableRow<R>>, from: nat,
                                      now: seq<TableRow<R>>, to: nat, stop: bool)
    requires from <= |was|
  {
    var len := PageLength(wanted, pageSize, |was| - from);
    Cleared(was, batch, from + len) && from + len < |was| ==>
      now == was && (if len == 0 then stop else !stop && to == from + len)
  }

  lemma CourseGoesOn<R(!new)>(engine: Engine, batch: int, pageSize: nat, driver: Driver, exactEnd: bool,
                              was: seq<TableRow<R>>, before: seq<TableRow<R>>, from: nat, rows: seq<TableRow<R>>,
                              to: nat, stop: bool, page: nat, most: int)
    requires pageSize > 0 && OnCourse(engine, batch, pageSize, driver, exactEnd, was, before, from, page, most)
    requires to <= |rows| <= |before| && Foreign(rows, batch) == Foreign(before, batch)
    requires PageTaken(engine, batch, driver(page), exactEnd, before, from, rows, to, stop, |was|)
    requires PagePassed(batch, pageSize, driver(page), before, from, rows, to, stop)
    ensures if stop then Arrived(engine, batch, pageSize, driver, exactEnd, was, rows, page, most)
            else OnCourse(engine, batch, pageSize, driver, exactEnd, was, rows, to, page + 1, most)
  {
    RankIsPositive(before, batch, from, |was|);
    forall k | k >= 0 && StopsShort(was, batch, driver, pageSize, k)
      ensures rows == was && (stop || StillShort(was, rows, driver, pageSize, k, page + 1, to))
    {
      assert StillShort(was, before, driver, pageSize, k, page, from);
      NextPosition(was, batch, driver, pageSize, page, k);
    }
  }

  ghost predicate Clean<R(!new)>(rows: seq<TableRow<R>>, batch: int) {
    forall r :: r in rows ==> r.batch != batch
  }

  /** Read `k` of the clean-up is the first without rows, the end of the table is not reached, and no
      row of the batch was met. */
  ghost predicate StopsShort<R(!new)>(rows: seq<TableRow<R>>, batch: int, driver: Driver, pageSize: nat, k: nat) {
    && driver(k) == 0 && (forall i :: 0 <= i < k ==> driver(i) > 0)
    && Position(driver, pageSize, k) < |rows| && Cleared(rows, batch, Position(driver, pageSize, k))
  }

  /** A scan that will stop short at read `k` has made `page` reads. */
  ghost predicate StillShort<R(!new)>(was: seq<TableRow<R>>, rows: seq<TableRow<R>>, driver: Driver, pageSize: nat,
                                      k: nat, page: nat, from: nat) {
    page <= k && rows == was && from == Position(driver, pageSize, page)
  }

  lemma NextPosition<R(!new)>(rows: seq<TableRow<R>>, batch: int, driver: Driver, pageSize: nat, page: nat, k: nat)
    requires StopsShort(rows, batch, driver, pageSize, k) && page <= k
    ensures Position(driver, pageSize, page) < |rows|
    ensures var from := Position(driver, pageSize, page); var len := PageLength(driver(page), pageSize, |rows| - from);
            && (page == k ==> len == 0)
            && from + len < |rows| && Cleared(rows, batch, from + len)
            && (page < k ==> (pageSize > 0 ==> len > 0) && from + len == Position(driver, pageSize, page + 1))
  {
    PositionGrows(driver, pageSize, page, k);
    if page < k {
      PositionGrows(driver, pageSize, page + 1, k);
    }
  }

  lemma {:induction false} PositionGrows(driver: Driver, pageSize: nat, n: nat, k: nat)
    requires n <= k
    ensures Position(driver, pageSize, n) <= Position(driver, pageSize, k)
    decreases k
  {
    if n < k {
      PositionGrows(driver, pageSize, n, k - 1);
    }
  }

  lemma {:induction false} FirstEmpty(driver: Driver, k: nat) returns (first: nat)
    requires driver(k) == 0
    ensures driver(first) == 0 && forall i :: 0 <= i < first ==> driver(i) > 0
  {
    first := k;
    if i :| 0 <= i < k && driver(i) == 0 {
      first := FirstEmpty(driver, i);
    }
  }

  lemma ShortScan<R(!new)>(driver: Driver, pageSize: nat, k: nat, batch: int, rec: R)
    returns (rows: seq<TableRow<R>>, first: nat)
    requires driver(k) == 0
    ensures InScanOrder(x => x, rows) && StopsShort(rows, batch, driver, pageSize, first) && !Clean(rows, batch)
  {
    first := FirstEmpty(driver, k);
    var n := Position(driver, pageSize, first);
    rows := seq(n + 1, i => TableRow(i, if i < n then batch + 1 else batch, rec));
    assert rows[n] in rows;
  }

  /** No table is left unclean by a clean-up that stops short exactly when the driver never returns a
      page without rows before the end. */
  lemma NothingMissedIff<R(!new)>(driver: Driver, pageSize: nat, rec: R)
    ensures NeverEmpty(driver) <==>
            forall place: Place, rows: seq<TableRow<R>>, batch, k ::
              InScanOrder(place, rows) && StopsShort(rows, batch, driver, pageSize, k) ==> Clean(rows, batch)
  {
    if k :| driver(k) == 0 {
      var rows, first := ShortScan(driver, pageSize, k, 0, rec);
    }
  }

  ghost predicate Kept(was: set<Entry>, now: set<Entry>, ids: set<int>) {
    now <= was && forall e :: e in was && e.rowid in ids ==> e in now
  }

  lemma OwnIdRow<R(!new)>(page: seq<TableRow<R>>, batch: int, ids: seq<int>) returns (r: TableRow<R>)
    requires OwnIds(page, batch, ids) && ids != []
    ensures r in page && r.batch == batch && r.rowid in IdSet(ids)
  {
    var i := ids[0];
    assert i in ids;
    r :| r in page && r.batch == batch && r.rowid == i;
  }

  /** The rowids of all other batches' rows. */
  ghost function ForeignIds<R(!new)>(rows: seq<TableRow<R>>, batch: int): set<int> {
    set r | r in Foreign(rows, batch) :: r.rowid
  }

  lemma {:induction false} ForeignIsForeign<R(!new)>(rows: seq<TableRow<R>>, batch: int)
    ensures forall r :: r in Foreign(rows, batch) <==> r in rows && r.batch != batch
  {
    if rows != [] {
      ForeignIsForeign(rows[1..], batch);
      assert rows == [rows[0]] + rows[1..];
    }
  }

  /** `now` is what a clean-up leaves of `was` that has come to row `to`. */
  ghost predicate Purged<R(!new)>(was: seq<TableRow<R>>, now: seq<TableRow<R>>, batch: int, to: nat) {
    && Foreign(now, batch) == Foreign(was, batch)
    && (if Cleared(was, batch, to) then now == was else |now| < |was|)
    && (to == |was| ==> Clean(now, batch))
  }

  lemma OwnPageIsGone<R(!new)>(rows: seq<TableRow<R>>, batch: int, page: seq<TableRow<R>>, ids: seq<int>)
    requires OwnIds(page, batch, ids) && ids != [] && forall r :: r in page ==> r in rows
    requires forall r :: r in rows && r.rowid in ids ==> r.batch == batch
    ensures Foreign(Without(rows, IdSet(ids)), batch) == Foreign(rows, batch)
    ensures |Without(rows, IdSet(ids))| < |rows|
  {
    WithoutKeepsForeign(rows, IdSet(ids), batch);
    var r := OwnIdRow(page, batch, ids);
    WithoutShrinks(rows, IdSet(ids), r);
  }

  lemma PageIsGone<R(!new)>(rows: seq<TableRow<R>>, batch: int, from: nat, page: seq<TableRow<R>>, ids: seq<int>)
    requires from + |page| <= |rows| && page == rows[from..from + |page|] && OwnIds(page, batch, ids)
    requires Cleared(rows, batch, from) && (ids != [] ==> forall r :: r in rows && r.rowid in ids ==> r.batch == batch)
    ensures Purged(rows, Without(rows, IdSet(ids)), batch, from + |page|)
    ensures ids == [] <==> Cleared(rows, batch, from + |page|)
    ensures ForeignIds(Without(rows, IdSet(ids)), batch) == ForeignIds(rows, batch)
  {
    if ids == [] {
      assert IdSet(ids) == {};
      WithoutNothing(rows);
      NothingOwn(rows, batch, from, page, ids);
    } else {
      OwnPageIsGone(rows, batch, page, ids);
      OwnRowIsMet(rows, batch, from, page, ids);
    }
    if from + |page| == |rows| {
      LastPageClears(rows, batch, from, page, ids);
    }
  }

  lemma ForeignEntriesKept<R(!new)>(rows: seq<TableRow<R>>, was: set<Entry>, now: set<Entry>, batch: int, ids: seq<int>)
    requires forall r :: r in rows && r.rowid in ids ==> r.batch == batch
    requires now <= was && forall e :: e in was && e !in now ==> e.rowid in ids
    ensures Kept(was, now, ForeignIds(rows, batch))
  {
    ForeignIsForeign(rows, batch);
  }

  class DataTable<R(==,!new)> {
    var rows: seq<TableRow<R>>   // in token order, the order of every scan
    var idx: set<Entry>
    const indexes: seq<string>
    const key: (string, R) -> string
    const place: Place

    constructor (indexes: seq<string>, key: (string, R) -> string, place: Place)
      ensures Valid() && rows == [] && this.indexes == indexes && this.key == key && this.place == place
    {
      rows, idx := [], {};
      this.indexes, this.key, this.place := indexes, key, place;
    }

    function EntryFor(name: string, r: TableRow<R>): Entry {
      Entry(name, key(name, r.rec), r.rowid)
    }

    /** `pairs` are the index entries of the batch's rows on the page. */
    ghost predicate OwnPairs(page: seq<TableRow<R>>, batch: int, pairs: seq<Entry>) {
      forall e :: e in pairs <==> exists r, n :: r in page && r.batch == batch && n in indexes && e == EntryFor(n, r)
    }

    /** Index entries never dangle, not even in the middle of a clean-up. */
    ghost predicate Sound(t: Tables<R>) {
      && InScanOrder(place, t.rows)
      && forall e :: e in t.idx ==> e.name in indexes && exists r :: r in t.rows && e == EntryFor(e.name, r)
    }

    ghost predicate Valid()
      reads this
    {
      Sound(Tables(rows, idx))
    }

    /** Others keep the tables sound and leave the rows of this batch alone. */
    ghost predicate Harmless(batch: int, others: Others<R>) {
      forall n, t :: Sound(t) ==> Sound(others(n, t)) && SameOwn(t.rows, others(n, t).rows, batch)
    }

    method OthersWrite(others: Others<R>, n: nat, batch: int, ghost pageState: PageState)
      requires Valid() && Harmless(batch, others) && Cleared(rows, batch, From(place, rows, pageState))
      modifies this`rows, this`idx
      ensures Valid() && SameOwn(old(rows), rows, batch) && Cleared(rows, batch, From(place, rows, pageState))
      ensures Tables(rows, idx) == others(n, old(Tables(rows, idx)))
    {
      var t := others(n, Tables(rows, idx));
      OthersKeepCleared(place, rows, t.rows, batch, pageState);
      rows, idx := t.rows, t.idx;
    }

    /** One page of the scan. The driver decides how many rows a page holds, `wanted`; `exactEnd`
        tells whether it signals the end of the table together with the last rows or with one more,
        empty, page. */
    method SelectPage(pageSize: nat, pageState: PageState, wanted: nat, exactEnd: bool)
      returns (page: seq<TableRow<R>>, next: PageState)
      requires Valid()
      ensures var from := From(place, rows, pageState); var to := from + |page|;
              && to <= |rows| && page == rows[from..to]
              && |page| == PageLength(wanted, pageSize, |rows| - from)
              && GoesTo(rows, to, exactEnd || page == [], next)
    {
      var from := From(place, rows, pageState);
      var rest := |rows| - from;
      var to := from + PageLength(wanted, pageSize, rest);
      page := rows[from..to];
      if to == |rows| && (exactEnd || page == []) {
        next := Start;
      } else {
        next := StateAt(place, rows, to);
        StateIsAt(place, rows, to);
      }
    }

    /** The page state after a page that ends at row `to`. */
    ghost predicate GoesTo(t: seq<TableRow<R>>, to: nat, endIsTold: bool, next: PageState) {
      if to == |t| && endIsTold then next == Start else next.After? && From(place, t, next) == to
    }

    method DeleteEntries(pairs: seq<Entry>)
      requires Valid()
      modifies this`idx
      ensures Valid() && idx == old(idx) - (set e | e in pairs)
    {
      for k := 0 to |pairs|
        invariant Valid() && idx == old(idx) - (set e | e in pairs[..k])
      {
        idx := idx - {pairs[k]};
      }
      assert pairs[..|pairs|] == pairs;
    }

    /** One query on Cassandra; unlogged batches of at most 30 commands on Amazon Keyspaces. */
    method DeleteRows(engine: Engine, ids: seq<int>)
      requires Valid()
      requires forall e :: e in idx ==> e.rowid !in ids
      modifies this`rows
      ensures Valid() && rows == Without(old(rows), IdSet(ids))
    {
      if engine == Cassandra {
        rows := Without(rows, IdSet(ids));
        WithoutOrdered(place, old(rows), IdSet(ids));
        return;
      }
      var chunk: set<int> := {};
      ghost var sent: set<int> := {};
      WithoutNothing(rows);
      for k := 0 to |ids|
        invariant sent + chunk == IdSet(ids[..k])
        invariant k == |ids| ==> chunk == {}
        invariant rows == Without(old(rows), sent)
      {
        assert IdSet(ids[..k + 1]) == IdSet(ids[..k]) + {ids[k]};
        chunk := chunk + {ids[k]};
        if (k + 1) % MAX_KEYSPACES_BATCH_LEN == 0 || k == |ids| - 1 {
          WithoutUnion(old(rows), sent, chunk);
          rows := Without(rows, chunk);
          sent := sent + chunk;
          chunk := {};
        }
      }
      assert ids[..|ids|] == ids;
      assert sent == IdSet(ids);
      WithoutOrdered(place, old(rows), sent);
    }

    /** The rowids of the batch's rows on a page, and the index entries of those rows. */
    method Harvest(page: seq<TableRow<R>>, batch: int) returns (ids: seq<int>, pairs: seq<Entry>)
      ensures OwnIds(page, batch, ids)
      ensures OwnPairs(page, batch, pairs)
    {
      ids, pairs := [], [];
      for k := 0 to |page|
        invariant forall i :: i in ids <==> exists r :: r in page[..k] && r.batch == batch && r.rowid == i
        invariant OwnPairs(page[..k], batch, pairs)
      {
        assert page[..k + 1] == page[..k] + [page[k]];
        if page[k].batch == batch {
          ids := ids + [page[k].rowid];
          var more := EntriesOf(page[k]);
          pairs := pairs + more;
        }
      }
      assert page[..|page|] == page;
    }

    method EntriesOf(r: TableRow<R>) returns (pairs: seq<Entry>)
      ensures forall e :: e in pairs <==> exists n :: n in indexes && e == EntryFor(n, r)
    {
      pairs := [];
      for k := 0 to |indexes|
        invariant forall e :: e in pairs <==> exists n :: n in indexes[..k] && e == EntryFor(n, r)
      {
        assert indexes[..k + 1] == indexes[..k] + [indexes[k]];
        pairs := pairs + [EntryFor(indexes[k], r)];
      }
      assert indexes[..|indexes|] == indexes;
    }

    /** Deletes the batch's rows of one page, index entries first. */
    method DeletePage(engine: Engine, batch: int, page: seq<TableRow<R>>, ids: seq<int>, pairs: seq<Entry>)
      requires Valid() && forall r :: r in page ==> r in rows
      requires OwnIds(page, batch, ids) && OwnPairs(page, batch, pairs)
      modifies this`rows, this`idx
      ensures Valid() && rows == Without(old(rows), IdSet(ids))
      ensures forall r :: r in old(rows) && r.rowid in ids ==> r.batch == batch
      ensures idx <= old(idx) && forall e :: e in old(idx) && e !in idx ==> e.rowid in ids
    {
      OwnRowsOnly(Tables(rows, idx), batch, page, ids);
      DeleteEntries(pairs);
      forall e | e in idx ensures e.rowid !in ids {
        var r :| r in rows && e == EntryFor(e.name, r);
        assert r.rowid in ids ==> e in pairs;
      }
      DeleteRows(engine, ids);
    }

    /** Wherever a worker dies on a page, no entry dangles and nothing of the other batches is lost:
        `gone` are the entries deleted so far, `lost` the rows. */
    lemma DyingOnPage(t: Tables<R>, batch: int, page: seq<TableRow<R>>, ids: seq<int>, pairs: seq<Entry>,
                      gone: set<Entry>, lost: set<int>)
      requires Sound(t) && (forall r :: r in page ==> r in t.rows)
      requires OwnIds(page, batch, ids) && OwnPairs(page, batch, pairs)
      requires gone <= (set e | e in pairs) && lost <= IdSet(ids) && (lost != {} ==> gone == set e | e in pairs)
      ensures Sound(Tables(Without(t.rows, lost), t.idx - gone))
      ensures Foreign(Without(t.rows, lost), batch) == Foreign(t.rows, batch)
      ensures Kept(t.idx, t.idx - gone, ForeignIds(t.rows, batch))
    {
      OwnRowsOnly(t, batch, page, ids);
      WithoutOrdered(place, t.rows, lost);
      WithoutKeepsForeign(t.rows, lost, batch);
      forall e | e in t.idx && e !in gone
        ensures exists r :: r in Without(t.rows, lost) && e == EntryFor(e.name, r)
      {
        var r :| r in t.rows && e == EntryFor(e.name, r);
        assert r.rowid in lost ==> r in page && r.batch == batch && e in pairs;
      }
      forall e | e in gone ensures e.rowid in ids {
        var r, n :| r in page && r.batch == batch && n in indexes && e == EntryFor(n, r);
      }
      ForeignIsForeign(t.rows, batch);
    }

    lemma OwnRowsOnly(t: Tables<R>, batch: int, page: seq<TableRow<R>>, ids: seq<int>)
      requires Sound(t) && (forall r :: r in page ==> r in t.rows) && OwnIds(page, batch, ids)
      ensures forall r :: r in t.rows && r.rowid in ids ==> r in page && r.batch == batch
    {
      forall r | r in t.rows && r.rowid in ids ensures r in page && r.batch == batch {
        var q :| q in page && q.batch == batch && q.rowid == r.rowid;
        SameId(place, t.rows, r, q);
      }
    }

    /** Deletes nothing if the page has no rows of the batch. */
    method DeleteOwn(engine: Engine, batch: int, ghost from: nat, page: seq<TableRow<R>>, ids: seq<int>,
                     pairs: seq<Entry>)
      requires Valid() && OwnIds(page, batch, ids) && OwnPairs(page, batch, pairs)
      requires from + |page| <= |rows| && page == rows[from..from + |page|] && Cleared(rows, batch, from)
      modifies this`rows, this`idx
      ensures Valid() && (forall r :: r in rows ==> r in old(rows))
      ensures Purged(old(rows), rows, batch, from + |page|)
      ensures ids == [] <==> Cleared(old(rows), batch, from + |page|)
      ensures Kept(old(idx), idx, ForeignIds(rows, batch))
    {
      if |ids| > 0 {
        DeletePage(engine, batch, page, ids, pairs);
        ForeignEntriesKept(old(rows), old(idx), idx, batch, ids);
      } else {
        WithoutNothing(rows);
        assert IdSet(ids) == {};
      }
      PageIsGone(old(rows), batch, from, page, ids);
    }

    /** One page is read, and the batch's rows on it are deleted. */
    method DeleteFromPage(engine: Engine, batch: int, pageSize: nat, wanted: nat, exactEnd: bool, pageState: PageState)
      returns (rowCount: nat, next: PageState, deleted: bool)
      requires Valid() && Cleared(rows, batch, From(place, rows, pageState))
      modifies this`rows, this`idx
      ensures Valid() && Kept(old(idx), idx, ForeignIds(rows, batch)) && (forall r :: r in rows ==> r in old(rows))
      ensures var from := old(From(place, rows, pageState));
              && rowCount == PageLength(wanted, pageSize, old(|rows|) - from)
              && Purged(old(rows), rows, batch, from + rowCount)
              && (deleted <==> !Cleared(old(rows), batch, from + rowCount))
              && GoesTo(old(rows), from + rowCount, exactEnd || rowCount == 0, next)
    {
      var page;
      page, next := SelectPage(pageSize, pageState, wanted, exactEnd);
      rowCount := |page|;
      var ids, pairs := Harvest(page, batch);
      deleted := |ids| > 0;
      DeleteOwn(engine, batch, From(place, rows, pageState), page, ids, pairs);
    }

    /** The loop body; `stop` tells that the loop is left. */
    method CleanPage(engine: Engine, batch: int, pageSize: nat, wanted: nat, exactEnd: bool, pageState: PageState,
                     ghost width: nat)
      returns (stop: bool, next: PageState)
      requires Valid() && pageSize > 0 && Cleared(rows, batch, From(place, rows, pageState))
      modifies this`rows, this`idx
      ensures Valid() && Kept(old(idx), idx, ForeignIds(rows, batch)) && (forall r :: r in rows ==> r in old(rows))
      ensures |rows| <= old(|rows|) && Foreign(rows, batch) == old(Foreign(rows, batch))
      ensures stop && wanted > 0 ==> Clean(rows, batch)
      ensures !stop ==> Cleared(rows, batch, From(place, rows, next))
      ensures var from := old(From(place, rows, pageState));
              old(InTable(engine, exactEnd, rows, from)) && old(|rows|) <= width ==>
                PageTaken(engine, batch, wanted, exactEnd, old(rows), from, rows, From(place, rows, next), stop, width)
      ensures var from := old(From(place, rows, pageState));
              PagePassed(batch, pageSize, wanted, old(rows), from, rows, From(place, rows, next), stop)
    {
      var rowCount, deleted;
      ghost var from := From(place, rows, pageState);
      rowCount, next, deleted := DeleteFromPage(engine, batch, pageSize, wanted, exactEnd, pageState);
      ForeignCount(rows, batch);
      stop := rowCount == 0 || (engine == Keyspaces && next == Start);
      if stop {
        NothingForeignIff(rows, batch);
        return;
      }
      if deleted {
        next := Start;
        if old(|rows|) <= width {
          RankAfterDelete(old(rows), rows, batch, from, width);
        }
      } else {
        RankAfterPage(rows, batch, from, From(place, rows, next), width);
        NothingForeignIff(rows, batch);
      }
    }

    /** Others write, and a page is cleaned. */
    method ReadOn(engine: Engine, batch: int, pageSize: nat, driver: Driver, exactEnd: bool, page: nat,
                  others: Others<R>, pageState: PageState, ghost start: Tables<R>, ghost was: seq<TableRow<R>>,
                  ghost most: int)
      returns (stop: bool, next: PageState)
      requires Valid() && pageSize > 0 && Harmless(batch, others) && Cleared(rows, batch, From(place, rows, pageState))
      requires KeptForOthers(others, batch, start, Tables(rows, idx))
      requires Quiet(others) ==>
                 OnCourse(engine, batch, pageSize, driver, exactEnd, was, rows, From(place, rows, pageState), page,
                          most)
      modifies this`rows, this`idx
      ensures Valid()
      ensures stop && driver(page) > 0 ==> Clean(rows, batch)
      ensures !stop ==> Cleared(rows, batch, From(place, rows, next))
      ensures KeptForOthers(others, batch, start, Tables(rows, idx))
      ensures Quiet(others) ==> Kept(old(idx), idx, ForeignIds(rows, batch))
      ensures Quiet(others) ==> Foreign(rows, batch) == Foreign(was, batch)
      ensures Quiet(others) && stop ==>
                Arrived(engine, batch, pageSize, driver, exactEnd, was, rows, page, most)
      ensures Quiet(others) && !stop ==>
                OnCourse(engine, batch, pageSize, driver, exactEnd, was, rows, From(place, rows, next), page + 1, most)
    {
      OthersKeepForOthers(others, batch, start, page, Tables(rows, idx));
      OthersWrite(others, page, batch, pageState);
      ghost var before, idxBefore, from := rows, idx, From(place, rows, pageState);
      stop, next := CleanPage(engine, batch, pageSize, driver(page), exactEnd, pageState, |was|);
      PageKeepsForOthers(others, batch, start, Tables(before, idxBefore), Tables(rows, idx));
      if Quiet(others) {
        CourseGoesOn(engine, batch, pageSize, driver, exactEnd, was, before, from, rows, From(place, rows, next), stop,
                     page, most);
      }
    }

    /** `pages` is the number of page reads the worker lives to see; `done` says that the source's
        function returned without an error. Other batches write before every page is read. */
    method DeleteDataAndUniqueIndexesByBatchIdx(engine: Engine, batch: int, pageSize: nat, driver: Driver,
                                                exactEnd: bool, pages: nat, others: Others<R>)
      returns (done: bool)
      requires Valid() && pageSize > 0 && Harmless(batch, others)
      modifies this`rows, this`idx
      // whatever happens: the other batches keep their rows and entries, and no entry dangles
      ensures Valid() && KeptForOthers(others, batch, old(Tables(rows, idx)), Tables(rows, idx))
      // a return means a complete clean-up if the driver returns no page without rows before the end
      ensures done && NeverEmpty(driver) ==> Clean(rows, batch)
      // without disturbance the other batches keep exactly their rows, in their order
      ensures Quiet(others) ==> Foreign(rows, batch) == old(Foreign(rows, batch))
      ensures Quiet(others) ==> Kept(old(idx), idx, ForeignIds(rows, batch))
      // a return means nothing if a page without rows comes before the batch's rows
      ensures Quiet(others) ==>
                forall k :: 0 <= k < pages && StopsShort(old(rows), batch, driver, pageSize, k) ==>
                  done && rows == old(rows)
      // and the loop returns, given the time, exactly when it can finish
      ensures Quiet(others) && old(CanFinish(engine, rows, batch, exactEnd)) ==>
                pages >= old(Rank(rows, batch, 0, |rows|)) ==> done
      ensures Quiet(others) && NeverEmpty(driver) && !old(CanFinish(engine, rows, batch, exactEnd)) ==> !done
    {
      var pageState := Start;
      ghost var start, was, most := Tables(rows, idx), rows, Rank(rows, batch, 0, |rows|);
      var page := 0;
      while page < pages
        invariant Valid() && 0 <= page <= pages && Cleared(rows, batch, From(place, rows, pageState))
        invariant KeptForOthers(others, batch, start, Tables(rows, idx))
        invariant Quiet(others) ==> Kept(old(idx), idx, ForeignIds(rows, batch))
        invariant Quiet(others) ==>
                    OnCourse(engine, batch, pageSize, driver, exactEnd, was, rows, From(place, rows, pageState), page,
                             most)
      {
        var stop, next := ReadOn(engine, batch, pageSize, driver, exactEnd, page, others, pageState, start, was, most);
        if stop {
          return true;
        }
        pageState := next;
        page := page + 1;
      }
      RankIsPositive(rows, batch, From(place, rows, pageState), |was|);
      done := false;
    }
  }
}
