/** The effect of batches on the data and index tables, with workers that may crash between any
    two database writes. All batches of one node run side by side, at most one attempt per batch
    at a time. Records are written by several inserter threads in any order, data row first. */
module BatchProtocol {
  import opened BatchHistory
  import R = Reachability

  datatype DataRow<R> = DataRow(batch: int, rec: R)

  datatype Entry = Entry(name: string, key: string, rowid: int)

  /** The data table by rowid, and the entries of all index tables. */
  datatype Tables<R> = Tables(data: map<int, DataRow<R>>, idx: set<Entry>)

  /** `want` lists the records one complete execution of a batch produces; `indexes` tells for
      every index of the table whether it is unique; `key` is the key builder. `rerun` is the node's
      policy for abandoned batches; `short` tells that the driver may return a page without rows before
      the end of the table, so that a clean-up may return with rows of the batch left. */
  datatype Config<!R> = Config(
    want: map<int, seq<R>>,
    indexes: map<string, bool>,
    key: (string, R) -> string,
    rerun: bool,
    short: bool)

  /** `placed` maps the records written so far to their rowids; `indexed` are the acknowledged
      index writes, by record and index. */
  datatype Pc =
    | Idle
    | Cleaning
    | Ready
    | Working(placed: map<nat, int>, indexed: set<(nat, string)>)

  /** The history rows of a batch and its worker; `effect` remembers, for the statements below, the
      rowids of a successful attempt. */
  datatype Batch = Batch(hist: set<Row>, pc: Pc, effect: map<nat, int>)

  datatype State<R> = State(clock: int, db: Tables<R>, batches: map<int, Batch>)

  datatype Action =
    | Begin(st: Status, ts: int)
    | FailAbandoned(ts: int)
    | WriteStop
    | DeleteEntry(e: Entry)
    | DeleteRow(r: int)
    | CleanupDone
    | CleanupFails
    | NoGo
    | StartBatch
    | InsertRow(i: nat, r: int)
    | InsertEntry(i: nat, name: string)
    | Succeed
    | FailWork
    | Crash

  ghost predicate Init<R(!new)>(c: Config<R>, s: State<R>) {
    && s.clock == 0 && s.db == Tables(map[], {}) && s.batches.Keys == c.want.Keys
    && forall b :: b in s.batches ==> s.batches[b] == Batch({}, Idle, map[])
  }

  predicate Own<R>(db: Tables<R>, b: int, r: int) {
    r in db.data && db.data[r].batch == b
  }

  /** The index entry a record with this rowid needs. */
  function EntryFor<R>(c: Config<R>, name: string, rec: R, r: int): Entry {
    Entry(name, c.key(name, rec), r)
  }

  /** What a worker of batch `b` may do next. */
  ghost predicate Enabled<R(!new)>(c: Config<R>, db: Tables<R>, b: int, x: Batch, a: Action)
    requires b in c.want
  {
    match a
    case Begin(st, ts) => x.pc == Idle && IsLast(x.hist, st, ts) && (st == None || (st == Start && c.rerun))
    case FailAbandoned(ts) => x.pc == Idle && IsLast(x.hist, Start, ts) && !c.rerun
    case WriteStop => x.pc == Idle
    case DeleteEntry(e) => x.pc == Cleaning && MayDeleteEntry(c, db, b, e)
    case DeleteRow(r) => x.pc == Cleaning && MayDeleteRow(c, db, b, r)
    case CleanupDone => x.pc == Cleaning && (c.short || NoRows(db, b))
    case CleanupFails => x.pc == Cleaning
    case NoGo => x.pc == Ready
    case StartBatch => x.pc == Ready
    case InsertRow(i, r) => x.pc.Working? && i < |c.want[b]| && i !in x.pc.placed && r !in db.data
    case InsertEntry(i, n) => x.pc.Working? && MayInsertEntry(c, db, b, x.pc, i, n)
    case Succeed => x.pc.Working? && AllWritten(c, b, x.pc)
    case FailWork => x.pc.Working?
    case Crash => true
  }

  ghost predicate NoRows<R(!new)>(db: Tables<R>, b: int) {
    forall r :: !Own(db, b, r)
  }

  ghost predicate MayDeleteEntry<R(!new)>(c: Config<R>, db: Tables<R>, b: int, e: Entry) {
    Own(db, b, e.rowid) && e.name in c.indexes && e == EntryFor(c, e.name, db.data[e.rowid].rec, e.rowid)
  }

  /** A row goes after its entries. */
  ghost predicate MayDeleteRow<R(!new)>(c: Config<R>, db: Tables<R>, b: int, r: int) {
    Own(db, b, r) && forall n :: n in c.indexes ==> EntryFor(c, n, db.data[r].rec, r) !in db.idx
  }

  /** Insertion into a unique index is conditional: it is not applied when the key is there. */
  ghost predicate MayInsertEntry<R(!new)>(c: Config<R>, db: Tables<R>, b: int, pc: Pc, i: nat, n: string)
    requires pc.Working? && b in c.want
  {
    && i in pc.placed && i < |c.want[b]| && n in c.indexes
    && (c.indexes[n] ==> KeyIsFree(db, n, c.key(n, c.want[b][i])))
  }

  ghost predicate KeyIsFree<R(!new)>(db: Tables<R>, name: string, key: string) {
    forall e :: e in db.idx && e.name == name ==> e.key != key
  }

  /** The drainer has seen every record handled without an error. */
  ghost predicate AllWritten<R(!new)>(c: Config<R>, b: int, pc: Pc)
    requires pc.Working? && b in c.want
  {
    forall i: nat :: i < |c.want[b]| ==> i in pc.placed && forall n :: n in c.indexes ==> (i, n) in pc.indexed
  }

  function Written(a: Action): Status {
    match a
    case FailAbandoned(_) => Fail
    case WriteStop => StopReceived
    case CleanupFails => Fail
    case NoGo => Fail
    case StartBatch => Start
    case Succeed => Success
    case FailWork => Fail
    case _ => None
  }

  function NextPc(pc: Pc, a: Action): Pc {
    match a
    case Begin(st, ts) => if st == None then Ready else Cleaning
    case CleanupDone => Ready
    case StartBatch => Working(map[], {})
    case DeleteEntry(_) => pc
    case DeleteRow(_) => pc
    case InsertRow(i, r) => if pc.Working? then pc.(placed := pc.placed[i := r]) else pc
    case InsertEntry(i, n) => if pc.Working? then pc.(indexed := pc.indexed + {(i, n)}) else pc
    case _ => Idle
  }

  function NextDb<R>(c: Config<R>, db: Tables<R>, b: int, pc: Pc, a: Action): Tables<R>
    requires b in c.want
  {
    match a
    case DeleteEntry(e) => db.(idx := db.idx - {e})
    case DeleteRow(r) => db.(data := db.data - {r})
    case InsertRow(i, r) => if i < |c.want[b]| then db.(data := db.data[r := DataRow(b, c.want[b][i])]) else db
    case InsertEntry(i, n) =>
      if pc.Working? && i in pc.placed && i < |c.want[b]| then
        db.(idx := db.idx + {EntryFor(c, n, c.want[b][i], pc.placed[i])})
      else db
    case _ => db
  }

  function NextHist(hist: set<Row>, row: Row): set<Row> {
    if row.status == None then hist else PutRow(hist, row)
  }

  function NextBatch(x: Batch, row: Row, a: Action): Batch {
    Batch(NextHist(x.hist, row), NextPc(x.pc, a), if a == Succeed && x.pc.Working? then x.pc.placed else x.effect)
  }

  function RowOf<R>(c: Config<R>, clock: int, b: int, a: Action): Row {
    Row(clock, b, |c.want|, Written(a))
  }

  function Apply<R>(c: Config<R>, s: State<R>, b: int, a: Action): State<R>
    requires b in c.want && b in s.batches
  {
    var x := s.batches[b];
    State(s.clock, NextDb(c, s.db, b, x.pc, a), s.batches[b := NextBatch(x, RowOf(c, s.clock, b, a), a)])
  }

  ghost predicate Takes<R(!new)>(c: Config<R>, s: State<R>, b: int, a: Action) {
    b in c.want && b in s.batches && Enabled(c, s.db, b, s.batches[b], a)
  }

  /** The clock has millisecond resolution: any number of steps may share a timestamp. */
  ghost predicate Next<R(!new)>(c: Config<R>, s: State<R>, s': State<R>) {
    || (exists b, a :: Takes(c, s, b, a) && s' == Apply(c, s, b, a))
    || s' == s.(clock := s.clock + 1)
  }

  ghost function Starts<R(!new)>(c: Config<R>): State<R> -> bool {
    s => Init(c, s)
  }

  ghost function Steps<R(!new)>(c: Config<R>): (State<R>, State<R>) -> bool {
    (s, s') => Next(c, s, s')
  }

  ghost predicate Reachable<R(!new)>(c: Config<R>, s: State<R>) {
    s in R.States(Starts(c), Steps(c))
  }

  // ---------------------------------------------------------------- what every step keeps

  predicate PointsToRow<R>(c: Config<R>, data: map<int, DataRow<R>>, e: Entry) {
    e.name in c.indexes && e.rowid in data && e == EntryFor(c, e.name, data[e.rowid].rec, e.rowid)
  }

  /** No index entry dangles: it points to a live row whose key it carries. */
  ghost predicate NoDangling<R(!new)>(c: Config<R>, db: Tables<R>) {
    forall e :: e in db.idx ==> PointsToRow(c, db.data, e)
  }

  ghost predicate KeysUnique<R(!new)>(c: Config<R>, db: Tables<R>) {
    forall e, f :: e in db.idx && f in db.idx && e.name == f.name && e.key == f.key ==>
      e.name in c.indexes && c.indexes[e.name] ==> e == f
  }

  /** No clean-up returns with rows of its batch left. */
  predicate Tidy<R>(c: Config<R>) {
    !c.rerun || !c.short
  }

  /** Record `i` of the batch sits at rowid `placed[i]`. */
  ghost predicate Holds<R(!new)>(c: Config<R>, db: Tables<R>, b: int, placed: map<nat, int>)
    requires b in c.want
  {
    && (forall i :: i in placed ==>
          i < |c.want[b]| && placed[i] in db.data && db.data[placed[i]] == DataRow(b, c.want[b][i]))
    && (forall i, j :: i in placed && j in placed && placed[i] == placed[j] ==> i == j)
  }

  /** Nothing else belongs to the batch. */
  ghost predicate NothingElse<R(!new)>(db: Tables<R>, b: int, placed: map<nat, int>) {
    forall r :: Own(db, b, r) ==> r in placed.Values
  }

  /** The rows of a complete execution are there, and each has its entry in every index. */
  ghost predicate HoldsAll<R(!new)>(c: Config<R>, db: Tables<R>, b: int, placed: map<nat, int>)
    requires b in c.want
  {
    && Holds(c, db, b, placed)
    && (forall i: nat :: i < |c.want[b]| ==> i in placed)
    && (forall i, n :: i in placed && n in c.indexes && i < |c.want[b]| ==>
          EntryFor(c, n, c.want[b][i], placed[i]) in db.idx)
  }

  /** Exactly one complete execution: the batch's rows are in one-to-one correspondence with the
      records it should produce, and each has its entry in every index. */
  ghost predicate Complete<R(!new)>(c: Config<R>, db: Tables<R>, b: int, placed: map<nat, int>)
    requires b in c.want
  {
    HoldsAll(c, db, b, placed) && NothingElse(db, b, placed)
  }

  ghost predicate HistOk(clock: int, hist: set<Row>, b: int) {
    && (forall r :: r in hist ==> r.idx == b && r.status != None && 0 <= r.ts <= clock)
    && (forall r, t :: r in hist && t in hist && r.status == Start && t.status.Terminal() ==> r.ts <= t.ts)
  }

  ghost predicate Started(hist: set<Row>) {
    exists r :: r in hist && r.status == Start
  }

  ghost predicate Succeeded(hist: set<Row>) {
    exists r :: r in hist && r.status == Success
  }

  /** Nobody works on a batch that has ended, and work begins with a start. */
  ghost predicate PhaseOk(clock: int, b: int, hist: set<Row>, pc: Pc) {
    && HistOk(clock, hist, b)
    && (pc != Idle ==> !Finished(hist, b))
    && (pc.Working? ==> Started(hist))
  }

  /** Without a start the batch has no rows, nor between a clean-up that is complete and the next start. */
  ghost predicate EmptyOk<R(!new)>(c: Config<R>, db: Tables<R>, b: int, hist: set<Row>, pc: Pc)
    requires b in c.want
  {
    && (pc == Cleaning ==> c.rerun)
    && (c.want[b] == [] || !Started(hist) || (pc == Ready && Tidy(c)) ==> NoRows(db, b))
  }

  /** A worker knows the rows it has placed and the entries it has written. */
  ghost predicate WorkOk<R(!new)>(c: Config<R>, db: Tables<R>, b: int, pc: Pc)
    requires b in c.want
  {
    pc.Working? ==>
      && Holds(c, db, b, pc.placed) && (Tidy(c) ==> NothingElse(db, b, pc.placed))
      && forall i, n :: (i, n) in pc.indexed ==> IndexedOk(c, db, b, pc, i, n)
  }

  ghost predicate IndexedOk<R(!new)>(c: Config<R>, db: Tables<R>, b: int, pc: Pc, i: nat, n: string)
    requires b in c.want && pc.Working?
  {
    i in pc.placed && i < |c.want[b]| && EntryFor(c, n, c.want[b][i], pc.placed[i]) in db.idx
  }

  ghost predicate SuccessOk<R(!new)>(c: Config<R>, db: Tables<R>, b: int, hist: set<Row>, effect: map<nat, int>)
    requires b in c.want
  {
    Succeeded(hist) ==> HoldsAll(c, db, b, effect) && (Tidy(c) ==> NothingElse(db, b, effect))
  }

  ghost predicate BatchOk<R(!new)>(c: Config<R>, clock: int, db: Tables<R>, b: int, x: Batch)
    requires b in c.want
  {
    && PhaseOk(clock, b, x.hist, x.pc) && EmptyOk(c, db, b, x.hist, x.pc)
    && WorkOk(c, db, b, x.pc) && SuccessOk(c, db, b, x.hist, x.effect)
  }

  ghost predicate BatchIsOk<R(!new)>(c: Config<R>, s: State<R>, b: int)
    requires b in c.want && b in s.batches
  {
    BatchOk(c, s.clock, s.db, b, s.batches[b])
  }

  ghost predicate Inv<R(!new)>(c: Config<R>, s: State<R>) {
    && s.batches.Keys == c.want.Keys && 0 <= s.clock && NoDangling(c, s.db) && KeysUnique(c, s.db)
    && forall b :: b in c.want ==> BatchIsOk(c, s, b)
  }

  lemma InitInv<R(!new)>(c: Config<R>, s: State<R>)
    requires Init(c, s)
    ensures Inv(c, s)
  {
    forall b | b in c.want ensures BatchIsOk(c, s, b) {
      assert s.batches[b] == Batch({}, Idle, map[]);
    }
  }

  // ---------------------------------------------------------------- other batches

  /** Two states of the tables agree on the rows of a batch and on their index entries. */
  ghost predicate SameOwn<R(!new)>(db: Tables<R>, db': Tables<R>, b: int) {
    && (forall r :: Own(db, b, r) <==> Own(db', b, r))
    && (forall r :: Own(db, b, r) && r in db'.data ==> db'.data[r] == db.data[r])
    && (forall e: Entry :: Own(db, b, e.rowid) ==> (e in db.idx <==> e in db'.idx))
  }

  /** A step of one batch changes no row and no index entry of another batch. */
  lemma Frame<R(!new)>(c: Config<R>, db: Tables<R>, t: int, x: Batch, a: Action, b: int)
    requires t in c.want && Enabled(c, db, t, x, a) && WorkOk(c, db, t, x.pc) && b != t
    ensures SameOwn(db, NextDb(c, db, t, x.pc, a), b)
  {
    if a.InsertEntry? {
      assert Own(db, t, x.pc.placed[a.i]);
    }
  }

  lemma PlacedStays<R(!new)>(c: Config<R>, db: Tables<R>, db': Tables<R>, b: int, placed: map<nat, int>)
    requires b in c.want && Holds(c, db, b, placed) && SameOwn(db, db', b)
    ensures Holds(c, db', b, placed)
    ensures HoldsAll(c, db, b, placed) ==> HoldsAll(c, db', b, placed)
    ensures NothingElse(db, b, placed) ==> NothingElse(db', b, placed)
  {
    forall i | i in placed ensures Own(db, b, placed[i]) {
    }
  }

  lemma WorkOkStays<R(!new)>(c: Config<R>, db: Tables<R>, db': Tables<R>, b: int, pc: Pc)
    requires b in c.want && WorkOk(c, db, b, pc) && SameOwn(db, db', b)
    ensures WorkOk(c, db', b, pc)
  {
    if pc.Working? {
      PlacedStays(c, db, db', b, pc.placed);
      forall i, n | (i, n) in pc.indexed ensures IndexedOk(c, db', b, pc, i, n) {
        assert IndexedOk(c, db, b, pc, i, n);
        assert Own(db, b, pc.placed[i]);
      }
    }
  }

  lemma BatchOkStays<R(!new)>(c: Config<R>, clock: int, clock': int, db: Tables<R>, db': Tables<R>, b: int, x: Batch)
    requires b in c.want && BatchOk(c, clock, db, b, x) && SameOwn(db, db', b) && clock <= clock'
    ensures BatchOk(c, clock', db', b, x)
  {
    WorkOkStays(c, db, db', b, x.pc);
    if Succeeded(x.hist) {
      PlacedStays(c, db, db', b, x.effect);
    }
  }

  // ---------------------------------------------------------------- the tables

  lemma EntryStays<R(!new)>(c: Config<R>, db: Tables<R>, t: int, x: Batch, a: Action, e: Entry)
    requires t in c.want && NoDangling(c, db) && Enabled(c, db, t, x, a) && e in db.idx
             && e in NextDb(c, db, t, x.pc, a).idx
    ensures PointsToRow(c, NextDb(c, db, t, x.pc, a).data, e)
  {
    assert PointsToRow(c, db.data, e);
  }

  lemma StepNoDangling<R(!new)>(c: Config<R>, db: Tables<R>, t: int, x: Batch, a: Action)
    requires t in c.want && NoDangling(c, db) && Enabled(c, db, t, x, a) && WorkOk(c, db, t, x.pc)
    ensures NoDangling(c, NextDb(c, db, t, x.pc, a))
  {
    forall e | e in NextDb(c, db, t, x.pc, a).idx ensures PointsToRow(c, NextDb(c, db, t, x.pc, a).data, e) {
      if e in db.idx {
        EntryStays(c, db, t, x, a, e);
      }
    }
  }

  lemma StepKeysUnique<R(!new)>(c: Config<R>, db: Tables<R>, t: int, x: Batch, a: Action)
    requires t in c.want && KeysUnique(c, db) && Enabled(c, db, t, x, a)
    ensures KeysUnique(c, NextDb(c, db, t, x.pc, a))
  {
  }

  // ---------------------------------------------------------------- the batch itself

  lemma BeginIsUnfinished(clock: int, hist: set<Row>, b: int, st: Status, ts: int)
    requires HistOk(clock, hist, b) && IsLast(hist, st, ts)
    ensures st.Terminal() <==> Finished(hist, b)
    ensures st == None <==> hist == {}
  {
    LastStatusTerminalIff(hist, st, ts);
  }

  /** Once a terminal status of a batch is recorded, no attempt writes to the tables any more. */
  lemma FinishedIsFrozen<R(!new)>(c: Config<R>, clock: int, db: Tables<R>, b: int, x: Batch, a: Action)
    requires b in c.want && Enabled(c, db, b, x, a) && PhaseOk(clock, b, x.hist, x.pc) && Finished(x.hist, b)
    ensures NextDb(c, db, b, x.pc, a) == db && NextPc(x.pc, a) == Idle
  {
    assert x.pc == Idle;
    if a.Begin? {
      BeginIsUnfinished(clock, x.hist, b, a.st, a.ts);
    }
  }

  lemma PutRowHist(clock: int, hist: set<Row>, row: Row)
    requires 0 <= clock && HistOk(clock, hist, row.idx) && row.status != None && row.ts == clock
    requires row.status == Start ==> !Finished(hist, row.idx)
    ensures HistOk(clock, PutRow(hist, row), row.idx)
    ensures Started(PutRow(hist, row)) <==> Started(hist) || row.status == Start
  {
    assert row in PutRow(hist, row);
    if r :| r in hist && r.status == Start {
      assert r in PutRow(hist, row) || row.status == Start;
    }
  }

  lemma HistFacts(clock: int, hist: set<Row>, row: Row)
    requires 0 <= clock && HistOk(clock, hist, row.idx) && row.ts == clock
    requires row.status == Start ==> !Finished(hist, row.idx)
    ensures HistOk(clock, NextHist(hist, row), row.idx)
    ensures Started(NextHist(hist, row)) <==> Started(hist) || row.status == Start
    ensures Finished(NextHist(hist, row), row.idx) <==> Finished(hist, row.idx) || row.status.Terminal()
    ensures Succeeded(NextHist(hist, row)) ==> Succeeded(hist) || row.status == Success
  {
    if row.status != None {
      PutRowHist(clock, hist, row);
      PutRowFinishes(hist, row);
    }
  }

  lemma StepPhase<R(!new)>(c: Config<R>, clock: int, db: Tables<R>, b: int, x: Batch, a: Action)
    requires b in c.want && 0 <= clock && Enabled(c, db, b, x, a) && PhaseOk(clock, b, x.hist, x.pc)
    ensures PhaseOk(clock, b, NextHist(x.hist, RowOf(c, clock, b, a)), NextPc(x.pc, a))
  {
    HistFacts(clock, x.hist, RowOf(c, clock, b, a));
    if a.Begin? {
      BeginIsUnfinished(clock, x.hist, b, a.st, a.ts);
    }
  }

  lemma StaysEmpty<R(!new)>(c: Config<R>, db: Tables<R>, b: int, x: Batch, a: Action)
    requires b in c.want && NoRows(db, b) && !a.InsertRow?
    ensures NoRows(NextDb(c, db, b, x.pc, a), b)
  {
    forall r ensures !Own(NextDb(c, db, b, x.pc, a), b, r) {
      assert !Own(db, b, r);
    }
  }

  lemma StepEmpty<R(!new)>(c: Config<R>, clock: int, db: Tables<R>, b: int, x: Batch, a: Action)
    requires b in c.want && 0 <= clock && Enabled(c, db, b, x, a) && PhaseOk(clock, b, x.hist, x.pc)
             && EmptyOk(c, db, b, x.hist, x.pc)
    ensures EmptyOk(c, NextDb(c, db, b, x.pc, a), b, NextHist(x.hist, RowOf(c, clock, b, a)), NextPc(x.pc, a))
  {
    HistFacts(clock, x.hist, RowOf(c, clock, b, a));
    var started := Started(NextHist(x.hist, RowOf(c, clock, b, a)));
    if c.want[b] == [] || !started || (NextPc(x.pc, a) == Ready && Tidy(c)) {
      if a.Begin? {
        BeginIsUnfinished(clock, x.hist, b, a.st, a.ts);
      }
      StaysEmpty(c, db, b, x, a);
    }
  }

  lemma InsertRowPlaced<R(!new)>(c: Config<R>, db: Tables<R>, b: int, i: nat, r: int, placed: map<nat, int>,
                                 db': Tables<R>)
    requires b in c.want && i < |c.want[b]| && i !in placed && r !in db.data && Holds(c, db, b, placed)
    requires db'.data == db.data[r := DataRow(b, c.want[b][i])]
    ensures Holds(c, db', b, placed[i := r])
    ensures NothingElse(db, b, placed) ==> NothingElse(db', b, placed[i := r])
  {
    var p := placed[i := r];
    if NothingElse(db, b, placed) {
      forall q | Own(db', b, q) ensures q in p.Values {
        if q == r {
          assert p[i] == r;
        } else {
          assert Own(db, b, q);
          var j :| j in placed && placed[j] == q;
          assert p[j] == q;
        }
      }
    }
  }

  lemma InsertRowWork<R(!new)>(c: Config<R>, db: Tables<R>, b: int, x: Batch, i: nat, r: int)
    requires b in c.want && Enabled(c, db, b, x, InsertRow(i, r)) && WorkOk(c, db, b, x.pc)
    ensures WorkOk(c, NextDb(c, db, b, x.pc, InsertRow(i, r)), b, NextPc(x.pc, InsertRow(i, r)))
  {
    var db', pc' := NextDb(c, db, b, x.pc, InsertRow(i, r)), NextPc(x.pc, InsertRow(i, r));
    InsertRowPlaced(c, db, b, i, r, x.pc.placed, db');
    forall j, n | (j, n) in pc'.indexed ensures IndexedOk(c, db', b, pc', j, n) {
      assert IndexedOk(c, db, b, x.pc, j, n);
    }
  }

  lemma InsertEntryWork<R(!new)>(c: Config<R>, db: Tables<R>, b: int, x: Batch, i: nat, n: string)
    requires b in c.want && Enabled(c, db, b, x, InsertEntry(i, n)) && WorkOk(c, db, b, x.pc)
    ensures WorkOk(c, NextDb(c, db, b, x.pc, InsertEntry(i, n)), b, NextPc(x.pc, InsertEntry(i, n)))
  {
    var db', pc' := NextDb(c, db, b, x.pc, InsertEntry(i, n)), NextPc(x.pc, InsertEntry(i, n));
    assert forall r :: Own(db', b, r) <==> Own(db, b, r);
    forall j, m | (j, m) in pc'.indexed ensures IndexedOk(c, db', b, pc', j, m) {
      assert (j, m) != (i, n) ==> IndexedOk(c, db, b, x.pc, j, m);
    }
  }

  lemma StepWork<R(!new)>(c: Config<R>, db: Tables<R>, b: int, x: Batch, a: Action)
    requires b in c.want && Enabled(c, db, b, x, a) && EmptyOk(c, db, b, x.hist, x.pc) && WorkOk(c, db, b, x.pc)
    ensures WorkOk(c, NextDb(c, db, b, x.pc, a), b, NextPc(x.pc, a))
  {
    match a
    case InsertRow(i, r) => InsertRowWork(c, db, b, x, i, r);
    case InsertEntry(i, n) => InsertEntryWork(c, db, b, x, i, n);
    case _ =>
  }

  /** Success is recorded only when all rows and entries of a complete execution are there. */
  lemma SucceedIsComplete<R(!new)>(c: Config<R>, db: Tables<R>, b: int, x: Batch)
    requires b in c.want && Enabled(c, db, b, x, Succeed) && WorkOk(c, db, b, x.pc)
    ensures HoldsAll(c, db, b, x.pc.placed)
    ensures Tidy(c) ==> Complete(c, db, b, x.pc.placed)
  {
    forall i, n | i in x.pc.placed && n in c.indexes && i < |c.want[b]|
      ensures EntryFor(c, n, c.want[b][i], x.pc.placed[i]) in db.idx
    {
      assert (i, n) in x.pc.indexed;
      assert IndexedOk(c, db, b, x.pc, i, n);
    }
  }

  lemma SucceededIsFinished(clock: int, b: int, hist: set<Row>)
    requires HistOk(clock, hist, b) && Succeeded(hist)
    ensures Finished(hist, b)
  {
  }

  lemma StepSuccess<R(!new)>(c: Config<R>, clock: int, db: Tables<R>, b: int, x: Batch, a: Action)
    requires b in c.want && 0 <= clock && Enabled(c, db, b, x, a)
    requires PhaseOk(clock, b, x.hist, x.pc) && WorkOk(c, db, b, x.pc) && SuccessOk(c, db, b, x.hist, x.effect)
    ensures var y := NextBatch(x, RowOf(c, clock, b, a), a);
            SuccessOk(c, NextDb(c, db, b, x.pc, a), b, y.hist, y.effect)
  {
    if a == Succeed {
      SucceedIsComplete(c, db, b, x);
    } else if Succeeded(NextHist(x.hist, RowOf(c, clock, b, a))) {
      HistFacts(clock, x.hist, RowOf(c, clock, b, a));
      SucceededIsFinished(clock, b, x.hist);
      FinishedIsFrozen(c, clock, db, b, x, a);
    }
  }

  lemma StepOwn<R(!new)>(c: Config<R>, clock: int, db: Tables<R>, b: int, x: Batch, a: Action)
    requires b in c.want && 0 <= clock && Enabled(c, db, b, x, a) && BatchOk(c, clock, db, b, x)
    ensures BatchOk(c, clock, NextDb(c, db, b, x.pc, a), b, NextBatch(x, RowOf(c, clock, b, a), a))
  {
    StepPhase(c, clock, db, b, x, a);
    StepEmpty(c, clock, db, b, x, a);
    StepWork(c, db, b, x, a);
    StepSuccess(c, clock, db, b, x, a);
  }

  // ---------------------------------------------------------------- every run

  lemma StepInv<R(!new)>(c: Config<R>, s: State<R>, t: int, a: Action)
    requires Inv(c, s) && Takes(c, s, t, a)
    ensures Inv(c, Apply(c, s, t, a))
  {
    var x := s.batches[t];
    assert BatchIsOk(c, s, t);
    StepNoDangling(c, s.db, t, x, a);
    StepKeysUnique(c, s.db, t, x, a);
    forall b | b in c.want ensures BatchIsOk(c, Apply(c, s, t, a), b) {
      assert BatchIsOk(c, s, b);
      StepBatchOk(c, s, t, a, b);
    }
  }

  lemma StepBatchOk<R(!new)>(c: Config<R>, s: State<R>, t: int, a: Action, b: int)
    requires Inv(c, s) && Takes(c, s, t, a) && b in c.want && BatchIsOk(c, s, t) && BatchIsOk(c, s, b)
    ensures BatchIsOk(c, Apply(c, s, t, a), b)
  {
    var x := s.batches[t];
    if b == t {
      StepOwn(c, s.clock, s.db, t, x, a);
    } else {
      Frame(c, s.db, t, x, a, b);
      BatchOkStays(c, s.clock, s.clock, s.db, NextDb(c, s.db, t, x.pc, a), b, s.batches[b]);
    }
  }

  lemma TickInv<R(!new)>(c: Config<R>, s: State<R>)
    requires Inv(c, s)
    ensures Inv(c, s.(clock := s.clock + 1))
  {
    forall b | b in c.want ensures BatchIsOk(c, s.(clock := s.clock + 1), b) {
      assert BatchIsOk(c, s, b);
      BatchOkStays(c, s.clock, s.clock + 1, s.db, s.db, b, s.batches[b]);
    }
  }

  lemma NextInv<R(!new)>(c: Config<R>, s: State<R>, s': State<R>)
    requires Inv(c, s) && Next(c, s, s')
    ensures Inv(c, s')
  {
    if s' == s.(clock := s.clock + 1) {
      TickInv(c, s);
    } else {
      var t, a :| Takes(c, s, t, a) && s' == Apply(c, s, t, a);
      StepInv(c, s, t, a);
    }
  }

  ghost function Invariant<R(!new)>(c: Config<R>): State<R> -> bool {
    s => Inv(c, s)
  }

  lemma StartsKeep<R(!new)>(c: Config<R>)
    ensures R.Begins(Starts(c), Invariant(c))
  {
    forall s | Init(c, s) ensures Inv(c, s) {
      InitInv(c, s);
    }
  }

  lemma StepsKeep<R(!new)>(c: Config<R>)
    ensures R.Keeps(Steps(c), Invariant(c))
  {
    forall s, s' | Inv(c, s) && Next(c, s, s') ensures Inv(c, s') {
      NextInv(c, s, s');
    }
  }

  lemma ReachableInv<R(!new)>(c: Config<R>, s: State<R>)
    requires Reachable(c, s)
    ensures Inv(c, s)
  {
    StartsKeep(c);
    StepsKeep(c);
    R.Always(Starts(c), Steps(c), Invariant(c), s);
  }

  // ---------------------------------------------------------------- the statements

  /** Two records of the batch have the same key in a unique index. */
  ghost predicate KeysClash<R(!new)>(c: Config<R>, b: int)
    requires b in c.want
  {
    exists i: nat, j: nat, n :: Clash(c, b, i, j, n)
  }

  predicate Clash<R>(c: Config<R>, b: int, i: nat, j: nat, n: string)
    requires b in c.want
  {
    i < j < |c.want[b]| && n in c.indexes && c.indexes[n] && c.key(n, c.want[b][i]) == c.key(n, c.want[b][j])
  }

  lemma EntriesClash<R(!new)>(c: Config<R>, db: Tables<R>, b: int, placed: map<nat, int>, i: nat, j: nat, n: string)
    requires b in c.want && HoldsAll(c, db, b, placed) && Clash(c, b, i, j, n)
    ensures !KeysUnique(c, db)
  {
    var e, f := EntryFor(c, n, c.want[b][i], placed[i]), EntryFor(c, n, c.want[b][j], placed[j]);
    assert e in db.idx && f in db.idx && e.rowid != f.rowid;
  }

  lemma ClashNeverSucceeds<R(!new)>(c: Config<R>, db: Tables<R>, b: int, placed: map<nat, int>)
    requires b in c.want && KeysUnique(c, db) && HoldsAll(c, db, b, placed)
    ensures !KeysClash(c, b)
  {
    forall i: nat, j: nat, n ensures !Clash(c, b, i, j, n) {
      if Clash(c, b, i, j, n) {
        EntriesClash(c, db, b, placed, i, j, n);
      }
    }
  }

  /** No success of the batch can come after a clean-up that left rows of it. */
  ghost predicate Unharmed<R(!new)>(c: Config<R>, b: int)
    requires b in c.want
  {
    Tidy(c) || c.want[b] == [] || KeysClash(c, b)
  }

  /** In every reachable state, a batch recorded as a success has the rows and the index entries of a
      complete execution, whatever crashed and was run again before; and it has no other row, unless
      a clean-up may return with rows left. */
  lemma SuccessIsOneExecution<R(!new)>(c: Config<R>, s: State<R>, b: int)
    requires Reachable(c, s) && b in c.want
    ensures b in s.batches
    ensures Succeeded(s.batches[b].hist) ==>
              exists placed :: HoldsAll(c, s.db, b, placed) && (Unharmed(c, b) ==> Complete(c, s.db, b, placed))
  {
    ReachableInv(c, s);
    assert BatchIsOk(c, s, b);
    if Succeeded(s.batches[b].hist) {
      ClashNeverSucceeds(c, s.db, b, s.batches[b].effect);
    }
  }

  /** In every reachable state no index entry dangles, and a unique index has no key twice. */
  lemma IndexesAreSound<R(!new)>(c: Config<R>, s: State<R>)
    requires Reachable(c, s)
    ensures NoDangling(c, s.db) && KeysUnique(c, s.db)
  {
    ReachableInv(c, s);
  }

  /** In every reachable state a step of one batch leaves the rows and entries of the others alone,
      and a finished batch never changes the tables again. */
  lemma StepsAreFramed<R(!new)>(c: Config<R>, s: State<R>, b: int, a: Action)
    requires Reachable(c, s) && Takes(c, s, b, a)
    ensures forall other :: other in c.want && other != b ==> SameOwn(s.db, Apply(c, s, b, a).db, other)
    ensures Finished(s.batches[b].hist, b) ==> Apply(c, s, b, a).db == s.db
  {
    ReachableInv(c, s);
    assert BatchIsOk(c, s, b);
    forall other | other in c.want && other != b ensures SameOwn(s.db, Apply(c, s, b, a).db, other) {
      Frame(c, s.db, b, s.batches[b], a, other);
    }
    if Finished(s.batches[b].hist, b) {
      FinishedIsFrozen(c, s.clock, s.db, b, s.batches[b], a);
    }
  }
}
