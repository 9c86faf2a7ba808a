/** Completion detection. Many workers handle the batch messages of one run; each writes its own
    batch status, folds all batch rows of its node, writes the node status, folds all node rows
    and writes the run status, with a separate step for every read and write, so that reads may
    be stale when they are acted upon. A worker may crash at any point; its message comes back. */
module Completion {
  import opened BatchHistory
  import NH = NodeHistory
  import R = Reachability

  datatype RunStatus = RunStart | RunComplete | RunStop

  datatype Task = Task(node: string, batch: int)

  /** Where a worker stands when an error that is not one of connection makes it acknowledge its
      message and leave the rest undone. */
  datatype Place =
    | BeforeRun       // reading the run's status
    | AfterStop       // writing the status of a stopped batch
    | BeforeBatch     // getting the script and its node, reading or failing the batch
    | InCleanup       // deleting the leftovers of a crashed attempt; the batch is failed
    | BeforeNode      // checking the nodes it depends on, writing the node's start
    | BeforeStart     // writing the batch's start
    | InStart         // the start is there although it was not read; the batch is failed
    | InWork          // writing the batch's outcome
    | BeforeFold      // reading the batch rows
    | InNode          // writing the node's status
    | BeforeRunFold   // reading the node rows
    | InRun           // writing the run's status

  datatype Exit = Exit(task: Task, place: Place)

  /** `total` is the number of batches of every affected node. `exits` are the errors that may occur. */
  datatype Config = Config(run: int, total: map<string, int>, exits: set<Exit>) {
    predicate Valid() {
      total != map[] && forall n :: n in total ==> 0 < total[n] <= 32767
    }

    predicate Has(t: Task) {
      t.node in total && 0 <= t.batch < total[t.node]
    }
  }

  /** Where a worker stands with its message; `Idle` means waiting in the queue. */
  datatype Pc =
    | Idle
    | Stopping          // read a stopped run
    | Checked           // read a running run
    | Ready             // decided to process the batch
    | NodeStarted       // wrote the node's start
    | Working           // wrote the batch's start
    | Refresh           // wrote, or found, a terminal batch status
    | Folded(st: Status)     // folded the batch rows
    | NodeDone          // wrote the node status, if there was one to write
    | FoldedRun(st: Status)  // folded the node rows
    | Done              // acknowledged

  datatype State = State(
    clock: int,
    batchRows: map<string, set<Row>>,
    nodeRows: set<NH.Event>,
    runRows: seq<RunStatus>,   // in the order of their timestamps
    pc: map<Task, Pc>)

  datatype Action =
    | CheckRun
    | WriteStop
    | CheckBatch(st: Status, ts: int)
    | FailAbandoned(ts: int)
    | GiveUpCleanup(ts: int)
    | NoGo
    | WriteNodeStart
    | WriteBatchStart
    | GiveUpStart
    | WriteTerminal(st: Status)
    | FoldBatches
    | WriteNode
    | FoldNodes(statuses: map<string, Status>, st: Status)
    | WriteRun
    | Quit
    | Crash
    | Redeliver

  ghost predicate Init(c: Config, s: State) {
    && s.clock == 0
    && s.batchRows == (map n | n in c.total :: {})
    && s.nodeRows == {}
    && s.runRows == [RunStart]
    && (forall t :: t in s.pc <==> c.Has(t))
    && (forall t :: t in s.pc ==> s.pc[t] == Idle)
  }

  ghost predicate WellFormed(c: Config, s: State) {
    && s.batchRows.Keys == c.total.Keys
    && |s.runRows| > 0
    && (forall t :: t in s.pc <==> c.Has(t))
  }

  function CurrentRun(s: State): RunStatus
    requires |s.runRows| > 0
  {
    s.runRows[|s.runRows| - 1]
  }

  function Go(s: State, t: Task, pc: Pc): State {
    s.(pc := s.pc[t := pc])
  }

  function PutBatch(c: Config, s: State, t: Task, st: Status): State
    requires t.node in c.total && t.node in s.batchRows
  {
    s.(batchRows := s.batchRows[t.node := PutRow(s.batchRows[t.node], Row(s.clock, t.batch, c.total[t.node], st))],
       clock := s.clock + 1)
  }

  /** Node rows are keyed by node, writing batch and status. */
  function PutEvent(rows: set<NH.Event>, e: NH.Event): set<NH.Event> {
    (set x | x in rows && !(x.node == e.node && x.batch == e.batch && x.status == e.status)) + {e}
  }

  function PutNode(c: Config, s: State, t: Task, st: Status): State {
    s.(nodeRows := PutEvent(s.nodeRows, NH.Event(s.clock, c.run, t.batch, t.node, st)), clock := s.clock + 1)
  }

  /** Run rows are inserted only if not there yet. */
  function PutRun(s: State, st: RunStatus): State {
    if st in s.runRows then s else s.(runRows := s.runRows + [st])
  }

  /** The fold of all node rows, as the code computes it. */
  ghost predicate ReadsRun(c: Config, s: State, statuses: map<string, Status>, st: Status) {
    && statuses.Keys == c.total.Keys
    && (forall n :: n in statuses ==> NH.NodeStatusIs(s.nodeRows, c.run, n, statuses[n]))
    && NH.CombinedIs(statuses, st)
  }

  /** What a worker reads as its batch's last status. */
  ghost predicate ReadsBatch(s: State, t: Task, st: Status, ts: int)
    requires t.node in s.batchRows
  {
    IsLast(OwnRows(s.batchRows[t.node], t.batch), st, ts)
  }

  /** The exit that is next to a worker at `pc`. */
  function PlaceOf(pc: Pc): Place
    requires !pc.Done?
  {
    if pc.Idle? then BeforeRun
    else if pc.Stopping? then AfterStop
    else if pc.Checked? then BeforeBatch
    else if pc.Ready? then BeforeNode
    else if pc.NodeStarted? then BeforeStart
    else if pc.Working? then InWork
    else if pc.Refresh? then BeforeFold
    else if pc.Folded? then InNode
    else if pc.NodeDone? then BeforeRunFold
    else InRun
  }

  ghost predicate Enabled(c: Config, s: State, t: Task, a: Action)
    requires WellFormed(c, s)
  {
    && c.Has(t)
    && match a
       case CheckRun => s.pc[t] == Idle
       case WriteStop => s.pc[t] == Stopping
       case CheckBatch(st, ts) => s.pc[t] == Checked && ReadsBatch(s, t, st, ts)
       case FailAbandoned(ts) => s.pc[t] == Checked && ReadsBatch(s, t, Start, ts)
       case GiveUpCleanup(ts) =>
         Exit(t, InCleanup) in c.exits && s.pc[t] == Checked && ReadsBatch(s, t, Start, ts)
       case NoGo => s.pc[t] == Ready
       case WriteNodeStart => s.pc[t] == Ready
       case WriteBatchStart => s.pc[t] == NodeStarted
       case GiveUpStart => s.pc[t] == NodeStarted && Exit(t, InStart) in c.exits
       case WriteTerminal(st) => s.pc[t] == Working && (st == Success || st == Fail)
       case FoldBatches => s.pc[t] == Refresh
       case WriteNode => s.pc[t].Folded?
       case FoldNodes(statuses, st) => s.pc[t] == NodeDone && ReadsRun(c, s, statuses, st)
       case WriteRun => s.pc[t].FoldedRun?
       case Quit => !s.pc[t].Done? && Exit(t, PlaceOf(s.pc[t])) in c.exits
       case Crash => !s.pc[t].Done?
       case Redeliver => s.pc[t] == Done
  }

  /** The batch status written by an action, `None` if it writes none. */
  function BatchWritten(a: Action): Status {
    match a
    case WriteStop => StopReceived
    case FailAbandoned(_) => Fail
    case GiveUpCleanup(_) => Fail
    case GiveUpStart => Fail
    case NoGo => Fail
    case WriteBatchStart => Start
    case WriteTerminal(st) => st
    case _ => None
  }

  /** The node status written by an action of a worker at `pc`, `None` if it writes none. */
  function NodeWritten(pc: Pc, a: Action): Status {
    if a.WriteNodeStart? then Start
    else if a.WriteNode? && pc.Folded? && pc.st.Terminal() then pc.st
    else None
  }

  predicate CompletesRun(pc: Pc, a: Action) {
    a.WriteRun? && pc.FoldedRun? && (pc.st == Success || pc.st == Fail)
  }

  function Write(c: Config, s: State, t: Task, a: Action): State
    requires t.node in c.total && t.node in s.batchRows && t in s.pc
  {
    if BatchWritten(a) != None then PutBatch(c, s, t, BatchWritten(a))
    else if NodeWritten(s.pc[t], a) != None then PutNode(c, s, t, NodeWritten(s.pc[t], a))
    else if CompletesRun(s.pc[t], a) then PutRun(s, RunComplete)
    else s
  }

  ghost function NextPc(c: Config, s: State, t: Task, a: Action): Pc
    requires WellFormed(c, s) && Enabled(c, s, t, a)
  {
    match a
    case CheckRun =>
      (match CurrentRun(s) case RunStart => Checked case RunStop => Stopping case RunComplete => Done)
    case CheckBatch(st, ts) =>
      (match st
       case Success => Refresh
       case Fail => Refresh
       case StopReceived => Done
       case Start => Ready   // abandoned, to be run again after a clean-up
       case None => Ready)
    case GiveUpCleanup(_) => Done
    case GiveUpStart => Done
    case WriteNodeStart => NodeStarted
    case WriteBatchStart => Working
    case FoldBatches => Folded(NodeStatus(s.batchRows[t.node], c.total[t.node]))
    case WriteNode => NodeDone
    case FoldNodes(_, st) => FoldedRun(st)
    case WriteRun => Done
    case Quit => Done
    case Crash => Idle
    case Redeliver => Idle
    case _ => Refresh   // a terminal batch status was written
  }

  ghost function Apply(c: Config, s: State, t: Task, a: Action): State
    requires WellFormed(c, s) && Enabled(c, s, t, a)
  {
    Go(Write(c, s, t, a), t, NextPc(c, s, t, a))
  }

  /** One step of one worker, or the operator stopping the run. */
  ghost predicate Next(c: Config, s: State, s': State)
    requires WellFormed(c, s)
  {
    || (exists t, a :: Enabled(c, s, t, a) && s' == Apply(c, s, t, a))
    || s' == PutRun(s, RunStop)
  }

  ghost function Starts(c: Config): State -> bool {
    s => Init(c, s)
  }

  ghost function Steps(c: Config): (State, State) -> bool {
    (s, s') => WellFormed(c, s) && Next(c, s, s')
  }

  ghost predicate Reachable(c: Config, s: State) {
    s in R.States(Starts(c), Steps(c))
  }

  // ---------------------------------------------------------------- what every step keeps

  ghost predicate HasTerminal(s: State, n: string) {
    exists e :: e in s.nodeRows && e.node == n && e.status.Terminal()
  }

  ghost predicate HasOutcome(s: State, n: string) {
    exists e :: e in s.nodeRows && e.node == n && (e.status == Success || e.status == Fail)
  }

  ghost predicate NodeFinished(c: Config, s: State, n: string)
    requires n in c.total && n in s.batchRows
  {
    AllFinished(s.batchRows[n], c.total[n])
  }

  /** No start of a batch is as late as one of its ends. */
  ghost predicate RowsValid(rows: set<Row>, total: int, clock: int) {
    && (forall r :: r in rows ==> r.status != None && 0 <= r.ts < clock && r.total == total && 0 <= r.idx < total)
    && (forall r {:trigger EndsAfter(rows, r)} :: r in rows && r.status == Start ==> EndsAfter(rows, r))
  }

  ghost predicate EndsAfter(rows: set<Row>, start: Row) {
    forall r :: r in rows && r.idx == start.idx && r.status.Terminal() ==> start.ts < r.ts
  }

  ghost predicate RowsOk(c: Config, s: State)
    requires WellFormed(c, s)
  {
    && 0 <= s.clock
    && (forall n :: n in s.batchRows ==> RowsValid(s.batchRows[n], c.total[n], s.clock))
    && (forall e :: e in s.nodeRows ==> e.run == c.run && e.node in c.total && e.status != None && e.ts < s.clock)
  }

  predicate AfterEnd(pc: Pc) {
    pc.Refresh? || pc.Folded? || pc.NodeDone? || pc.FoldedRun?
  }

  predicate BeforeEnd(pc: Pc) {
    pc.Ready? || pc.NodeStarted? || pc.Working?
  }

  /** A worker on its way to process a batch has not finished that batch yet. */
  ghost predicate WorkerOk(c: Config, s: State, t: Task)
    requires WellFormed(c, s) && c.Has(t)
  {
    && (BeforeEnd(s.pc[t]) ==> !Finished(s.batchRows[t.node], t.batch))
    && (AfterEnd(s.pc[t]) ==> Finished(s.batchRows[t.node], t.batch))
    && (s.pc[t].Folded? && s.pc[t].st.Terminal() ==> NodeFinished(c, s, t.node))
  }

  ghost predicate WorkersOk(c: Config, s: State)
    requires WellFormed(c, s)
  {
    forall t {:trigger WorkerOk(c, s, t)} :: c.Has(t) ==> WorkerOk(c, s, t)
  }

  /** A node's terminal status follows the ends of all its batches, and its starts come first. */
  ghost predicate NodeOk(c: Config, s: State, n: string)
    requires WellFormed(c, s) && n in c.total
  {
    && (HasTerminal(s, n) ==> NodeFinished(c, s, n))
    && NH.StartsFirst(s.nodeRows, c.run, n)
  }

  ghost predicate NodesOk(c: Config, s: State)
    requires WellFormed(c, s)
  {
    forall n {:trigger NodeOk(c, s, n)} :: n in c.total ==> NodeOk(c, s, n)
  }

  ghost predicate AllOutcomes(c: Config, s: State) {
    forall n :: n in c.total ==> HasOutcome(s, n)
  }

  predicate MayComplete(pc: Pc) {
    pc == FoldedRun(Success) || pc == FoldedRun(Fail)
  }

  ghost predicate RunOk(c: Config, s: State)
    requires WellFormed(c, s)
  {
    && (forall t :: c.Has(t) && MayComplete(s.pc[t]) ==> AllOutcomes(c, s))
    && (RunComplete in s.runRows ==> AllOutcomes(c, s))
  }

  ghost predicate Inv(c: Config, s: State) {
    WellFormed(c, s) && RowsOk(c, s) && WorkersOk(c, s) && NodesOk(c, s) && RunOk(c, s)
  }

  lemma InitInv(c: Config, s: State)
    requires c.Valid() && Init(c, s)
    ensures Inv(c, s)
  {
    forall n | n in c.total ensures !NodeFinished(c, s, n) {
      assert !Finished(s.batchRows[n], 0);
    }
  }

  lemma PutRowValid(rows: set<Row>, row: Row, total: int)
    requires RowsValid(rows, total, row.ts)
    requires row.status != None && 0 <= row.ts && row.total == total && 0 <= row.idx < total
    requires row.status == Start ==> !Finished(rows, row.idx)
    ensures RowsValid(PutRow(rows, row), total, row.ts + 1)
  {
    forall r | r in PutRow(rows, row) && r.status == Start ensures EndsAfter(PutRow(rows, row), r) {
      assert r in rows ==> EndsAfter(rows, r);
    }
  }

  lemma OwnStatusReads(c: Config, s: State, t: Task, st: Status, ts: int)
    requires WellFormed(c, s) && RowsOk(c, s) && c.Has(t)
    requires ReadsBatch(s, t, st, ts)
    ensures st.Terminal() <==> Finished(s.batchRows[t.node], t.batch)
  {
    var own := OwnRows(s.batchRows[t.node], t.batch);
    assert forall r :: r in own && r.status == Start ==> EndsAfter(s.batchRows[t.node], r);
    LastStatusTerminalIff(own, st, ts);
    if Finished(s.batchRows[t.node], t.batch) {
      var r :| r in s.batchRows[t.node] && r.idx == t.batch && r.status.Terminal();
      assert r in own;
    }
  }

  lemma WriteRowsOk(c: Config, s: State, t: Task, a: Action)
    requires WellFormed(c, s) && RowsOk(c, s) && c.Has(t)
    requires BatchWritten(a) == Start ==> !Finished(s.batchRows[t.node], t.batch)
    ensures WellFormed(c, Write(c, s, t, a)) && RowsOk(c, Write(c, s, t, a))
  {
    if BatchWritten(a) != None {
      PutBatchRowsOk(c, s, t, BatchWritten(a));
    } else if NodeWritten(s.pc[t], a) != None {
      PutNodeRowsOk(c, s, t, NodeWritten(s.pc[t], a));
    }
  }

  lemma PutBatchRowsOk(c: Config, s: State, t: Task, st: Status)
    requires WellFormed(c, s) && RowsOk(c, s) && c.Has(t) && st != None
    requires st == Start ==> !Finished(s.batchRows[t.node], t.batch)
    ensures WellFormed(c, PutBatch(c, s, t, st)) && RowsOk(c, PutBatch(c, s, t, st))
  {
    var s' := PutBatch(c, s, t, st);
    PutRowValid(s.batchRows[t.node], Row(s.clock, t.batch, c.total[t.node], st), c.total[t.node]);
    forall n | n in s'.batchRows ensures RowsValid(s'.batchRows[n], c.total[n], s'.clock) {
      assert RowsValid(s.batchRows[n], c.total[n], s.clock);
    }
  }

  lemma PutNodeRowsOk(c: Config, s: State, t: Task, st: Status)
    requires WellFormed(c, s) && RowsOk(c, s) && c.Has(t) && st != None
    ensures WellFormed(c, PutNode(c, s, t, st)) && RowsOk(c, PutNode(c, s, t, st))
  {
    forall n | n in s.batchRows ensures RowsValid(s.batchRows[n], c.total[n], s.clock + 1) {
      assert RowsValid(s.batchRows[n], c.total[n], s.clock);
    }
  }

  /** Terminal batch statuses are never lost, and an action finishes at most its own batch. */
  lemma WriteFinishes(c: Config, s: State, t: Task, a: Action, n: string, i: int)
    requires WellFormed(c, s) && c.Has(t) && n in c.total
    ensures WellFormed(c, Write(c, s, t, a))
    ensures Finished(Write(c, s, t, a).batchRows[n], i)
            <==> Finished(s.batchRows[n], i) || (n == t.node && i == t.batch && BatchWritten(a).Terminal())
  {
    if BatchWritten(a) != None {
      PutRowFinishes(s.batchRows[t.node], Row(s.clock, t.batch, c.total[t.node], BatchWritten(a)));
    }
  }

  lemma WriteKeepsFinished(c: Config, s: State, t: Task, a: Action, n: string)
    requires WellFormed(c, s) && c.Has(t) && n in c.total && NodeFinished(c, s, n)
    ensures WellFormed(c, Write(c, s, t, a)) && NodeFinished(c, Write(c, s, t, a), n)
  {
    forall i | 0 <= i < c.total[n] ensures Finished(Write(c, s, t, a).batchRows[n], i) {
      WriteFinishes(c, s, t, a, n, i);
    }
  }

  lemma NextPcOk(c: Config, s: State, t: Task, a: Action)
    requires WellFormed(c, s) && RowsOk(c, s) && Enabled(c, s, t, a) && WorkerOk(c, s, t)
    ensures var pc' := NextPc(c, s, t, a);
            && (BeforeEnd(pc') ==> !Finished(s.batchRows[t.node], t.batch) && !BatchWritten(a).Terminal())
            && (AfterEnd(pc') ==> Finished(s.batchRows[t.node], t.batch) || BatchWritten(a).Terminal())
            && (pc'.Folded? && pc'.st.Terminal() ==> NodeFinished(c, s, t.node) && BatchWritten(a) == None)
  {
    if a.CheckBatch? {
      OwnStatusReads(c, s, t, a.st, a.ts);
    }
  }

  lemma StepOwnWorkerOk(c: Config, s: State, t: Task, a: Action)
    requires WellFormed(c, s) && RowsOk(c, s) && Enabled(c, s, t, a) && WorkerOk(c, s, t)
    ensures WellFormed(c, Apply(c, s, t, a)) && WorkerOk(c, Apply(c, s, t, a), t)
  {
    NextPcOk(c, s, t, a);
    WriteFinishes(c, s, t, a, t.node, t.batch);
    if NodeFinished(c, s, t.node) {
      WriteKeepsFinished(c, s, t, a, t.node);
    }
  }

  lemma StepOtherWorkerOk(c: Config, s: State, t: Task, a: Action, u: Task)
    requires WellFormed(c, s) && Enabled(c, s, t, a) && c.Has(u) && u != t && WorkerOk(c, s, u)
    ensures WellFormed(c, Apply(c, s, t, a)) && WorkerOk(c, Apply(c, s, t, a), u)
  {
    WriteFinishes(c, s, t, a, u.node, u.batch);
    if NodeFinished(c, s, u.node) {
      WriteKeepsFinished(c, s, t, a, u.node);
    }
    assert u.node != t.node || u.batch != t.batch;
    assert Apply(c, s, t, a).pc[u] == s.pc[u];
  }

  lemma StepNodeOk(c: Config, s: State, t: Task, a: Action, n: string)
    requires WellFormed(c, s) && RowsOk(c, s) && n in c.total && NodeOk(c, s, n)
    requires Enabled(c, s, t, a) && WorkerOk(c, s, t)
    ensures WellFormed(c, Write(c, s, t, a)) && NodeOk(c, Write(c, s, t, a), n)
  {
    var s', st := Write(c, s, t, a), NodeWritten(s.pc[t], a);
    if HasTerminal(s, n) {
      WriteKeepsFinished(c, s, t, a, n);
    }
    if BatchWritten(a) != None {
      assert s'.nodeRows == s.nodeRows;
    } else if st != None {
      if a == WriteNodeStart && n == t.node {
        assert !NodeFinished(c, s, n);
      }
      PutEventStartsFirst(s.nodeRows, NH.Event(s.clock, c.run, t.batch, t.node, st), n);
      if st.Terminal() && n == t.node {
        WriteKeepsFinished(c, s, t, a, n);
      }
    }
  }

  lemma PutEventStartsFirst(rows: set<NH.Event>, e: NH.Event, n: string)
    requires NH.StartsFirst(rows, e.run, n) && forall x :: x in rows ==> x.ts < e.ts
    requires e.status == Start && e.node == n ==> forall x :: x in rows && x.node == n ==> !x.status.Terminal()
    ensures NH.StartsFirst(PutEvent(rows, e), e.run, n)
  {
  }

  lemma WriteKeepsOutcomes(c: Config, s: State, t: Task, a: Action, n: string)
    requires WellFormed(c, s) && c.Has(t)
    ensures HasTerminal(s, n) ==> HasTerminal(Write(c, s, t, a), n)
    ensures HasOutcome(s, n) ==> HasOutcome(Write(c, s, t, a), n)
  {
    var st := NodeWritten(s.pc[t], a);
    if BatchWritten(a) == None && st != None {
      var e := NH.Event(s.clock, c.run, t.batch, t.node, st);
      assert e in Write(c, s, t, a).nodeRows;
      forall x | x in s.nodeRows
        ensures exists y :: y in PutEvent(s.nodeRows, e) && y.node == x.node && y.status == x.status
      {
        assert x in PutEvent(s.nodeRows, e) || (x.node == e.node && x.status == e.status);
      }
    }
  }

  /** A worker may only write the run's completion after a fold that saw every node finished and
      none of them stopped. */
  lemma FoldAuthorizes(c: Config, s: State, statuses: map<string, Status>, st: Status)
    requires ReadsRun(c, s, statuses, st) && (st == Success || st == Fail)
    ensures AllOutcomes(c, s)
    ensures forall e :: e in s.nodeRows && e.run == c.run && e.node in c.total ==> e.status != StopReceived
  {
    forall n | n in c.total
      ensures HasOutcome(s, n)
      ensures forall e :: e in s.nodeRows && NH.Of(e, c.run, n) ==> e.status != StopReceived
    {
      assert NH.NodeStatusIs(s.nodeRows, c.run, n, statuses[n]);
      assert statuses[n] == Success || statuses[n] == Fail;
    }
  }

  lemma WriteKeepsAllOutcomes(c: Config, s: State, t: Task, a: Action)
    requires WellFormed(c, s) && c.Has(t) && AllOutcomes(c, s)
    ensures AllOutcomes(c, Write(c, s, t, a))
  {
    forall n | n in c.total ensures HasOutcome(Write(c, s, t, a), n) {
      WriteKeepsOutcomes(c, s, t, a, n);
    }
  }

  lemma MayCompleteOk(c: Config, s: State, t: Task, a: Action)
    requires WellFormed(c, s) && RunOk(c, s) && Enabled(c, s, t, a)
    requires MayComplete(NextPc(c, s, t, a)) || CompletesRun(s.pc[t], a) || RunComplete in s.runRows
    ensures AllOutcomes(c, s)
  {
    if a.FoldNodes? && MayComplete(FoldedRun(a.st)) {
      FoldAuthorizes(c, s, a.statuses, a.st);
    }
  }

  lemma StepRunOk(c: Config, s: State, t: Task, a: Action)
    requires WellFormed(c, s) && RunOk(c, s) && Enabled(c, s, t, a)
    ensures WellFormed(c, Apply(c, s, t, a)) && RunOk(c, Apply(c, s, t, a))
  {
    if AllOutcomes(c, s) {
      WriteKeepsAllOutcomes(c, s, t, a);
      assert AllOutcomes(c, Apply(c, s, t, a));
    } else {
      var s', w := Apply(c, s, t, a), Write(c, s, t, a);
      if RunComplete in w.runRows || MayComplete(NextPc(c, s, t, a)) {
        MayCompleteOk(c, s, t, a);
      }
      forall u | c.Has(u) ensures !MayComplete(s'.pc[u]) {
        assert u != t ==> s'.pc[u] == s.pc[u];
      }
    }
  }

  lemma StepInv(c: Config, s: State, t: Task, a: Action)
    requires Inv(c, s) && Enabled(c, s, t, a)
    ensures Inv(c, Apply(c, s, t, a))
  {
    var s' := Apply(c, s, t, a);
    assert WorkerOk(c, s, t);
    WriteRowsOk(c, s, t, a);
    StepOwnWorkerOk(c, s, t, a);
    StepRunOk(c, s, t, a);
    forall u | c.Has(u) ensures WorkerOk(c, s', u) {
      assert WorkerOk(c, s, u);
      if u != t {
        StepOtherWorkerOk(c, s, t, a, u);
      }
    }
    forall n | n in c.total ensures NodeOk(c, s', n) {
      assert NodeOk(c, s, n);
      StepNodeOk(c, s, t, a, n);
    }
  }

  lemma StopInv(c: Config, s: State)
    requires Inv(c, s)
    ensures Inv(c, PutRun(s, RunStop))
  {
    var s' := PutRun(s, RunStop);
    forall u | c.Has(u) ensures WorkerOk(c, s', u) {
      assert WorkerOk(c, s, u);
    }
    forall n | n in c.total ensures NodeOk(c, s', n) {
      assert NodeOk(c, s, n);
    }
  }

  lemma NextInv(c: Config, s: State, s': State)
    requires Inv(c, s) && Next(c, s, s')
    ensures Inv(c, s')
  {
    if s' == PutRun(s, RunStop) {
      StopInv(c, s);
    } else {
      var t, a :| Enabled(c, s, t, a) && s' == Apply(c, s, t, a);
      StepInv(c, s, t, a);
    }
  }

  ghost function Invariant(c: Config): State -> bool {
    s => Inv(c, s)
  }

  lemma StartsKeep(c: Config)
    requires c.Valid()
    ensures R.Begins(Starts(c), Invariant(c))
  {
    forall s | Init(c, s) ensures Inv(c, s) {
      InitInv(c, s);
    }
  }

  lemma StepsKeep(c: Config)
    ensures R.Keeps(Steps(c), Invariant(c))
  {
    forall s, s' | Inv(c, s) && Next(c, s, s') ensures Inv(c, s') {
      NextInv(c, s, s');
    }
  }

  lemma ReachableInv(c: Config, s: State)
    requires c.Valid() && Reachable(c, s)
    ensures Inv(c, s)
  {
    StartsKeep(c);
    StepsKeep(c);
    R.Always(Starts(c), Steps(c), Invariant(c), s);
  }

  /** Completion is never early: in every reachable state, a node carries a terminal status only after
      all its batches have one, and the run is complete only after every node has an outcome. */
  lemma CompletionIsNotEarly(c: Config, s: State, n: string)
    requires c.Valid() && Reachable(c, s) && n in c.total
    ensures WellFormed(c, s)
    ensures HasTerminal(s, n) ==> NodeFinished(c, s, n)
    ensures RunComplete in s.runRows ==> HasOutcome(s, n) && NodeFinished(c, s, n)
  {
    ReachableInv(c, s);
    assert NodeOk(c, s, n);
    if RunComplete in s.runRows {
      assert AllOutcomes(c, s) && HasOutcome(s, n);
    }
  }
}
