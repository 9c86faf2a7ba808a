/** Completion is not lost either: once every message is acknowledged, an unstopped run is
    complete, for every schedule, exactly when no batch has an exit that skips the refresh. */
module CompletionProgress {
  import opened BatchHistory
  import NH = NodeHistory
  import R = Reachability
  import opened Completion

  /** A worker that will still fold its batch's node. */
  predicate WillFoldNode(pc: Pc) {
    pc.Idle? || pc.Checked? || pc.Refresh? || (pc.Folded? && pc.st.Terminal())
  }

  /** A worker that will still fold the run, or has seen it complete. */
  predicate WillFoldRun(pc: Pc) {
    pc.Idle? || pc.Checked? || pc.Refresh? || pc.Folded? || pc.NodeDone? || MayComplete(pc)
  }

  ghost predicate SomeWillFoldNode(c: Config, s: State, n: string)
    requires WellFormed(c, s)
  {
    exists t :: c.Has(t) && t.node == n && WillFoldNode(s.pc[t])
  }

  ghost predicate SomeWillFoldRun(c: Config, s: State)
    requires WellFormed(c, s)
  {
    exists t :: c.Has(t) && WillFoldRun(s.pc[t])
  }

  ghost predicate AllTerminal(c: Config, s: State) {
    forall n :: n in c.total ==> HasTerminal(s, n)
  }

  ghost predicate NothingStopped(c: Config, s: State)
    requires WellFormed(c, s)
  {
    && RunStop !in s.runRows
    && (forall n, r :: n in s.batchRows && r in s.batchRows[n] ==> r.status != StopReceived)
    && (forall e :: e in s.nodeRows ==> e.status != StopReceived)
    && (forall t :: c.Has(t) ==> s.pc[t] != Stopping && s.pc[t] != Folded(StopReceived))
  }

  ghost predicate DoneFor(s: State, t: Task) {
    (t.node in s.batchRows && Finished(s.batchRows[t.node], t.batch)) || RunComplete in s.runRows
  }

  ghost predicate DoneOk(c: Config, s: State)
    requires WellFormed(c, s)
  {
    forall t {:trigger DoneFor(s, t)} :: c.Has(t) && s.pc[t] == Done ==> DoneFor(s, t)
  }

  /** Every obligation still open has a worker that will discharge it. */
  ghost predicate Live(c: Config, s: State) {
    && WellFormed(c, s)
    && NothingStopped(c, s)
    && DoneOk(c, s)
    && (forall n :: n in c.total && NodeFinished(c, s, n) ==> HasTerminal(s, n) || SomeWillFoldNode(c, s, n))
    && (AllTerminal(c, s) ==> RunComplete in s.runRows || SomeWillFoldRun(c, s))
  }

  /** No batch of the run has an exit, apart from the one after a stop. */
  ghost predicate NoExits(c: Config) {
    forall e :: e in c.exits && c.Has(e.task) ==> e.place == AfterStop
  }

  predicate Leaves(a: Action) {
    a.Quit? || a.GiveUpCleanup? || a.GiveUpStart?
  }

  lemma NobodyLeaves(c: Config, s: State, t: Task, a: Action)
    requires WellFormed(c, s) && NothingStopped(c, s) && NoExits(c) && Enabled(c, s, t, a)
    ensures !Leaves(a)
  {
  }

  lemma InitLive(c: Config, s: State)
    requires c.Valid() && Init(c, s)
    ensures Live(c, s)
  {
    forall n | n in c.total ensures SomeWillFoldNode(c, s, n) {
      assert c.Has(Task(n, 0));
    }
  }

  lemma WrittenIsNoStop(c: Config, s: State, t: Task, a: Action)
    requires WellFormed(c, s) && NothingStopped(c, s) && Enabled(c, s, t, a)
    ensures BatchWritten(a) != StopReceived && NodeWritten(s.pc[t], a) != StopReceived
    ensures NextPc(c, s, t, a) != Stopping && NextPc(c, s, t, a) != Folded(StopReceived)
  {
  }

  lemma StepNothingStopped(c: Config, s: State, t: Task, a: Action)
    requires WellFormed(c, s) && NothingStopped(c, s) && Enabled(c, s, t, a)
    ensures NothingStopped(c, Apply(c, s, t, a))
  {
    WrittenIsNoStop(c, s, t, a);
    WriteStopsNothing(c, s, t, a);
  }

  lemma WriteStopsNothing(c: Config, s: State, t: Task, a: Action)
    requires WellFormed(c, s) && NothingStopped(c, s) && c.Has(t)
    requires BatchWritten(a) != StopReceived && NodeWritten(s.pc[t], a) != StopReceived
    ensures NothingStopped(c, Write(c, s, t, a)) && Write(c, s, t, a).pc == s.pc
  {
  }

  lemma StepDoneOk(c: Config, s: State, t: Task, a: Action)
    requires Inv(c, s) && NothingStopped(c, s) && DoneOk(c, s) && !Leaves(a) && Enabled(c, s, t, a)
    ensures WellFormed(c, Apply(c, s, t, a)) && DoneOk(c, Apply(c, s, t, a))
  {
    ApplyKeeps(c, s, t, a, t);
    forall u | c.Has(u) && Apply(c, s, t, a).pc[u] == Done ensures DoneFor(Apply(c, s, t, a), u) {
      NowDone(c, s, t, a, u);
    }
  }

  lemma ApplyKeeps(c: Config, s: State, t: Task, a: Action, u: Task)
    requires WellFormed(c, s) && Enabled(c, s, t, a) && c.Has(u)
    ensures WellFormed(c, Apply(c, s, t, a))
    ensures Apply(c, s, t, a).pc[u] == if u == t then NextPc(c, s, t, a) else s.pc[u]
  {
  }

  lemma NowDone(c: Config, s: State, t: Task, a: Action, u: Task)
    requires Inv(c, s) && NothingStopped(c, s) && DoneOk(c, s) && !Leaves(a) && Enabled(c, s, t, a) && c.Has(u)
    requires WellFormed(c, Apply(c, s, t, a)) && Apply(c, s, t, a).pc[u] == Done
    ensures DoneFor(Apply(c, s, t, a), u)
  {
    ApplyKeeps(c, s, t, a, u);
    assert DoneFor(s, u) by {
      if u == t {
        assert WorkerOk(c, s, t);
        OwnDoneOk(c, s, t, a);
      }
    }
    DoneStays(c, s, t, a, u);
  }

  lemma DoneStays(c: Config, s: State, t: Task, a: Action, u: Task)
    requires WellFormed(c, s) && c.Has(t) && c.Has(u) && Enabled(c, s, t, a) && DoneFor(s, u)
    ensures DoneFor(Apply(c, s, t, a), u)
  {
    WriteFinishes(c, s, t, a, u.node, u.batch);
  }

  lemma OwnDoneOk(c: Config, s: State, t: Task, a: Action)
    requires WellFormed(c, s) && NothingStopped(c, s) && !Leaves(a) && Enabled(c, s, t, a) && WorkerOk(c, s, t)
    requires NextPc(c, s, t, a) == Done
    ensures DoneFor(s, t)
  {
    assert a.CheckBatch? ==> a.st != StopReceived;
  }

  lemma ReadsOutcome(c: Config, s: State, n: string, st: Status)
    requires WellFormed(c, s) && RowsOk(c, s) && NothingStopped(c, s)
    requires n in c.total && NodeOk(c, s, n) && HasTerminal(s, n) && NH.NodeStatusIs(s.nodeRows, c.run, n, st)
    ensures st == Success || st == Fail
  {
    NH.TerminalAfterStartsReads(s.nodeRows, c.run, n, st);
  }

  lemma CombinesToOutcome(statuses: map<string, Status>, st: Status)
    requires statuses.Keys != {} && NH.CombinedIs(statuses, st)
    requires forall n :: n in statuses ==> statuses[n] == Success || statuses[n] == Fail
    ensures st == Success || st == Fail
  {
  }

  /** While no node is stopped and every node has finished, a fold of the run sees an outcome. */
  lemma FoldSeesOutcome(c: Config, s: State, statuses: map<string, Status>, st: Status)
    requires c.Valid() && WellFormed(c, s) && NodesOk(c, s) && NothingStopped(c, s) && AllTerminal(c, s)
    requires RowsOk(c, s) && ReadsRun(c, s, statuses, st)
    ensures MayComplete(FoldedRun(st))
  {
    forall n | n in statuses ensures statuses[n] == Success || statuses[n] == Fail {
      assert NodeOk(c, s, n);
      ReadsOutcome(c, s, n, statuses[n]);
    }
    assert c.total.Keys != {};
    CombinesToOutcome(statuses, st);
  }

  lemma StepNodeFolds(c: Config, s: State, t: Task, a: Action, n: string)
    requires Inv(c, s) && Live(c, s) && !Leaves(a) && Enabled(c, s, t, a) && n in c.total
    requires WellFormed(c, Apply(c, s, t, a)) && NodeFinished(c, Apply(c, s, t, a), n)
    ensures HasTerminal(Apply(c, s, t, a), n) || SomeWillFoldNode(c, Apply(c, s, t, a), n)
  {
    if HasTerminal(s, n) {
      WriteKeepsOutcomes(c, s, t, a, n);
    } else if !NodeFinished(c, s, n) {
      LastBatchFolds(c, s, t, a, n);
    } else {
      var u :| c.Has(u) && u.node == n && WillFoldNode(s.pc[u]);
      FolderStays(c, s, t, a, u);
    }
  }

  /** Whoever finishes the last batch of a node will fold the node. */
  lemma LastBatchFolds(c: Config, s: State, t: Task, a: Action, n: string)
    requires WellFormed(c, s) && Enabled(c, s, t, a) && n in c.total && !Leaves(a) && !NodeFinished(c, s, n)
    requires NothingStopped(c, s) && WellFormed(c, Apply(c, s, t, a)) && NodeFinished(c, Apply(c, s, t, a), n)
    ensures SomeWillFoldNode(c, Apply(c, s, t, a), n)
  {
    var i :| 0 <= i < c.total[n] && !Finished(s.batchRows[n], i);
    assert Finished(Apply(c, s, t, a).batchRows[n], i);
    WriteFinishes(c, s, t, a, n, i);
    assert t.node == n && Apply(c, s, t, a).pc[t] == Refresh;
  }

  lemma FolderStays(c: Config, s: State, t: Task, a: Action, u: Task)
    requires Inv(c, s) && NothingStopped(c, s) && !Leaves(a) && Enabled(c, s, t, a)
    requires c.Has(u) && NodeFinished(c, s, u.node) && WillFoldNode(s.pc[u]) && WellFormed(c, Apply(c, s, t, a))
    ensures HasTerminal(Apply(c, s, t, a), u.node) || SomeWillFoldNode(c, Apply(c, s, t, a), u.node)
  {
    if u == t {
      WillFoldNodeStays(c, s, t, a);
    }
    assert Apply(c, s, t, a).pc[u] == if u == t then NextPc(c, s, t, a) else s.pc[u];
  }

  lemma WillFoldNodeStays(c: Config, s: State, t: Task, a: Action)
    requires Inv(c, s) && NothingStopped(c, s) && !Leaves(a) && Enabled(c, s, t, a)
    requires NodeFinished(c, s, t.node) && WillFoldNode(s.pc[t])
    ensures WillFoldNode(NextPc(c, s, t, a)) || HasTerminal(Apply(c, s, t, a), t.node)
  {
    assert Finished(s.batchRows[t.node], t.batch);
    match a {
      case CheckRun =>
        if NextPc(c, s, t, a) == Done {
          assert AllOutcomes(c, s) && HasOutcome(s, t.node);
        }
      case CheckBatch(st, ts) =>
        OwnStatusReads(c, s, t, st, ts);
        assert st != StopReceived;
      case WriteNode =>
        assert NH.Event(s.clock, c.run, t.batch, t.node, s.pc[t].st) in Apply(c, s, t, a).nodeRows;
      case _ =>
    }
  }

  lemma WillFoldRunStays(c: Config, s: State, t: Task, a: Action)
    requires c.Valid() && Inv(c, s) && NothingStopped(c, s) && !Leaves(a) && AllTerminal(c, s)
    requires Enabled(c, s, t, a) && WillFoldRun(s.pc[t])
    ensures WillFoldRun(NextPc(c, s, t, a)) || RunComplete in Write(c, s, t, a).runRows
  {
    if a.CheckBatch? {
      assert HasTerminal(s, t.node) && NodeOk(c, s, t.node) && Finished(s.batchRows[t.node], t.batch);
      FinishedIsRefreshed(c, s, t, a.st, a.ts);
    } else if a.FoldNodes? {
      FoldSeesOutcome(c, s, a.statuses, a.st);
    }
  }

  lemma FinishedIsRefreshed(c: Config, s: State, t: Task, st: Status, ts: int)
    requires WellFormed(c, s) && RowsOk(c, s) && NothingStopped(c, s) && Enabled(c, s, t, CheckBatch(st, ts))
    requires Finished(s.batchRows[t.node], t.batch)
    ensures NextPc(c, s, t, CheckBatch(st, ts)) == Refresh
  {
    OwnStatusReads(c, s, t, st, ts);
    assert st != StopReceived;
  }

  lemma StepRunFolds(c: Config, s: State, t: Task, a: Action)
    requires c.Valid() && Inv(c, s) && Live(c, s) && !Leaves(a) && Enabled(c, s, t, a)
    requires WellFormed(c, Apply(c, s, t, a)) && AllTerminal(c, Apply(c, s, t, a))
    ensures RunComplete in Apply(c, s, t, a).runRows || SomeWillFoldRun(c, Apply(c, s, t, a))
  {
    if AllTerminal(c, s) {
      StepStillFolds(c, s, t, a);
    } else {
      LastNodeFolds(c, s, t, a);
    }
  }

  lemma LastNodeFolds(c: Config, s: State, t: Task, a: Action)
    requires WellFormed(c, s) && Enabled(c, s, t, a) && !AllTerminal(c, s)
    requires WellFormed(c, Apply(c, s, t, a)) && AllTerminal(c, Apply(c, s, t, a))
    ensures SomeWillFoldRun(c, Apply(c, s, t, a))
  {
    var n :| n in c.total && !HasTerminal(s, n);
    assert HasTerminal(Apply(c, s, t, a), n);
    OutcomeIsWritten(c, s, t, a, n);
    ApplyKeeps(c, s, t, a, t);
  }

  lemma OutcomeIsWritten(c: Config, s: State, t: Task, a: Action, n: string)
    requires WellFormed(c, s) && Enabled(c, s, t, a) && !HasTerminal(s, n) && HasTerminal(Apply(c, s, t, a), n)
    ensures NextPc(c, s, t, a) == NodeDone
  {
  }

  lemma StepStillFolds(c: Config, s: State, t: Task, a: Action)
    requires c.Valid() && Inv(c, s) && NothingStopped(c, s) && !Leaves(a) && AllTerminal(c, s)
    requires RunComplete in s.runRows || SomeWillFoldRun(c, s)
    requires Enabled(c, s, t, a) && WellFormed(c, Apply(c, s, t, a))
    ensures RunComplete in Apply(c, s, t, a).runRows || SomeWillFoldRun(c, Apply(c, s, t, a))
  {
    if RunComplete !in s.runRows {
      var u :| c.Has(u) && WillFoldRun(s.pc[u]);
      ApplyKeeps(c, s, t, a, u);
      if u == t {
        OwnFold(c, s, t, a);
      }
    } else {
      CompleteStays(c, s, t, a);
    }
  }

  lemma CompleteStays(c: Config, s: State, t: Task, a: Action)
    requires WellFormed(c, s) && Enabled(c, s, t, a) && RunComplete in s.runRows
    ensures RunComplete in Apply(c, s, t, a).runRows
  {
  }

  lemma OwnFold(c: Config, s: State, t: Task, a: Action)
    requires c.Valid() && Inv(c, s) && NothingStopped(c, s) && !Leaves(a) && AllTerminal(c, s)
    requires Enabled(c, s, t, a) && WillFoldRun(s.pc[t])
    ensures WillFoldRun(NextPc(c, s, t, a)) || RunComplete in Apply(c, s, t, a).runRows
  {
    WillFoldRunStays(c, s, t, a);
  }

  lemma StepLive(c: Config, s: State, t: Task, a: Action)
    requires c.Valid() && Inv(c, s) && Live(c, s) && NoExits(c) && Enabled(c, s, t, a)
    ensures Live(c, Apply(c, s, t, a))
  {
    var s' := Apply(c, s, t, a);
    NobodyLeaves(c, s, t, a);
    StepInv(c, s, t, a);
    StepNothingStopped(c, s, t, a);
    StepDoneOk(c, s, t, a);
    forall n | n in c.total && NodeFinished(c, s', n) ensures HasTerminal(s', n) || SomeWillFoldNode(c, s', n) {
      StepNodeFolds(c, s, t, a, n);
    }
    if AllTerminal(c, s') {
      StepRunFolds(c, s, t, a);
    }
  }

  ghost predicate LiveUnlessStopped(c: Config, s: State) {
    Inv(c, s) && (RunStop !in s.runRows ==> Live(c, s))
  }

  lemma NextLive(c: Config, s: State, s': State)
    requires c.Valid() && NoExits(c) && LiveUnlessStopped(c, s) && Next(c, s, s')
    ensures LiveUnlessStopped(c, s')
  {
    NextInv(c, s, s');
    if RunStop !in s'.runRows && s' != PutRun(s, RunStop) {
      var t, a :| Enabled(c, s, t, a) && s' == Apply(c, s, t, a);
      StepLive(c, s, t, a);
    }
  }

  ghost function LiveInvariant(c: Config): State -> bool {
    s => LiveUnlessStopped(c, s)
  }

  lemma StartsLive(c: Config)
    requires c.Valid()
    ensures R.Begins(Starts(c), LiveInvariant(c))
  {
    forall s | Init(c, s) ensures LiveUnlessStopped(c, s) {
      InitInv(c, s);
      InitLive(c, s);
    }
  }

  lemma StepsLive(c: Config)
    requires c.Valid() && NoExits(c)
    ensures R.Keeps(Steps(c), LiveInvariant(c))
  {
    forall s, s' | LiveUnlessStopped(c, s) && Next(c, s, s') ensures LiveUnlessStopped(c, s') {
      NextLive(c, s, s');
    }
  }

  ghost predicate AllDone(c: Config, s: State)
    requires WellFormed(c, s)
  {
    forall t :: c.Has(t) ==> s.pc[t] == Done
  }

  /** Whatever the schedule, a run that was not stopped is complete once all messages are gone. */
  ghost predicate AlwaysCompletes(c: Config) {
    forall s :: Reachable(c, s) && WellFormed(c, s) && AllDone(c, s) && RunStop !in s.runRows ==>
        RunComplete in s.runRows
  }

  lemma AllDoneFinished(c: Config, s: State, n: string)
    requires WellFormed(c, s) && DoneOk(c, s) && AllDone(c, s) && RunComplete !in s.runRows && n in c.total
    ensures NodeFinished(c, s, n)
  {
    forall i | 0 <= i < c.total[n] ensures Finished(s.batchRows[n], i) {
      assert c.Has(Task(n, i)) && DoneFor(s, Task(n, i));
    }
  }

  lemma LiveAndDone(c: Config, s: State)
    requires Live(c, s) && AllDone(c, s)
    ensures RunComplete in s.runRows
  {
    if RunComplete !in s.runRows {
      forall n | n in c.total ensures HasTerminal(s, n) {
        AllDoneFinished(c, s, n);
      }
    }
  }

  lemma CompletionIsNotLost(c: Config, s: State)
    requires c.Valid() && NoExits(c) && Reachable(c, s) && WellFormed(c, s)
    requires AllDone(c, s) && RunStop !in s.runRows
    ensures RunComplete in s.runRows
  {
    StartsLive(c);
    StepsLive(c);
    R.Always(Starts(c), Steps(c), LiveInvariant(c), s);
    LiveAndDone(c, s);
  }

  // ---------------------------------------------------------------- the exits that lose completion

  /** States that schedules lead to: every schedule may go on with a step. */
  ghost predicate Closed(c: Config, reach: iset<State>) {
    && (forall s :: Init(c, s) ==> s in reach)
    && (forall s, s' :: s in reach && Steps(c)(s, s') ==> s' in reach)
    && (forall s {:trigger Inv(c, s)} :: s in reach ==> Inv(c, s))
  }

  lemma RunsAreClosed(c: Config)
    requires c.Valid()
    ensures Closed(c, R.States(Starts(c), Steps(c)))
  {
    forall s | Init(c, s) ensures s in R.States(Starts(c), Steps(c)) {
      R.Initially(Starts(c), Steps(c), s);
    }
    forall s, s' | Reachable(c, s) && Steps(c)(s, s') ensures s' in R.States(Starts(c), Steps(c)) {
      R.OneMoreStep(Starts(c), Steps(c), s, s');
    }
    forall s | Reachable(c, s) ensures Inv(c, s) {
      ReachableInv(c, s);
    }
  }

  lemma Extend(c: Config, reach: iset<State>, s: State, t: Task, a: Action) returns (s': State)
    requires Closed(c, reach) && s in reach && WellFormed(c, s) && Enabled(c, s, t, a)
    ensures s' in reach && WellFormed(c, s') && s' == Apply(c, s, t, a)
  {
    s' := Apply(c, s, t, a);
    assert Next(c, s, s');
    assert Steps(c)(s, s');
    assert Inv(c, s');
  }

  lemma FoldExists(c: Config, s: State) returns (statuses: map<string, Status>, st: Status)
    ensures ReadsRun(c, s, statuses, st)
  {
    statuses := FoldExistsFor(c, s, c.total.Keys);
    st := if exists n :: n in statuses && statuses[n] == None then None
          else if exists n :: n in statuses && statuses[n] == Start then Start
          else if exists n :: n in statuses && statuses[n] == StopReceived then StopReceived
          else if exists n :: n in statuses && statuses[n] == Fail then Fail
          else if statuses == map[] then None else Success;
  }

  lemma {:induction false} FoldExistsFor(c: Config, s: State, nodes: set<string>)
    returns (statuses: map<string, Status>)
    ensures statuses.Keys == nodes
    ensures forall n :: n in statuses ==> NH.NodeStatusIs(s.nodeRows, c.run, n, statuses[n])
  {
    statuses := map[];
    if n :| n in nodes {
      statuses := FoldExistsFor(c, s, nodes - {n});
      var st := NH.StatusExists(s.nodeRows, c.run, n);
      statuses := statuses[n := st];
    }
  }

  /** The message of `b` waits and nothing was written for it; nobody has completed or stopped the run. */
  ghost predicate Untouched(c: Config, s: State, b: Task) {
    WellFormed(c, s) && c.Has(b) && s.runRows == [RunStart] && s.pc[b] == Idle
        && OwnRows(s.batchRows[b.node], b.batch) == {}
  }

  lemma NoRows(rows: set<Row>, idx: int)
    requires OwnRows(rows, idx) == {}
    ensures !Finished(rows, idx)
  {
    forall r | r in rows ensures r.idx != idx {
      assert r.idx == idx ==> r in OwnRows(rows, idx);
    }
  }

  /** As long as `b` is not finished, nobody may complete the run. */
  lemma NobodyCompletes(c: Config, s: State, b: Task, t: Task)
    requires Inv(c, s) && Untouched(c, s, b) && c.Has(t)
    ensures !MayComplete(s.pc[t])
  {
    NoRows(s.batchRows[b.node], b.batch);
    assert !Finished(s.batchRows[b.node], b.batch) && NodeOk(c, s, b.node);
  }

  /** What the other batches write says nothing about `b`. */
  lemma OthersWrite(c: Config, s: State, b: Task, t: Task, a: Action)
    requires WellFormed(c, s) && c.Has(t) && c.Has(b) && t != b && !CompletesRun(s.pc[t], a)
    ensures WellFormed(c, Write(c, s, t, a)) && Write(c, s, t, a).runRows == s.runRows && Write(c, s, t, a).pc == s.pc
    ensures OwnRows(Write(c, s, t, a).batchRows[b.node], b.batch) == OwnRows(s.batchRows[b.node], b.batch)
  {
  }

  lemma OthersStep(c: Config, s: State, b: Task, t: Task, a: Action)
    requires Inv(c, s) && Untouched(c, s, b) && Enabled(c, s, t, a) && t != b && WellFormed(c, Apply(c, s, t, a))
    ensures Untouched(c, Apply(c, s, t, a), b)
    ensures forall u :: c.Has(u) && u != t ==> Apply(c, s, t, a).pc[u] == s.pc[u]
  {
    NobodyCompletes(c, s, b, t);
    OthersWrite(c, s, b, t, a);
    var w := Write(c, s, t, a);
    assert Apply(c, s, t, a) == Go(w, t, NextPc(c, s, t, a));
  }

  function Rank(pc: Pc): nat {
    match pc
    case Idle => 8
    case Stopping => 7
    case Checked => 7
    case Ready => 6
    case NodeStarted => 6
    case Working => 5
    case Refresh => 4
    case Folded(_) => 3
    case NodeDone => 2
    case FoldedRun(_) => 1
    case Done => 0
  }

  lemma {:induction false} LastExists(rows: set<Row>) returns (st: Status, ts: int)
    ensures IsLast(rows, st, ts)
  {
    st, ts := None, 0;
    if r :| r in rows {
      st, ts := LastExists(rows - {r});
      if !Before(r.ts, r.status, ts, st) {
        st, ts := r.status, r.ts;
      }
    }
  }

  /** A worker can go on with its message. */
  lemma NextAction(c: Config, s: State, t: Task) returns (a: Action)
    requires WellFormed(c, s) && c.Has(t) && s.runRows == [RunStart] && !s.pc[t].Done?
    ensures Enabled(c, s, t, a) && Rank(NextPc(c, s, t, a)) < Rank(s.pc[t])
  {
    match s.pc[t]
    case Idle => a := CheckRun;
    case Stopping => a := WriteStop;
    case Checked =>
      var st, ts := LastExists(OwnRows(s.batchRows[t.node], t.batch));
      a := CheckBatch(st, ts);
    case Ready => a := NoGo;
    case NodeStarted => a := WriteBatchStart;
    case Working => a := WriteTerminal(Fail);
    case Refresh => a := FoldBatches;
    case Folded(_) => a := WriteNode;
    case NodeDone =>
      var statuses, st := FoldExists(c, s);
      a := FoldNodes(statuses, st);
    case FoldedRun(_) => a := WriteRun;
  }

  lemma {:induction false} FinishOne(c: Config, reach: iset<State>, s: State, b: Task, t: Task) returns (s': State)
    requires c.Valid() && Closed(c, reach) && s in reach && Untouched(c, s, b) && c.Has(t) && t != b
    ensures s' in reach && Untouched(c, s', b) && s'.pc[t] == Done
    ensures forall u :: c.Has(u) && u != t ==> s'.pc[u] == s.pc[u]
    decreases Rank(s.pc[t])
  {
    s' := s;
    if !s.pc[t].Done? {
      var a := NextAction(c, s, t);
      assert Inv(c, s);
      s' := Extend(c, reach, s, t, a);
      OthersStep(c, s, b, t, a);
      s' := FinishOne(c, reach, s', b, t);
    }
  }

  lemma {:induction false} FinishAll(c: Config, reach: iset<State>, s: State, b: Task, todo: set<Task>)
    returns (s': State)
    requires c.Valid() && Closed(c, reach) && s in reach && Untouched(c, s, b) && b !in todo
             && forall t :: t in todo ==> c.Has(t)
    ensures s' in reach && Untouched(c, s', b)
    ensures forall t :: c.Has(t) ==> s'.pc[t] == if t in todo then Done else s.pc[t]
    decreases todo
  {
    s' := s;
    if t :| t in todo {
      s' := FinishOne(c, reach, s, b, t);
      s' := FinishAll(c, reach, s', b, todo - {t});
    }
  }

  /** Nobody has completed or stopped the run, and all messages but that of `b` are gone. */
  ghost predicate Alone(c: Config, s: State, b: Task) {
    && WellFormed(c, s) && c.Has(b) && s.runRows == [RunStart]
    && forall t :: c.Has(t) && t != b ==> s.pc[t] == Done
  }

  lemma LastOne(c: Config, reach: iset<State>, b: Task) returns (s: State)
    requires c.Valid() && Closed(c, reach) && c.Has(b)
    ensures s in reach && Alone(c, s, b) && Untouched(c, s, b)
  {
    s := InitState(c);
    assert OwnRows(s.batchRows[b.node], b.batch) == {};
    s := FinishAll(c, reach, s, b, s.pc.Keys - {b});
  }

  lemma Advance(c: Config, reach: iset<State>, s: State, b: Task, a: Action) returns (s': State)
    requires c.Valid() && Closed(c, reach) && s in reach && Alone(c, s, b) && Enabled(c, s, b, a)
             && !CompletesRun(s.pc[b], a)
    ensures s' in reach && Alone(c, s', b) && s' == Apply(c, s, b, a) && s'.pc[b] == NextPc(c, s, b, a)
    ensures BatchWritten(a) == None ==> s'.batchRows == s.batchRows
  {
    s' := Extend(c, reach, s, b, a);
    assert Write(c, s, b, a).runRows == s.runRows && Write(c, s, b, a).pc == s.pc;
  }

  lemma FirstRow(rows: set<Row>, row: Row)
    requires row.status == Start && row.ts >= 0 && OwnRows(rows, row.idx) == {}
    ensures IsLast(OwnRows(PutRow(rows, row), row.idx), Start, row.ts)
  {
    assert OwnRows(PutRow(rows, row), row.idx) == {row};
  }

  /** The worker of the last message stands at this place. */
  ghost predicate At(c: Config, reach: iset<State>, s: State, b: Task, place: Place) {
    s in reach && Alone(c, s, b) && !s.pc[b].Done? && PlaceOf(s.pc[b]) == place
  }

  /** The action takes its worker there, and does not complete the run. */
  ghost predicate GoesTo(c: Config, s: State, b: Task, a: Action, place: Place)
    requires WellFormed(c, s) && Enabled(c, s, b, a)
  {
    !NextPc(c, s, b, a).Done? && PlaceOf(NextPc(c, s, b, a)) == place && !CompletesRun(s.pc[b], a)
  }

  lemma AdvanceTo(c: Config, reach: iset<State>, s: State, b: Task, a: Action, place: Place)
    returns (s': State)
    requires c.Valid() && Closed(c, reach) && s in reach && Alone(c, s, b)
    requires Enabled(c, s, b, a) && GoesTo(c, s, b, a, place)
    ensures At(c, reach, s', b, place)
  {
    s' := Advance(c, reach, s, b, a);
  }

  /** Its worker finds nothing written for it. */
  lemma Come(c: Config, reach: iset<State>, b: Task) returns (s: State)
    requires c.Valid() && Closed(c, reach) && c.Has(b)
    ensures s in reach && Alone(c, s, b) && s.pc[b] == Checked && OwnRows(s.batchRows[b.node], b.batch) == {}
  {
    s := LastOne(c, reach, b);
    s := Advance(c, reach, s, b, CheckRun);
  }

  lemma Decide(c: Config, reach: iset<State>, b: Task) returns (s: State)
    requires c.Valid() && Closed(c, reach) && c.Has(b)
    ensures s in reach && Alone(c, s, b) && s.pc[b] == Ready && OwnRows(s.batchRows[b.node], b.batch) == {}
  {
    s := Come(c, reach, b);
    s := Advance(c, reach, s, b, CheckBatch(None, 0));
  }

  lemma BeginNode(c: Config, reach: iset<State>, b: Task) returns (s: State)
    requires c.Valid() && Closed(c, reach) && c.Has(b)
    ensures s in reach && Alone(c, s, b) && s.pc[b] == NodeStarted && OwnRows(s.batchRows[b.node], b.batch) == {}
  {
    s := Decide(c, reach, b);
    s := Advance(c, reach, s, b, WriteNodeStart);
  }

  lemma BeginBatch(c: Config, reach: iset<State>, b: Task) returns (s: State, ts: int)
    requires c.Valid() && Closed(c, reach) && c.Has(b)
    ensures s in reach && Alone(c, s, b) && s.pc[b] == Working && ReadsBatch(s, b, Start, ts)
  {
    s := BeginNode(c, reach, b);
    assert Inv(c, s);
    ts := s.clock;
    FirstRow(s.batchRows[b.node], Row(ts, b.batch, c.total[b.node], Start));
    s := Advance(c, reach, s, b, WriteBatchStart);
  }

  lemma EndBatch(c: Config, reach: iset<State>, b: Task) returns (s: State)
    requires c.Valid() && Closed(c, reach) && c.Has(b)
    ensures At(c, reach, s, b, BeforeFold)
  {
    var ts;
    s, ts := BeginBatch(c, reach, b);
    s := AdvanceTo(c, reach, s, b, WriteTerminal(Fail), BeforeFold);
  }

  lemma FoldNode(c: Config, reach: iset<State>, b: Task) returns (s: State)
    requires c.Valid() && Closed(c, reach) && c.Has(b)
    ensures At(c, reach, s, b, InNode)
  {
    s := EndBatch(c, reach, b);
    s := AdvanceTo(c, reach, s, b, FoldBatches, InNode);
  }

  lemma EndNode(c: Config, reach: iset<State>, b: Task) returns (s: State)
    requires c.Valid() && Closed(c, reach) && c.Has(b)
    ensures At(c, reach, s, b, BeforeRunFold)
  {
    s := FoldNode(c, reach, b);
    s := AdvanceTo(c, reach, s, b, WriteNode, BeforeRunFold);
  }

  lemma MayFoldRun(c: Config, s: State, b: Task) returns (a: Action)
    requires WellFormed(c, s) && c.Has(b) && s.pc[b] == NodeDone
    ensures Enabled(c, s, b, a) && GoesTo(c, s, b, a, InRun)
  {
    var statuses, st := FoldExists(c, s);
    a := FoldNodes(statuses, st);
  }

  lemma FoldRun(c: Config, reach: iset<State>, b: Task) returns (s: State)
    requires c.Valid() && Closed(c, reach) && c.Has(b)
    ensures At(c, reach, s, b, InRun)
  {
    s := EndNode(c, reach, b);
    var a := MayFoldRun(c, s, b);
    s := AdvanceTo(c, reach, s, b, a, InRun);
  }

  /** The worker of the last message reaches any place at which it may have to leave. */
  lemma Reach(c: Config, reach: iset<State>, b: Task, place: Place) returns (s: State)
    requires c.Valid() && Closed(c, reach) && c.Has(b) && place != AfterStop && place != InCleanup && place != InStart
    ensures At(c, reach, s, b, place)
  {
    match place
    case BeforeRun => s := LastOne(c, reach, b);
    case BeforeBatch => s := Come(c, reach, b);
    case BeforeNode => s := Decide(c, reach, b);
    case BeforeStart => s := BeginNode(c, reach, b);
    case InWork => var ts; s, ts := BeginBatch(c, reach, b);
    case _ => s := ReachEnd(c, reach, b, place);
  }

  lemma ReachEnd(c: Config, reach: iset<State>, b: Task, place: Place) returns (s: State)
    requires c.Valid() && Closed(c, reach) && c.Has(b)
    requires place.BeforeFold? || place.InNode? || place.BeforeRunFold? || place.InRun?
    ensures At(c, reach, s, b, place)
  {
    match place
    case BeforeFold => s := EndBatch(c, reach, b);
    case InNode => s := FoldNode(c, reach, b);
    case BeforeRunFold => s := EndNode(c, reach, b);
    case _ => s := FoldRun(c, reach, b);
  }

  /** It dies while it works. */
  lemma Die(c: Config, reach: iset<State>, b: Task) returns (s: State, ts: int)
    requires c.Valid() && Closed(c, reach) && c.Has(b)
    ensures s in reach && Alone(c, s, b) && s.pc[b] == Idle && ReadsBatch(s, b, Start, ts)
  {
    s, ts := BeginBatch(c, reach, b);
    s := Advance(c, reach, s, b, Crash);
  }

  /** The next worker finds the abandoned batch. */
  lemma Abandon(c: Config, reach: iset<State>, b: Task) returns (s: State, ts: int)
    requires c.Valid() && Closed(c, reach) && c.Has(b)
    ensures s in reach && Alone(c, s, b) && s.pc[b] == Checked && ReadsBatch(s, b, Start, ts)
  {
    s, ts := Die(c, reach, b);
    s := Advance(c, reach, s, b, CheckRun);
  }

  lemma Lose(c: Config, reach: iset<State>, e: Exit) returns (s: State)
    requires c.Valid() && Closed(c, reach) && e in c.exits && c.Has(e.task) && e.place != AfterStop
    ensures s in reach && WellFormed(c, s) && AllDone(c, s) && s.runRows == [RunStart]
  {
    if e.place == InCleanup {
      var ts;
      s, ts := Abandon(c, reach, e.task);
      s := Advance(c, reach, s, e.task, GiveUpCleanup(ts));
    } else if e.place == InStart {
      s := BeginNode(c, reach, e.task);
      s := Advance(c, reach, s, e.task, GiveUpStart);
    } else {
      s := Reach(c, reach, e.task, e.place);
      s := Advance(c, reach, s, e.task, Quit);
    }
  }

  /** A schedule in which all messages are acknowledged and the run is never complete. */
  lemma LosingRun(c: Config, e: Exit) returns (s: State)
    requires c.Valid() && e in c.exits && c.Has(e.task) && e.place != AfterStop
    ensures Reachable(c, s) && WellFormed(c, s) && AllDone(c, s) && s.runRows == [RunStart]
  {
    var reach := R.States(Starts(c), Steps(c));
    RunsAreClosed(c);
    s := Lose(c, reach, e);
  }

  /** Completion is guaranteed for every schedule exactly when no batch of the run has an exit. */
  lemma AlwaysCompletesIff(c: Config)
    requires c.Valid()
    ensures AlwaysCompletes(c) <==> NoExits(c)
  {
    if NoExits(c) {
      forall s | Reachable(c, s) && WellFormed(c, s) && AllDone(c, s) && RunStop !in s.runRows
        ensures RunComplete in s.runRows
      {
        CompletionIsNotLost(c, s);
      }
    } else {
      var e :| e in c.exits && c.Has(e.task) && e.place != AfterStop;
      var s := LosingRun(c, e);
    }
  }

  lemma InitState(c: Config) returns (s: State)
    requires c.Valid()
    ensures Init(c, s)
  {
    var pc := AllTasks(c, c.total.Keys);
    s := State(0, map n | n in c.total :: {}, {}, [RunStart], pc);
  }

  lemma {:induction false} AllTasks(c: Config, nodes: set<string>) returns (pc: map<Task, Pc>)
    requires nodes <= c.total.Keys
    ensures forall t :: t in pc <==> t.node in nodes && 0 <= t.batch < c.total[t.node]
    ensures forall t :: t in pc ==> pc[t] == Idle
  {
    pc := map[];
    if n :| n in nodes {
      var rest := AllTasks(c, nodes - {n});
      pc := rest + (map i | 0 <= i < c.total[n] :: Task(n, i) := Idle);
      forall t ensures t in pc <==> t.node in nodes && 0 <= t.batch < c.total[t.node] {
        if t.node == n && 0 <= t.batch < c.total[n] {
          assert t == Task(n, t.batch);
        }
      }
    }
  }
}
