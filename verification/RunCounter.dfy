/** Handing out run ids: many callers read the counter of a keyspace and try to increment it with a
    compare-and-set, which may also be applied without the caller learning about it. */
module RunCounter {
  import R = Reachability

  const MAX_INT16 := 32767
  const MAX_RETRIES: nat := 100

  /** `Read` carries the value read and the number of the attempt. */
  datatype Caller = Trying(retries: nat) | Read(lastRun: int, retries: nat) | Got(runId: int) | Failed

  datatype State = State(lastRun: int, callers: seq<Caller>)

  datatype Action =
    | ReadCounter(caller: nat)
    | ReadFails(caller: nat)
    | CompareAndSet(caller: nat)
    | Exhausted(caller: nat)
    | SetFails(caller: nat, applied: bool)
    | GiveUp(caller: nat)

  predicate At(s: State, i: nat) {
    i < |s.callers|
  }

  predicate Enabled(s: State, a: Action) {
    match a
    case ReadCounter(i) => At(s, i) && s.callers[i].Trying? && s.callers[i].retries < MAX_RETRIES
    case ReadFails(i) => At(s, i) && s.callers[i].Trying? && s.callers[i].retries < MAX_RETRIES
    case GiveUp(i) => At(s, i) && s.callers[i].Trying? && s.callers[i].retries >= MAX_RETRIES
    case CompareAndSet(i) => At(s, i) && s.callers[i].Read? && s.callers[i].lastRun < MAX_INT16
    case Exhausted(i) => At(s, i) && s.callers[i].Read? && s.callers[i].lastRun >= MAX_INT16
    case SetFails(i, applied) =>
      && At(s, i) && s.callers[i].Read? && s.callers[i].lastRun < MAX_INT16
      && (applied ==> s.callers[i].lastRun == s.lastRun)
  }

  function Set(s: State, i: nat, caller: Caller): State
    requires At(s, i)
  {
    s.(callers := s.callers[i := caller])
  }

  function Apply(s: State, a: Action): State
    requires Enabled(s, a)
  {
    match a
    case ReadCounter(i) => Set(s, i, Read(s.lastRun, s.callers[i].retries))
    case ReadFails(i) => Set(s, i, Failed)
    case GiveUp(i) => Set(s, i, Failed)
    case CompareAndSet(i) =>
      if s.callers[i].lastRun == s.lastRun then Set(s.(lastRun := s.lastRun + 1), i, Got(s.lastRun + 1))
      else Set(s, i, Trying(s.callers[i].retries + 1))
    case Exhausted(i) => Set(s, i, Failed)
    case SetFails(i, applied) => Set(if applied then s.(lastRun := s.lastRun + 1) else s, i, Failed)
  }

  ghost predicate Next(s: State, t: State) {
    exists a :: Enabled(s, a) && t == Apply(s, a)
  }

  ghost function Steps(): (State, State) -> bool {
    (s, t) => Next(s, t)
  }

  function Initial(callers: nat): State {
    State(0, seq(callers, _ => Trying(0)))
  }

  ghost function Starts(callers: nat): State -> bool {
    s => s == Initial(callers)
  }

  ghost predicate Reachable(callers: nat, s: State) {
    s in R.States(Starts(callers), Steps())
  }

  // ---------------------------------------------------------------- every id is handed out once

  predicate GotBoth(s: State, i: nat, j: nat) {
    i < j < |s.callers| && s.callers[i].Got? && s.callers[j].Got?
  }

  ghost predicate Inv(s: State) {
    && 0 <= s.lastRun <= MAX_INT16
    && (forall i :: 0 <= i < |s.callers| ==> CallerOk(s, s.callers[i]))
    && (forall i: nat, j: nat :: GotBoth(s, i, j) ==> s.callers[i].runId != s.callers[j].runId)
  }

  /** What a caller read or got is not newer than the counter. */
  predicate CallerOk(s: State, caller: Caller) {
    && (caller.Read? ==> 0 <= caller.lastRun <= s.lastRun)
    && (caller.Got? ==> 1 <= caller.runId <= s.lastRun)
  }

  lemma StepInv(s: State, a: Action)
    requires Inv(s) && Enabled(s, a)
    ensures Inv(Apply(s, a))
  {
    var t := Apply(s, a);
    forall i | 0 <= i < |t.callers| ensures CallerOk(t, t.callers[i]) {
      assert CallerOk(s, s.callers[i]);
    }
    forall i: nat, j: nat | GotBoth(t, i, j) ensures t.callers[i].runId != t.callers[j].runId {
      assert CallerOk(s, s.callers[i]) && CallerOk(s, s.callers[j]);
      assert s.callers[i].Got? && s.callers[j].Got? ==> GotBoth(s, i, j);
    }
  }

  /** What holds of a state reached by a number of callers. */
  ghost function Invariant(callers: nat): State -> bool {
    (s: State) => Inv(s) && |s.callers| == callers
  }

  lemma StartsKeep(callers: nat)
    ensures R.Begins(Starts(callers), Invariant(callers))
  {
    assert Inv(Initial(callers));
  }

  lemma StepsKeep(callers: nat)
    ensures R.Keeps(Steps(), Invariant(callers))
  {
    forall s, t | Inv(s) && Next(s, t) ensures Inv(t) && |t.callers| == |s.callers| {
      var a :| Enabled(s, a) && t == Apply(s, a);
      StepInv(s, a);
    }
  }

  /** However the callers interleave, and whatever the database fails to report, no two of them get
      the same run id, and every id they get is a positive 16-bit number. */
  lemma RunIdsAreUnique(callers: nat, s: State, i: nat, j: nat)
    requires Reachable(callers, s) && i < j < callers
    ensures |s.callers| == callers
    ensures s.callers[i].Got? ==> 1 <= s.callers[i].runId <= s.lastRun <= MAX_INT16
    ensures s.callers[i].Got? && s.callers[j].Got? ==> s.callers[i].runId != s.callers[j].runId
  {
    StartsKeep(callers);
    StepsKeep(callers);
    R.Always(Starts(callers), Steps(), Invariant(callers), s);
    assert CallerOk(s, s.callers[i]);
    assert s.callers[i].Got? && s.callers[j].Got? ==> GotBoth(s, i, j);
  }
}
