/** One batch's inserter: the producer hands records to a pool of workers over a bounded channel,
    every worker reports a status per record over another one, and a drainer counts the statuses. */
module Drainer {
  import opened Permutation
  import R = Reachability

  const MAX_INSERTER_ERRORS: nat := 5

  /** `timeouts` tells whether waiting for a status can take longer than the drainer allows. */
  datatype Config = Config(total: nat, workers: nat, timeouts: bool) {
    predicate Valid() {
      workers > 0
    }
  }

  datatype Handled = Handled(record: nat, ok: bool)

  /** `Added`: the record is in the channel and not counted yet; `Waiting`: for the drainer;
      `Closing`: the channel is closed, waiting for the workers. */
  datatype Producer = Sending | Adding | Added | Waiting | Closing | Closed

  /** `Complete` carries what the producer gets: whether the drainer found no error. */
  datatype DrainerPc = Draining | Complete(ok: bool)

  /** The producer, the number of records it has added and counted, and its signals to the drainer.
      Records are numbered in the order in which they are added. */
  datatype Feed = Feed(producer: Producer, next: nat, recordsSent: nat, doneSignal: bool, cancelSignal: bool)

  /** `held` are the records being written, `reporting` the statuses workers wait to hand over,
      `exited` the workers that have left; the other workers are idle. `log` remembers what happened. */
  datatype Pool = Pool(
    recordsIn: seq<nat>,
    held: seq<nat>,
    reporting: seq<bool>,
    statuses: seq<bool>,
    exited: nat,
    log: seq<Handled>)

  /** `interrupted` remembers a timeout or a cancellation. */
  datatype Drain = Drain(
    recordsProcessed: nat,
    errorsFound: nat,
    stillSending: bool,
    pc: DrainerPc,
    interrupted: bool)

  datatype State = State(feed: Feed, pool: Pool, drain: Drain)

  datatype Action =
    | BeginAdd
    | Put
    | CountSent
    | DoneSending
    | CancelDrainer
    | Take
    | Write(k: nat, ok: bool)
    | Report(k: nat)
    | DrainOne
    | TimeOut
    | SeeCancel
    | SeeDone
    | CompleteDraining
    | ReceiveResult
    | Exit
    | Close

  const INITIAL :=
    State(Feed(Sending, 0, 0, false, false), Pool([], [], [], [], 0, []), Drain(0, 0, true, Draining, false))

  function Idle(c: Config, p: Pool): int {
    c.workers - |p.held| - |p.reporting| - p.exited
  }

  /** The condition of the drainer's loop. */
  predicate MoreToDrain(f: Feed, d: Drain) {
    d.stillSending || f.recordsSent > d.recordsProcessed
  }

  predicate InSelect(f: Feed, d: Drain) {
    d.pc == Draining && MoreToDrain(f, d)
  }

  predicate Enabled(c: Config, s: State, a: Action) {
    var f, p, d := s.feed, s.pool, s.drain;
    match a
    case BeginAdd => f.producer == Sending && f.next < c.total
    case Put => f.producer == Adding && f.next < c.total && |p.recordsIn| < c.workers
    case CountSent => f.producer == Added
    case DoneSending => f.producer == Sending && f.next == c.total
    case CancelDrainer => f.producer == Sending
    case Take => p.recordsIn != [] && Idle(c, p) > 0
    case Write(k, ok) => k < |p.held|
    case Report(k) => k < |p.reporting| && |p.statuses| < c.workers
    case DrainOne => InSelect(f, d) && p.statuses != []
    case TimeOut => InSelect(f, d) && c.timeouts
    case SeeCancel => InSelect(f, d) && f.cancelSignal
    case SeeDone => InSelect(f, d) && f.doneSignal
    case CompleteDraining => d.pc == Draining && !MoreToDrain(f, d)
    case ReceiveResult => f.producer == Waiting && d.pc.Complete?
    case Exit => f.producer == Closing && p.recordsIn == [] && Idle(c, p) > 0
    case Close => f.producer == Closing && p.exited == c.workers
  }

  /** A status error is kept only while there are few; the fifth error adds a remark. */
  function AddStatus(errors: nat, ok: bool): nat {
    if ok then errors
    else
      var kept := if errors < MAX_INSERTER_ERRORS then errors + 1 else errors;
      if kept == MAX_INSERTER_ERRORS then kept + 1 else kept
  }

  function AddError(errors: nat): nat {
    if errors + 1 == MAX_INSERTER_ERRORS then errors + 2 else errors + 1
  }

  function NextFeed(f: Feed, a: Action): Feed {
    match a
    case BeginAdd => f.(producer := Adding)
    case Put => f.(producer := Added, next := f.next + 1)
    case CountSent => f.(producer := Sending, recordsSent := f.recordsSent + 1)
    case DoneSending => f.(producer := Waiting, doneSignal := true)
    case CancelDrainer => f.(producer := Waiting, cancelSignal := true)
    case SeeCancel => f.(cancelSignal := false)
    case SeeDone => f.(doneSignal := false)
    case ReceiveResult => f.(producer := Closing)
    case Close => f.(producer := Closed)
    case _ => f
  }

  function NextPool(p: Pool, next: nat, a: Action): Pool {
    match a
    case Put => p.(recordsIn := p.recordsIn + [next])
    case Take => if p.recordsIn == [] then p else p.(recordsIn := p.recordsIn[1..], held := p.held + [p.recordsIn[0]])
    case Write(k, ok) =>
      if k >= |p.held| then p
      else p.(held := Drop(p.held, k), reporting := p.reporting + [ok], log := p.log + [Handled(p.held[k], ok)])
    case Report(k) =>
      if k >= |p.reporting| then p
      else p.(reporting := Drop(p.reporting, k), statuses := p.statuses + [p.reporting[k]])
    case DrainOne => if p.statuses == [] then p else p.(statuses := p.statuses[1..])
    case Exit => p.(exited := p.exited + 1)
    case _ => p
  }

  function Interrupt(d: Drain): Drain {
    d.(errorsFound := AddError(d.errorsFound), stillSending := false, interrupted := true)
  }

  function NextDrain(d: Drain, statuses: seq<bool>, a: Action): Drain {
    match a
    case DrainOne =>
      if statuses == [] then d
      else d.(recordsProcessed := d.recordsProcessed + 1, errorsFound := AddStatus(d.errorsFound, statuses[0]))
    case TimeOut => Interrupt(d)
    case SeeCancel => Interrupt(d)
    case SeeDone => d.(stillSending := false)
    case CompleteDraining => d.(pc := Complete(d.errorsFound == 0))
    case _ => d
  }

  function Apply(s: State, a: Action): State {
    State(NextFeed(s.feed, a), NextPool(s.pool, s.feed.next, a), NextDrain(s.drain, s.pool.statuses, a))
  }

  ghost predicate Next(c: Config, s: State, t: State) {
    exists a :: Enabled(c, s, a) && t == Apply(s, a)
  }

  ghost function Steps(c: Config): (State, State) -> bool {
    (s, t) => Next(c, s, t)
  }

  ghost function Starts(): State -> bool {
    s => s == INITIAL
  }

  ghost predicate Reachable(c: Config, s: State) {
    s in R.States(Starts(), Steps(c))
  }

  lemma Extend(c: Config, s: State, a: Action)
    requires Reachable(c, s) && Enabled(c, s, a)
    ensures Reachable(c, Apply(s, a))
  {
    assert Next(c, s, Apply(s, a));
    R.OneMoreStep(Starts(), Steps(c), s, Apply(s, a));
  }

  // ---------------------------------------------------------------- what every step keeps

  function RecordOf(h: Handled): nat {
    h.record
  }

  function IsBad(ok: bool): int {
    if ok then 0 else 1
  }

  function IsBadRecord(h: Handled): int {
    IsBad(h.ok)
  }

  function Bad(statuses: seq<bool>): int {
    SumOf(IsBad, statuses)
  }

  function BadRecords(log: seq<Handled>): int {
    SumOf(IsBadRecord, log)
  }

  /** Each added record is in the channel, held by one worker or handled, and only once. */
  predicate OncePlaced(next: nat, p: Pool, r: nat) {
    Times(p.recordsIn, r) + Times(p.held, r) + Times(Map(RecordOf, p.log), r) == if r < next then 1 else 0
  }

  /** How much there is of everything in the pool. */
  datatype Load = Load(recordsIn: nat, held: nat, reporting: nat, statuses: nat, log: nat)

  function LoadOf(p: Pool): Load {
    Load(|p.recordsIn|, |p.held|, |p.reporting|, |p.statuses|, |p.log|)
  }

  predicate LoadChanges(l: Load, l': Load, a: Action) {
    match a
    case Put => l' == l.(recordsIn := l.recordsIn + 1)
    case Take => l.recordsIn > 0 && l' == l.(recordsIn := l.recordsIn - 1, held := l.held + 1)
    case Write(_, _) => l.held > 0 && l' == l.(held := l.held - 1, reporting := l.reporting + 1, log := l.log + 1)
    case Report(_) => l.reporting > 0 && l' == l.(reporting := l.reporting - 1, statuses := l.statuses + 1)
    case DrainOne => l.statuses > 0 && l' == l.(statuses := l.statuses - 1)
    case _ => l' == l
  }

  predicate Balanced(c: Config, f: Feed, l: Load, exited: nat, processed: nat) {
    && l.recordsIn + l.held + l.log == f.next <= c.total
    && l.log == l.reporting + l.statuses + processed
    && f.next == f.recordsSent + One(f.producer == Added)
    && l.held + l.reporting + exited <= c.workers && l.statuses <= c.workers && l.recordsIn <= c.workers
  }

  predicate IsBalanced(c: Config, s: State) {
    Balanced(c, s.feed, LoadOf(s.pool), s.pool.exited, s.drain.recordsProcessed)
  }

  /** What the numbers have to do with an action. */
  predicate HasRoom(c: Config, f: Feed, l: Load, exited: nat, a: Action) {
    match a
    case Put => f.producer == Adding && f.next < c.total && l.recordsIn < c.workers
    case Take => l.held + l.reporting + exited < c.workers
    case Report(_) => l.statuses < c.workers
    case Exit => l.held + l.reporting + exited < c.workers
    case BeginAdd => f.producer == Sending
    case CountSent => f.producer == Added
    case DoneSending => f.producer == Sending
    case CancelDrainer => f.producer == Sending
    case ReceiveResult => f.producer == Waiting
    case Close => f.producer == Closing
    case _ => true
  }

  function One(b: bool): nat {
    if b then 1 else 0
  }

  /** What the drainer has not found yet is still on its way to it. */
  predicate ErrorsSeen(p: Pool, d: Drain) {
    && 0 <= Bad(p.reporting) && 0 <= Bad(p.statuses)
    && Bad(p.reporting) + Bad(p.statuses) <= BadRecords(p.log)
    && (d.errorsFound == 0 <==> !d.interrupted && BadRecords(p.log) == Bad(p.reporting) + Bad(p.statuses))
  }

  predicate Busy(p: Producer) {
    p == Sending || p == Adding || p == Added
  }

  predicate Over(p: Producer) {
    p == Closing || p == Closed
  }

  predicate SignalsOk(c: Config, f: Feed, d: Drain) {
    && (Busy(f.producer) ==> !f.doneSignal && !f.cancelSignal)
    && (f.producer == Adding ==> f.next < c.total)
    && (f.producer == Waiting && d.stillSending ==> f.doneSignal || f.cancelSignal)
    && (f.doneSignal ==> f.next == c.total)
    && (!d.interrupted && !d.stillSending ==> f.next == c.total)
    && (!d.interrupted && !Busy(f.producer) ==> f.cancelSignal || f.next == c.total)
    && (Busy(f.producer) && !d.stillSending ==> c.timeouts && d.interrupted)
    && (Over(f.producer) ==> d.pc.Complete?)
  }

  predicate ResultOk(c: Config, f: Feed, d: Drain) {
    d.pc.Complete? ==>
      && !d.stillSending && (d.pc.ok <==> d.errorsFound == 0)
      && (!c.timeouts || !d.interrupted ==> f.recordsSent <= d.recordsProcessed)
  }

  predicate ExitsOk(c: Config, p: Pool, producer: Producer) {
    && (p.exited > 0 ==> p.recordsIn == [] && Over(producer))
    && (producer == Closed ==> p.exited == c.workers)
  }

  ghost predicate Inv(c: Config, s: State) {
    && (forall r :: OncePlaced(s.feed.next, s.pool, r))
    && IsBalanced(c, s) && ErrorsSeen(s.pool, s.drain)
    && SignalsOk(c, s.feed, s.drain) && ResultOk(c, s.feed, s.drain) && ExitsOk(c, s.pool, s.feed.producer)
  }

  lemma TakeFirst(xs: seq<nat>, x: nat)
    requires xs != []
    ensures Times(xs, x) == Times(xs[1..], x) + if xs[0] == x then 1 else 0
  {
    WithoutOne((y: nat) => y, xs, 0, x);
    assert Drop(xs, 0) == xs[1..];
  }

  lemma MapLast(log: seq<Handled>, h: Handled)
    ensures Map(RecordOf, log + [h]) == Map(RecordOf, log) + [h.record]
  {
    assert (log + [h])[..|log|] == log;
  }

  lemma TakeKeepsPlaces(next: nat, p: Pool, r: nat)
    requires p.recordsIn != [] && OncePlaced(next, p, r)
    ensures OncePlaced(next, NextPool(p, next, Take), r)
  {
    TakeFirst(p.recordsIn, r);
    TimesLast(p.held, p.recordsIn[0], r);
  }

  lemma WriteKeepsPlaces(next: nat, p: Pool, k: nat, ok: bool, r: nat)
    requires k < |p.held| && OncePlaced(next, p, r)
    ensures OncePlaced(next, NextPool(p, next, Write(k, ok)), r)
  {
    WithoutOne((y: nat) => y, p.held, k, r);
    MapLast(p.log, Handled(p.held[k], ok));
    TimesLast(Map(RecordOf, p.log), p.held[k], r);
  }

  lemma StepOncePlaced(c: Config, s: State, a: Action, r: nat)
    requires Enabled(c, s, a) && OncePlaced(s.feed.next, s.pool, r)
    ensures OncePlaced(NextFeed(s.feed, a).next, NextPool(s.pool, s.feed.next, a), r)
  {
    match a
    case Put => TimesLast(s.pool.recordsIn, s.feed.next, r);
    case Take => TakeKeepsPlaces(s.feed.next, s.pool, r);
    case Write(k, ok) => WriteKeepsPlaces(s.feed.next, s.pool, k, ok, r);
    case _ =>
  }

  lemma StepLoad(c: Config, s: State, a: Action)
    requires Enabled(c, s, a)
    ensures LoadChanges(LoadOf(s.pool), LoadOf(NextPool(s.pool, s.feed.next, a)), a)
  {
    match a
    case Write(k, ok) => assert |Drop(s.pool.held, k)| == |s.pool.held| - 1;
    case Report(k) => assert |Drop(s.pool.reporting, k)| == |s.pool.reporting| - 1;
    case _ =>
  }

  predicate MovesRecords(a: Action) {
    a.Put? || a.Take? || a.Write? || a.Report? || a.DrainOne? || a.Exit?
  }

  lemma PoolBalances(c: Config, f: Feed, l: Load, l': Load, exited: nat, processed: nat, a: Action)
    requires Balanced(c, f, l, exited, processed) && LoadChanges(l, l', a) && HasRoom(c, f, l, exited, a)
    requires MovesRecords(a)
    ensures Balanced(c, NextFeed(f, a), l', exited + One(a == Exit), processed + One(a == DrainOne))
  {
  }

  lemma FeedBalances(c: Config, f: Feed, l: Load, l': Load, exited: nat, processed: nat, a: Action)
    requires Balanced(c, f, l, exited, processed) && LoadChanges(l, l', a) && HasRoom(c, f, l, exited, a)
    requires !MovesRecords(a)
    ensures Balanced(c, NextFeed(f, a), l', exited, processed)
  {
  }

  lemma NumbersBalance(c: Config, f: Feed, l: Load, l': Load, exited: nat, processed: nat, a: Action)
    requires Balanced(c, f, l, exited, processed) && LoadChanges(l, l', a) && HasRoom(c, f, l, exited, a)
    ensures Balanced(c, NextFeed(f, a), l', exited + One(a == Exit), processed + One(a == DrainOne))
  {
    if MovesRecords(a) {
      PoolBalances(c, f, l, l', exited, processed, a);
    } else {
      FeedBalances(c, f, l, l', exited, processed, a);
    }
  }

  lemma StepBalanced(c: Config, s: State, a: Action)
    requires IsBalanced(c, s) && Enabled(c, s, a)
    ensures IsBalanced(c, Apply(s, a))
  {
    StepLoad(c, s, a);
    var l, l' := LoadOf(s.pool), LoadOf(NextPool(s.pool, s.feed.next, a));
    assert HasRoom(c, s.feed, l, s.pool.exited, a);
    NumbersBalance(c, s.feed, l, l', s.pool.exited, s.drain.recordsProcessed, a);
    assert NextPool(s.pool, s.feed.next, a).exited == s.pool.exited + One(a == Exit);
    assert NextDrain(s.drain, s.pool.statuses, a).recordsProcessed == s.drain.recordsProcessed + One(a == DrainOne);
  }

  lemma {:induction false} BadIsCount(statuses: seq<bool>)
    ensures Bad(statuses) >= 0
  {
    if statuses != [] {
      BadIsCount(statuses[..|statuses| - 1]);
    }
  }

  lemma WriteSeesErrors(p: Pool, d: Drain, next: nat, k: nat, ok: bool)
    requires k < |p.held| && ErrorsSeen(p, d)
    ensures ErrorsSeen(NextPool(p, next, Write(k, ok)), d)
  {
    SumOfLast(IsBad, p.reporting, ok);
    SumOfLast(IsBadRecord, p.log, Handled(p.held[k], ok));
  }

  lemma ReportSeesErrors(p: Pool, d: Drain, next: nat, k: nat)
    requires k < |p.reporting| && ErrorsSeen(p, d)
    ensures ErrorsSeen(NextPool(p, next, Report(k)), d)
  {
    WithoutOne(IsBad, p.reporting, k, true);
    SumOfLast(IsBad, p.statuses, p.reporting[k]);
    BadIsCount(Drop(p.reporting, k));
  }

  lemma DrainSeesErrors(p: Pool, d: Drain, next: nat)
    requires p.statuses != [] && ErrorsSeen(p, d)
    ensures ErrorsSeen(NextPool(p, next, DrainOne), NextDrain(d, p.statuses, DrainOne))
  {
    WithoutOne(IsBad, p.statuses, 0, true);
    assert Drop(p.statuses, 0) == p.statuses[1..];
    BadIsCount(p.statuses[1..]);
  }

  lemma StepErrors(c: Config, s: State, a: Action)
    requires ErrorsSeen(s.pool, s.drain) && Enabled(c, s, a)
    ensures ErrorsSeen(NextPool(s.pool, s.feed.next, a), NextDrain(s.drain, s.pool.statuses, a))
  {
    match a
    case Write(k, ok) => WriteSeesErrors(s.pool, s.drain, s.feed.next, k, ok);
    case Report(k) => ReportSeesErrors(s.pool, s.drain, s.feed.next, k);
    case DrainOne => DrainSeesErrors(s.pool, s.drain, s.feed.next);
    case _ =>
  }

  lemma StepSignals(c: Config, s: State, a: Action)
    requires Enabled(c, s, a) && SignalsOk(c, s.feed, s.drain)
    ensures SignalsOk(c, NextFeed(s.feed, a), NextDrain(s.drain, s.pool.statuses, a))
  {
  }

  lemma StepResult(c: Config, s: State, a: Action)
    requires Enabled(c, s, a) && SignalsOk(c, s.feed, s.drain) && ResultOk(c, s.feed, s.drain)
    ensures ResultOk(c, NextFeed(s.feed, a), NextDrain(s.drain, s.pool.statuses, a))
  {
  }

  lemma StepExits(c: Config, s: State, a: Action)
    requires Enabled(c, s, a) && ExitsOk(c, s.pool, s.feed.producer)
    ensures ExitsOk(c, NextPool(s.pool, s.feed.next, a), NextFeed(s.feed, a).producer)
  {
  }

  lemma StepInv(c: Config, s: State, a: Action)
    requires Inv(c, s) && Enabled(c, s, a)
    ensures Inv(c, Apply(s, a))
  {
    forall r ensures OncePlaced(NextFeed(s.feed, a).next, NextPool(s.pool, s.feed.next, a), r) {
      StepOncePlaced(c, s, a, r);
    }
    StepBalanced(c, s, a);
    StepErrors(c, s, a);
    StepSignals(c, s, a);
    StepResult(c, s, a);
    StepExits(c, s, a);
  }

  lemma NextInv(c: Config, s: State, t: State)
    requires Inv(c, s) && Next(c, s, t)
    ensures Inv(c, t)
  {
    var a :| Enabled(c, s, a) && t == Apply(s, a);
    StepInv(c, s, a);
  }

  lemma InitInv(c: Config)
    ensures Inv(c, INITIAL)
  {
    forall r ensures OncePlaced(0, INITIAL.pool, r) {
      assert Map(RecordOf, INITIAL.pool.log) == [];
    }
  }

  ghost function Invariant(c: Config): State -> bool {
    s => Inv(c, s)
  }

  lemma StartsKeep(c: Config)
    ensures R.Begins(Starts(), Invariant(c))
  {
    InitInv(c);
  }

  lemma StepsKeep(c: Config)
    ensures R.Keeps(Steps(c), Invariant(c))
  {
    forall s, t | Inv(c, s) && Next(c, s, t) ensures Inv(c, t) {
      NextInv(c, s, t);
    }
  }

  lemma ReachableInv(c: Config, s: State)
    requires Reachable(c, s)
    ensures Inv(c, s)
  {
    StartsKeep(c);
    StepsKeep(c);
    R.Always(Starts(), Steps(c), Invariant(c), s);
  }

  // ---------------------------------------------------------------- what the result means

  lemma {:induction false} NoBadRecord(log: seq<Handled>, k: nat)
    requires BadRecords(log) == 0 && k < |log|
    ensures log[k].ok
  {
    NotNegative(log[..|log| - 1]);
    if k < |log| - 1 {
      NoBadRecord(log[..|log| - 1], k);
    }
  }

  lemma {:induction false} NotNegative(log: seq<Handled>)
    ensures BadRecords(log) >= 0
  {
    if log != [] {
      NotNegative(log[..|log| - 1]);
    }
  }

  /** When the producer gets no error, every record was added, and each was written once, and
      without an error, whatever the schedule and however slow the database was. */
  lemma NoErrorMeansAllWritten(c: Config, s: State, r: nat)
    requires Reachable(c, s) && s.drain.pc == Complete(true)
    ensures s.feed.next == c.total == s.feed.recordsSent == s.drain.recordsProcessed == |s.pool.log|
    ensures Times(Map(RecordOf, s.pool.log), r) == if r < c.total then 1 else 0
    ensures forall k :: 0 <= k < |s.pool.log| ==> s.pool.log[k].ok
  {
    ReachableInv(c, s);
    var p := s.pool;
    assert OncePlaced(s.feed.next, p, r);
    assert p.recordsIn == [] && p.held == [] && p.reporting == [] && p.statuses == [];
    forall k | 0 <= k < |p.log| ensures p.log[k].ok {
      NoBadRecord(p.log, k);
    }
  }

  // ---------------------------------------------------------------- when everything comes to its end

  ghost predicate Moves(c: Config, s: State) {
    exists a :: Enabled(c, s, a)
  }

  predicate HandsFull(p: Pool) {
    p.recordsIn != [] || p.held != [] || p.reporting != []
  }

  /** In every schedule there is a next step until all is closed. */
  ghost predicate NeverStuck(c: Config) {
    forall s :: Reachable(c, s) ==> s.feed.producer == Closed || Moves(c, s)
  }

  /** While a worker has a record or a status in its hands, something moves. */
  lemma WorkersMove(c: Config, s: State)
    requires c.Valid() && Inv(c, s) && (!c.timeouts || c.total <= c.workers) && HandsFull(s.pool)
    ensures Moves(c, s)
  {
    if s.pool.held != [] {
      assert Enabled(c, s, Write(0, true));
    } else if s.pool.reporting != [] {
      if |s.pool.statuses| < c.workers {
        assert Enabled(c, s, Report(0));
      } else {
        assert Enabled(c, s, if s.feed.producer == Added then CountSent else DrainOne);
      }
    } else {
      assert Enabled(c, s, Take);
    }
  }

  /** Otherwise the producer or the drainer does. */
  lemma TheOthersMove(c: Config, s: State)
    requires c.Valid() && Inv(c, s) && s.feed.producer != Closed && !HandsFull(s.pool)
    ensures Moves(c, s)
  {
    match s.feed.producer
    case Sending => assert Enabled(c, s, CancelDrainer);
    case Adding => assert Enabled(c, s, Put);
    case Added => assert Enabled(c, s, CountSent);
    case Waiting => DrainerMoves(c, s);
    case Closing => assert Enabled(c, s, if s.pool.exited == c.workers then Close else Exit);
  }

  lemma DrainerMoves(c: Config, s: State)
    requires Inv(c, s) && s.feed.producer == Waiting && !HandsFull(s.pool)
    ensures Moves(c, s)
  {
    if s.drain.pc.Complete? {
      assert Enabled(c, s, ReceiveResult);
    } else if s.drain.stillSending {
      assert Enabled(c, s, if s.feed.doneSignal then SeeDone else SeeCancel);
    } else {
      assert Enabled(c, s, if MoreToDrain(s.feed, s.drain) then DrainOne else CompleteDraining);
    }
  }

  function Rank(p: Producer): nat {
    match p
    case Added => 5
    case Sending => 4
    case Adding => 3
    case Waiting => 2
    case Closing => 1
    case Closed => 0
  }

  /** What is left to do for the pool, and for the producer and the drainer. */
  function PoolWork(l: Load): int {
    4 * l.recordsIn + 3 * l.held + 2 * l.reporting + l.statuses
  }

  function FeedWork(c: Config, f: Feed): int {
    7 * (c.total - f.next) + Rank(f.producer) + One(f.doneSignal) + One(f.cancelSignal)
  }

  function Work(c: Config, s: State): int {
    FeedWork(c, s.feed) + PoolWork(LoadOf(s.pool)) + c.workers - s.pool.exited + One(s.drain.pc == Draining)
  }

  lemma WorkIsNatural(c: Config, s: State)
    requires IsBalanced(c, s)
    ensures Work(c, s) >= 0
  {
  }

  function FeedChange(a: Action): int {
    match a
    case Put => -5
    case BeginAdd => -1
    case CountSent => -1
    case DoneSending => -1
    case CancelDrainer => -1
    case SeeCancel => -1
    case SeeDone => -1
    case ReceiveResult => -1
    case Close => -1
    case _ => 0
  }

  function PoolChange(a: Action): int {
    if a == Put then 4 else if a.Take? || a.Write? || a.Report? || a.DrainOne? then -1 else 0
  }

  lemma FeedWorks(c: Config, s: State, a: Action)
    requires Enabled(c, s, a) && SignalsOk(c, s.feed, s.drain)
    ensures FeedWork(c, NextFeed(s.feed, a)) == FeedWork(c, s.feed) + FeedChange(a)
  {
  }

  lemma PoolWorks(l: Load, l': Load, a: Action)
    requires LoadChanges(l, l', a)
    ensures PoolWork(l') == PoolWork(l) + PoolChange(a)
  {
  }

  lemma StepWorks(c: Config, s: State, a: Action)
    requires Enabled(c, s, a) && SignalsOk(c, s.feed, s.drain)
    ensures if a == TimeOut then Work(c, Apply(s, a)) == Work(c, s) else Work(c, Apply(s, a)) < Work(c, s)
  {
    StepLoad(c, s, a);
    FeedWorks(c, s, a);
    PoolWorks(LoadOf(s.pool), LoadOf(NextPool(s.pool, s.feed.next, a)), a);
  }

  /** The actions can be taken one after the other. */
  predicate IsSchedule(c: Config, s: State, actions: seq<Action>)
    decreases |actions|
  {
    actions == [] || (Enabled(c, s, actions[0]) && IsSchedule(c, Apply(s, actions[0]), actions[1..]))
  }

  function OtherThanTimeouts(actions: seq<Action>): nat {
    if actions == [] then 0 else One(actions[0] != TimeOut) + OtherThanTimeouts(actions[1..])
  }

  /** Apart from timeouts, no schedule is longer than the work there is. */
  lemma {:induction false} SchedulesAreFinite(c: Config, s: State, actions: seq<Action>)
    requires Inv(c, s) && IsSchedule(c, s, actions)
    ensures OtherThanTimeouts(actions) <= Work(c, s)
    decreases |actions|
  {
    if actions == [] {
      WorkIsNatural(c, s);
    } else {
      StepInv(c, s, actions[0]);
      StepWorks(c, s, actions[0]);
      SchedulesAreFinite(c, Apply(s, actions[0]), actions[1..]);
    }
  }

  /** The drainer is gone without having seen a status, and the producer was not told to give up. */
  predicate Gone(c: Config, s: State) {
    s.drain.pc.Complete? && s.drain.recordsProcessed == 0 && (Busy(s.feed.producer) || s.feed.next == c.total)
  }

  lemma GoneStep(c: Config, s: State, a: Action)
    requires Gone(c, s) && Enabled(c, s, a) && a != CancelDrainer
    ensures Gone(c, Apply(s, a)) && a != TimeOut
  {
  }

  /** Nobody empties the channel of statuses, and it does not hold them all. */
  lemma GoneIsNotClosed(c: Config, s: State)
    requires Inv(c, s) && Gone(c, s) && c.total > c.workers
    ensures s.feed.producer != Closed
  {
  }

  lemma {:induction false} GoneGetsStuck(c: Config, s: State) returns (t: State)
    requires Reachable(c, s) && Gone(c, s) && c.total > c.workers
    ensures Reachable(c, t) && t.feed.producer != Closed && !Moves(c, t)
    decreases Work(c, s)
  {
    ReachableInv(c, s);
    WorkIsNatural(c, s);
    GoneIsNotClosed(c, s);
    if Moves(c, s) {
      var a :| Enabled(c, s, a);
      if a == CancelDrainer {
        a := if s.feed.next < c.total then BeginAdd else DoneSending;
      }
      Extend(c, s, a);
      GoneStep(c, s, a);
      StepWorks(c, s, a);
      t := GoneGetsStuck(c, Apply(s, a));
    } else {
      t := s;
    }
  }

  /** Some step is possible in every reachable state until all is closed, exactly when the drainer
      cannot time out, or the channel has room for a status of every record. As schedules are finite
      but for timeouts, the batch then comes to its end unless it times out for ever. */
  lemma NeverStuckIff(c: Config)
    requires c.Valid()
    ensures NeverStuck(c) <==> !c.timeouts || c.total <= c.workers
  {
    if !c.timeouts || c.total <= c.workers {
      forall s | Reachable(c, s) ensures s.feed.producer == Closed || Moves(c, s) {
        ReachableInv(c, s);
        if HandsFull(s.pool) {
          WorkersMove(c, s);
        } else if s.feed.producer != Closed {
          TheOthersMove(c, s);
        }
      }
    } else {
      R.Initially(Starts(), Steps(c), INITIAL);
      Extend(c, INITIAL, TimeOut);
      var late := Apply(INITIAL, TimeOut);
      Extend(c, late, CompleteDraining);
      var t := GoneGetsStuck(c, Apply(late, CompleteDraining));
    }
  }
}
