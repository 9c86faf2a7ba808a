/** When a recorded success is exactly one execution of its batch: the schedule in which a clean-up that
    returns early leaves a row of the abandoned attempt beside those of the successful one. */
module OneExecution {
  import opened BatchHistory
  import opened BatchProtocol
  import R = Reachability

  /** In every reachable state every batch recorded as a success has exactly one execution's rows. */
  ghost predicate SuccessesAreWhole<R(!new)>(c: Config<R>) {
    forall s, b :: Reachable(c, s) && b in c.want && b in s.batches && Succeeded(s.batches[b].hist) ==>
      exists placed :: Complete(c, s.db, b, placed)
  }

  // ---------------------------------------------------------------- schedules of one batch

  /** States that schedules lead to: every schedule may go on with a step. */
  ghost predicate Closed<R(!new)>(c: Config<R>, reach: iset<State<R>>) {
    && (forall s :: Init(c, s) ==> s in reach)
    && (forall s, s' :: s in reach && Next(c, s, s') ==> s' in reach)
  }

  lemma RunsAreClosed<R(!new)>(c: Config<R>)
    ensures Closed(c, R.States(Starts(c), Steps(c)))
  {
    forall s | Init(c, s) ensures s in R.States(Starts(c), Steps(c)) {
      R.Initially(Starts(c), Steps(c), s);
    }
    forall s, s' | s in R.States(Starts(c), Steps(c)) && Next(c, s, s') ensures s' in R.States(Starts(c), Steps(c)) {
      R.OneMoreStep(Starts(c), Steps(c), s, s');
    }
  }

  lemma Take<R(!new)>(c: Config<R>, reach: iset<State<R>>, s: State<R>, b: int, a: Action)
    returns (s': State<R>)
    requires Closed(c, reach) && s in reach && Takes(c, s, b, a)
    ensures s' in reach && b in s'.batches && s'.clock == s.clock
    ensures s'.db == NextDb(c, s.db, b, s.batches[b].pc, a)
    ensures s'.batches[b] == NextBatch(s.batches[b], RowOf(c, s.clock, b, a), a)
  {
    s' := Apply(c, s, b, a);
    assert Next(c, s, s');
  }

  lemma FirstStart(clock: int, b: int, total: int, hist: set<Row>)
    requires clock >= 0
    requires hist == {} || hist == {Row(clock, b, total, Start)}
    ensures NextHist(hist, Row(clock, b, total, Start)) == {Row(clock, b, total, Start)}
    ensures IsLast({Row(clock, b, total, Start)}, Start, clock)
  {
    var row := Row(clock, b, total, Start);
    assert PutRow(hist, row) == {row};
    assert row in {row};
  }

  /** The worker of a state in which the batch was started. */
  ghost predicate Stands<R(!new)>(c: Config<R>, reach: iset<State<R>>, s: State<R>, b: int, pc: Pc) {
    && s in reach && s.clock >= 0 && b in s.batches && s.batches[b].pc == pc
    && s.batches[b].hist == {Row(s.clock, b, |c.want|, Start)}
  }

  lemma StartFresh<R(!new)>(c: Config<R>, reach: iset<State<R>>, b: int) returns (s: State<R>)
    requires Closed(c, reach) && b in c.want
    ensures Stands(c, reach, s, b, Working(map[], {})) && s.db == Tables(map[], {})
  {
    s := State(0, Tables(map[], {}), map t | t in c.want :: Batch({}, Idle, map[]));
    assert Init(c, s);
    s := Take(c, reach, s, b, Begin(None, 0));
    FirstStart(0, b, |c.want|, {});
    s := Take(c, reach, s, b, StartBatch);
  }

  /** It writes one row and dies. */
  lemma LeaveRow<R(!new)>(c: Config<R>, reach: iset<State<R>>, b: int) returns (s: State<R>)
    requires Closed(c, reach) && b in c.want && c.want[b] != []
    ensures Stands(c, reach, s, b, Idle) && s.db == Tables(map[0 := DataRow(b, c.want[b][0])], {})
  {
    s := StartFresh(c, reach, b);
    s := Take(c, reach, s, b, InsertRow(0, 0));
    s := Take(c, reach, s, b, Crash);
  }

  /** The clean-up of the next attempt returns on a page without rows. */
  lemma StartAgain<R(!new)>(c: Config<R>, reach: iset<State<R>>, b: int) returns (s: State<R>)
    requires Closed(c, reach) && b in c.want && c.want[b] != [] && !Tidy(c)
    ensures Stands(c, reach, s, b, Working(map[], {})) && s.db == Tables(map[0 := DataRow(b, c.want[b][0])], {})
  {
    s := LeaveRow(c, reach, b);
    FirstStart(s.clock, b, |c.want|, s.batches[b].hist);
    s := Take(c, reach, s, b, Begin(Start, s.clock));
    s := Take(c, reach, s, b, CleanupDone);
    s := Take(c, reach, s, b, StartBatch);
  }

  // ---------------------------------------------------------------- the second attempt

  /** The entries of record `i`, written under rowid `i + 1`. */
  function EntryOf<R>(c: Config<R>, b: int, i: nat, name: string): Entry
    requires b in c.want && i < |c.want[b]|
  {
    EntryFor(c, name, c.want[b][i], i + 1)
  }

  /** The first `n` records have their rows, and their entries but for those of the last one in `todo`. */
  ghost predicate Filled<R(!new)>(c: Config<R>, s: State<R>, b: int, n: nat, todo: set<string>)
    requires b in c.want && n <= |c.want[b]|
  {
    && b in s.batches && s.batches[b].pc.Working?
    && (forall i: nat :: i in s.batches[b].pc.placed <==> i < n)
    && (forall i: nat :: i < n ==> s.batches[b].pc.placed[i] == i + 1)
    && (forall i: nat, m :: i < n && m in c.indexes && (i < n - 1 || m !in todo) ==> (i, m) in s.batches[b].pc.indexed)
    && (forall r :: r in s.db.data <==> 0 <= r <= n)
    && (forall r :: r in s.db.data ==> s.db.data[r].batch == b)
    && (forall e :: e in s.db.idx ==> Entered(c, b, n, todo, e))
  }

  ghost predicate Entered<R(!new)>(c: Config<R>, b: int, n: nat, todo: set<string>, e: Entry)
    requires b in c.want && n <= |c.want[b]|
  {
    exists i: nat :: i < n && e == EntryOf(c, b, i, e.name) && (i == n - 1 ==> e.name !in todo)
  }

  lemma NextKeyIsFree<R(!new)>(c: Config<R>, s: State<R>, b: int, n: nat, todo: set<string>, m: string)
    requires b in c.want && 0 < n <= |c.want[b]| && !KeysClash(c, b) && Filled(c, s, b, n, todo)
    requires m in todo && m in c.indexes && c.indexes[m]
    ensures KeyIsFree(s.db, m, c.key(m, c.want[b][n - 1]))
  {
    forall e | e in s.db.idx && e.name == m ensures e.key != c.key(m, c.want[b][n - 1]) {
      assert Entered(c, b, n, todo, e);
      var i: nat :| i < n && e == EntryOf(c, b, i, e.name) && (i == n - 1 ==> e.name !in todo);
      assert !Clash(c, b, i, n - 1, m);
    }
  }

  lemma FillEntry<R(!new)>(c: Config<R>, reach: iset<State<R>>, s: State<R>, b: int, n: nat, todo: set<string>,
                           m: string)
    returns (s': State<R>)
    requires Closed(c, reach) && s in reach && b in c.want && 0 < n <= |c.want[b]| && !KeysClash(c, b)
    requires Filled(c, s, b, n, todo) && m in todo && m in c.indexes
    ensures s' in reach && Filled(c, s', b, n, todo - {m})
  {
    if c.indexes[m] {
      NextKeyIsFree(c, s, b, n, todo, m);
    }
    s' := Take(c, reach, s, b, InsertEntry(n - 1, m));
    forall e | e in s'.db.idx ensures Entered(c, b, n, todo - {m}, e) {
      if e in s.db.idx {
        assert Entered(c, b, n, todo, e);
      } else {
        assert e == EntryOf(c, b, n - 1, m);
      }
    }
  }

  lemma {:induction false} FillEntries<R(!new)>(c: Config<R>, reach: iset<State<R>>, s: State<R>, b: int, n: nat,
                                         todo: set<string>)
    returns (s': State<R>)
    requires Closed(c, reach) && s in reach && b in c.want && 0 < n <= |c.want[b]| && !KeysClash(c, b)
    requires Filled(c, s, b, n, todo) && todo <= c.indexes.Keys
    ensures s' in reach && Filled(c, s', b, n, {})
    decreases todo
  {
    s' := s;
    if m :| m in todo {
      s' := FillEntry(c, reach, s, b, n, todo, m);
      s' := FillEntries(c, reach, s', b, n, todo - {m});
    }
  }

  lemma FillRow<R(!new)>(c: Config<R>, reach: iset<State<R>>, s: State<R>, b: int, n: nat)
    returns (s': State<R>)
    requires Closed(c, reach) && s in reach && b in c.want && n < |c.want[b]| && Filled(c, s, b, n, {})
    ensures s' in reach && Filled(c, s', b, n + 1, c.indexes.Keys)
  {
    s' := Take(c, reach, s, b, InsertRow(n, n + 1));
    forall e | e in s'.db.idx ensures Entered(c, b, n + 1, c.indexes.Keys, e) {
      assert Entered(c, b, n, {}, e);
    }
  }

  lemma {:induction false} Fill<R(!new)>(c: Config<R>, reach: iset<State<R>>, b: int, n: nat) returns (s: State<R>)
    requires Closed(c, reach) && b in c.want && c.want[b] != [] && n <= |c.want[b]| && !Tidy(c) && !KeysClash(c, b)
    ensures s in reach && Filled(c, s, b, n, {})
  {
    if n == 0 {
      s := StartAgain(c, reach, b);
    } else {
      s := Fill(c, reach, b, n - 1);
      s := FillRow(c, reach, s, b, n - 1);
      s := FillEntries(c, reach, s, b, n, c.indexes.Keys);
    }
  }

  lemma Finish<R(!new)>(c: Config<R>, reach: iset<State<R>>, b: int) returns (s: State<R>)
    requires Closed(c, reach) && b in c.want && c.want[b] != [] && !Tidy(c) && !KeysClash(c, b)
    ensures s in reach && b in s.batches && Succeeded(s.batches[b].hist)
    ensures forall r :: 0 <= r <= |c.want[b]| ==> Own(s.db, b, r)
  {
    s := Fill(c, reach, b, |c.want[b]|);
    ghost var hist := s.batches[b].hist;
    s := Take(c, reach, s, b, Succeed);
    assert RowOf(c, s.clock, b, Succeed) in NextHist(hist, RowOf(c, s.clock, b, Succeed));
  }

  // ---------------------------------------------------------------- one row too many

  function Upto(n: nat): (rows: set<int>)
    ensures forall r :: r in rows <==> 0 <= r < n
    ensures |rows| == n
  {
    if n == 0 then {} else Upto(n - 1) + {n - 1}
  }

  /** One of the first `n` records sits at this rowid. */
  ghost predicate HasRecord(placed: map<nat, int>, n: nat, r: int) {
    exists i: nat :: i < n && i in placed && placed[i] == r
  }

  lemma NoRecord(placed: map<nat, int>, r: int)
    ensures !HasRecord(placed, 0, r)
  {
  }

  lemma {:induction false} FewRows(placed: map<nat, int>, n: nat, rows: set<int>)
    requires forall r :: r in rows ==> HasRecord(placed, n, r)
    ensures |rows| <= n
    decreases n
  {
    if n == 0 {
      forall r ensures r !in rows {
        NoRecord(placed, r);
      }
      assert rows == {};
    } else {
      var rest := if n - 1 in placed then rows - {placed[n - 1]} else rows;
      forall r | r in rest ensures HasRecord(placed, n - 1, r) {
        assert HasRecord(placed, n, r);
      }
      FewRows(placed, n - 1, rest);
    }
  }

  lemma OneRowTooMany<R(!new)>(c: Config<R>, db: Tables<R>, b: int, placed: map<nat, int>)
    requires b in c.want && forall r :: 0 <= r <= |c.want[b]| ==> Own(db, b, r)
    ensures !Complete(c, db, b, placed)
  {
    if Complete(c, db, b, placed) {
      var n := |c.want[b]|;
      forall r | r in Upto(n + 1) ensures HasRecord(placed, n, r) {
        assert Own(db, b, r);
        assert r in placed.Values;
        var i :| i in placed && placed[i] == r;
      }
      FewRows(placed, n, Upto(n + 1));
    }
  }

  /** A schedule in which a success of this batch has a row too many. */
  lemma HarmedRun<R(!new)>(c: Config<R>, b: int) returns (s: State<R>)
    requires b in c.want && !Unharmed(c, b)
    ensures Reachable(c, s) && b in s.batches && Succeeded(s.batches[b].hist)
    ensures !exists placed :: Complete(c, s.db, b, placed)
  {
    RunsAreClosed(c);
    s := Finish(c, R.States(Starts(c), Steps(c)), b);
    forall placed ensures !Complete(c, s.db, b, placed) {
      OneRowTooMany(c, s.db, b, placed);
    }
  }

  /** Every success that can be recorded is exactly one execution if and only if no abandoned batch is
      run again, or no clean-up returns with rows left, or every batch has no record, or has two
      records with one key of a unique index and so cannot succeed. */
  lemma OneExecutionIff<R(!new)>(c: Config<R>)
    ensures SuccessesAreWhole(c)
            <==> !c.rerun || !c.short || forall b :: b in c.want ==> c.want[b] == [] || KeysClash(c, b)
  {
    if forall b :: b in c.want ==> Unharmed(c, b) {
      forall s, b | Reachable(c, s) && b in c.want && b in s.batches && Succeeded(s.batches[b].hist)
        ensures exists placed :: Complete(c, s.db, b, placed)
      {
        SuccessIsOneExecution(c, s, b);
      }
    } else {
      var b :| b in c.want && !Unharmed(c, b);
      var s := HarmedRun(c, b);
    }
  }
}
