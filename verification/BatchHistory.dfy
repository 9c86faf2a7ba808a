/** Batch history rows and the two folds over them: the status of one batch (used to
    deduplicate a redelivered message) and the status of a node (used to detect completion). */
module BatchHistory {
  datatype Status = None | Start | Success | Fail | StopReceived {
    /** The numeric code kept in the database; it breaks timestamp ties. */
    function Code(): int {
      match this
      case None => 0
      case Start => 1
      case Success => 2
      case Fail => 3
      case StopReceived => 104
    }

    predicate Terminal() {
      Success? || Fail? || StopReceived?
    }
  }

  /** `ts` is in milliseconds since the epoch; `idx` and `total` are the int16 columns. */
  datatype Row = Row(ts: int, idx: int, total: int, status: Status)

  /** The rows of a query result as a set: neither their order nor repetition matters. */
  ghost function Rows(rows: seq<Row>): set<Row> {
    set r | r in rows
  }

  datatype Result<T> = Ok(value: T) | Err

  // ---------------------------------------------------------------- status of one batch

  predicate Before(ts: int, st: Status, ts': int, st': Status) {
    ts < ts' || (ts == ts' && st.Code() <= st'.Code())
  }

  /** `(st, ts)` is the latest event of `rows`; no event counts as (None, epoch). */
  ghost predicate IsLast(rows: set<Row>, st: Status, ts: int) {
    && ((st == None && ts == 0) || exists r :: r in rows && r.ts == ts && r.status == st)
    && Before(0, None, ts, st)
    && forall r :: r in rows ==> Before(r.ts, r.status, ts, st)
  }

  method SingleBatchHistoryRowsToLastBatchStatus(rows: seq<Row>) returns (st: Status, ts: int)
    ensures IsLast(Rows(rows), st, ts)
  {
    st, ts := None, 0;
    for k := 0 to |rows|
      invariant IsLast(Rows(rows[..k]), st, ts)
    {
      ghost var was := Rows(rows[..k]);
      var rec := rows[k];
      if rec.ts > ts || (rec.ts == ts && rec.status.Code() > st.Code()) {
        ts, st := rec.ts, rec.status;
      }
      assert Rows(rows[..k + 1]) == was + {rec};
    }
    assert rows[..|rows|] == rows;
  }

  /** The result does not depend on the order in which the database returns the rows. */
  lemma LastStatusIsUnique(rows: set<Row>, st: Status, ts: int, st': Status, ts': int)
    requires IsLast(rows, st, ts) && IsLast(rows, st', ts')
    ensures st == st' && ts == ts'
  {
    assert Before(ts, st, ts', st') && Before(ts', st', ts, st);
    assert st.Code() == st'.Code();
  }

  /** The dedup rule: once some terminal event is not older than the start events, the batch
      reads as finished, even when all of them fall into the same millisecond. The converse
      shows that a batch never reads as finished without a terminal event. */
  lemma LastStatusTerminalIff(rows: set<Row>, st: Status, ts: int)
    requires IsLast(rows, st, ts)
    requires forall r :: r in rows ==> r.status != None && r.ts >= 0
    ensures st.Terminal() <==>
            exists t :: t in rows && t.status.Terminal() && forall s :: s in rows && s.status == Start ==> s.ts <= t.ts
    ensures st == None <==> rows == {}
  {
    if st.Terminal() {
      var t :| t in rows && t.ts == ts && t.status == st;
      assert forall s :: s in rows && s.status == Start ==> s.ts <= t.ts;
    }
    if exists t :: t in rows && t.status.Terminal() && forall s :: s in rows && s.status == Start ==> s.ts <= t.ts {
      var t :| t in rows && t.status.Terminal() && forall s :: s in rows && s.status == Start ==> s.ts <= t.ts;
      assert Before(t.ts, t.status, ts, st);
      assert st != Start;
    }
    if r :| r in rows {
      assert Before(r.ts, r.status, ts, st);
    }
  }

  // ---------------------------------------------------------------- status of a node

  /** All rows agree on the number of batches, and every batch index is below it. */
  ghost predicate Consistent(rows: set<Row>, total: int) {
    forall r :: r in rows ==> r.total == total && r.idx < total
  }

  ghost predicate Finished(rows: set<Row>, idx: int) {
    exists r :: r in rows && r.idx == idx && r.status.Terminal()
  }

  ghost predicate AllFinished(rows: set<Row>, total: int) {
    forall i :: 0 <= i < total ==> Finished(rows, i)
  }

  /** What the rows of one node mean. */
  ghost function NodeStatus(rows: set<Row>, total: int): Status {
    if !AllFinished(rows, total) then Start
    else if exists r :: r in rows && r.status == Fail then Fail
    else if exists r :: r in rows && r.status == StopReceived then StopReceived
    else Success
  }

  /** The batches without a terminal row, the source's `batchesInProgress`. */
  ghost function Pending(rows: set<Row>, total: int): set<int> {
    set i | 0 <= i < total && !Finished(rows, i)
  }

  lemma {:induction false} NothingPendingIff(rows: set<Row>, total: int)
    ensures Pending(rows, total) == {} <==> AllFinished(rows, total)
  {
    if forall i :: i !in Pending(rows, total) {
      assert forall i :: 0 <= i < total && !Finished(rows, i) ==> i in Pending(rows, total);
      assert Pending(rows, total) == {};
    }
  }

  /** `Err` stands for both errors of the source: conflicting totals, or an index out of range.
      On no rows at all the source reports Success with total -1. */
  method AllBatchHistoryRowsToNodeStatus(rows: seq<Row>) returns (res: Result<(Status, nat, int)>)
    ensures rows != [] ==>
              (res.Ok? <==> rows[0].total > 0 && Consistent(Rows(rows), rows[0].total))
    ensures rows != [] && res.Ok? ==>
              && res.value.0 == NodeStatus(Rows(rows), rows[0].total)
              && res.value.1 == |Pending(Rows(rows), rows[0].total)|
              && res.value.2 == rows[0].total
    ensures rows == [] ==> res == Ok((Success, 0, -1))
  {
    var total := -1;
    var pending: set<int> := {};
    var failFound, stopFound := false, false;
    for k := 0 to |rows|
      invariant k == 0 ==> total == -1 && pending == {}
      invariant k > 0 ==> total == rows[0].total && total > 0
      invariant Consistent(Rows(rows[..k]), total)
      invariant k > 0 ==> pending == Pending(Rows(rows[..k]), total)
      invariant failFound <==> exists r :: r in rows[..k] && r.status == Fail
      invariant stopFound <==> exists r :: r in rows[..k] && r.status == StopReceived
    {
      ghost var was, now := Rows(rows[..k]), Rows(rows[..k + 1]);
      var rec := rows[k];
      assert rows[..k + 1] == rows[..k] + [rec];
      assert now == was + {rec};
      assert rec in rows && rec in now;
      if total == -1 {
        total := rec.total;
        if total <= 0 { return Err; }
        for i := 0 to total
          invariant forall j :: j in pending <==> 0 <= j < i
        {
          pending := pending + {i};
        }
      } else if rec.total != total {
        return Err;
      }
      if rec.idx >= rec.total {
        return Err;
      }
      assert pending == Pending(was, total) by {
        if k == 0 { assert forall i :: !Finished(was, i); }
      }
      if rec.status.Terminal() {
        pending := pending - {rec.idx};
      }
      forall i ensures Finished(now, i) <==> Finished(was, i) || (i == rec.idx && rec.status.Terminal()) {
        if Finished(was, i) {
          var r :| r in was && r.idx == i && r.status.Terminal();
          assert r in now;
        }
      }
      failFound := failFound || rec.status == Fail;
      stopFound := stopFound || rec.status == StopReceived;
    }
    assert rows[..|rows|] == rows;
    NothingPendingIff(Rows(rows), total);
    if pending == {} {
      var st := Success;
      if stopFound { st := StopReceived; }
      if failFound { st := Fail; }
      return Ok((st, 0, total));
    }
    return Ok((Start, |pending|, total));
  }

  // ---------------------------------------------------------------- writing a batch status

  function OwnRows(rows: set<Row>, batch: int): set<Row> {
    set r | r in rows && r.idx == batch
  }

  /** Rows are keyed by batch and status (besides run and node): writing a status again only
      moves its timestamp. */
  function PutRow(rows: set<Row>, row: Row): set<Row> {
    (set r | r in rows && !(r.idx == row.idx && r.status == row.status)) + {row}
  }

  /** A written terminal status is never lost, and a write finishes at most its own batch. */
  lemma PutRowFinishes(rows: set<Row>, row: Row)
    ensures forall i :: Finished(PutRow(rows, row), i) <==> Finished(rows, i) || (i == row.idx && row.status.Terminal())
  {
    assert row in PutRow(rows, row);
    forall i ensures Finished(rows, i) ==> Finished(PutRow(rows, row), i) {
      if Finished(rows, i) {
        var r :| r in rows && r.idx == i && r.status.Terminal();
        assert r in PutRow(rows, row) || (r.idx == row.idx && r.status == row.status);
      }
    }
  }
}
