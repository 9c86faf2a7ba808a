/** Writing a record of a distinct table: first the entry of the unique index, then the data row,
    with writes that time out without telling whether they were applied. */
module DistinctInsert {
  const MAX_DB_PROBLEM_RETRIES: nat := 5
  const MAX_DUPLICATE_RETRIES: nat := 5

  datatype Record = Record(key: string, fields: seq<int>)

  /** An entry of one of the other indexes. */
  datatype Entry = Entry(index: nat, key: string, rowid: int)

  /** The data table by rowid, the unique index by key, and the other indexes. */
  datatype Tables = Tables(data: map<int, Record>, idx: map<string, int>, further: set<Entry>)

  /** What the database does with a statement: it answers, or it reports a passing or a serious
      problem, having applied the statement or not. */
  datatype Fate = Answers | Passing(applied: bool) | Serious(applied: bool)

  /** A record reached the table, or the table already held this. */
  datatype Outcome<T> = Applied | Exists(existing: T) | Retryable | Hopeless

  datatype IdxResult = IdxInserted | DuplicateKey | IdxFailed

  datatype DataResult = DataInserted | NeedNewRowid | DataFailed

  /** No data row is overwritten or lost, and new entries of the other indexes lead to rows. */
  predicate Kept(was: Tables, now: Tables) {
    && (forall r :: r in was.data ==> r in now.data && now.data[r] == was.data[r])
    && (forall e :: e in was.further ==> e in now.further)
    && (forall e :: e in now.further && e !in was.further ==> e.rowid in now.data)
  }

  /** What other writers may do meanwhile, with any key: bring in whole records. */
  predicate Harmless(key: string, was: Tables, now: Tables) {
    && Kept(was, now)
    && (key in was.idx ==> key in now.idx && now.idx[key] == was.idx[key])
    && (key in now.idx && key !in was.idx ==> now.idx[key] in now.data)
  }

  predicate NoDangling(db: Tables) {
    forall e :: e in db.further ==> e.rowid in db.data
  }

  /** The key has an entry that leads to a live row. */
  predicate IsLive(db: Tables, key: string) {
    key in db.idx && db.idx[key] in db.data
  }

  class Writer {
    const record: Record
    /** What happens at each moment: the fate of a statement, the other writers, the random numbers. */
    const fates: nat -> Fate
    const others: (nat, Tables) -> Tables
    const rowids: nat -> int
    var now: nat
    var db: Tables
    /** The rowids under which this writer has put its record. */
    ghost var written: set<int>

    ghost predicate Valid()
      reads this
    {
      && (forall n, t :: Harmless(record.key, t, others(n, t)))
      && forall r :: r in written ==> r in db.data && db.data[r] == record
    }

    /** The database answers every statement, and nobody else writes. */
    ghost predicate Quiet() {
      (forall n :: fates(n).Answers?) && forall n, t :: others(n, t) == t
    }

    constructor (record: Record, fates: nat -> Fate, others: (nat, Tables) -> Tables, rowids: nat -> int, db: Tables)
      requires forall n, t :: Harmless(record.key, t, others(n, t))
      ensures Valid() && written == {} && this.db == db && this.record == record
    {
      this.record, this.fates, this.others, this.rowids := record, fates, others, rowids;
      this.now, this.db, this.written := 0, db, {};
    }

    method NextFate() returns (fate: Fate)
      requires Valid()
      modifies this
      ensures Valid() && written == old(written) && Harmless(record.key, old(db), db)
      ensures Quiet() ==> fate.Answers? && db == old(db)
    {
      db := others(now, db);
      fate := fates(now);
      now := now + 1;
    }

    method PerformInsertIdxRecord(rowid: int) returns (outcome: Outcome<int>)
      requires Valid()
      modifies this
      ensures Valid() && written == old(written) && Kept(old(db), db)
      ensures record.key in old(db).idx ==> record.key in db.idx && db.idx[record.key] == old(db).idx[record.key]
      ensures outcome.Applied? ==> record.key in db.idx && db.idx[record.key] == rowid
      ensures outcome.Exists? ==> record.key in db.idx && db.idx[record.key] == outcome.existing
      ensures Quiet() ==> db == old(db).(idx := db.idx)
      ensures Quiet() ==> if record.key in old(db).idx then outcome.Exists? && db == old(db) else outcome.Applied?
    {
      var fate := NextFate();
      var free := record.key !in db.idx;
      outcome := if fate.Passing? then Retryable else if fate.Serious? then Hopeless
                 else if free then Applied else Exists(db.idx[record.key]);
      if free && (fate.Answers? || fate.applied) {
        db := db.(idx := db.idx[record.key := rowid]);
      }
    }

    method InsertIdxRecordWithRowid(rowid: int) returns (result: IdxResult)
      requires Valid()
      modifies this
      ensures Valid() && written == old(written) && Kept(old(db), db)
      ensures result.IdxInserted? ==> record.key in db.idx && db.idx[record.key] == rowid
      ensures result.DuplicateKey? ==> record.key in db.idx
      ensures Quiet() ==> db == old(db).(idx := db.idx)
      ensures Quiet() ==> if record.key in old(db).idx then result.DuplicateKey? && db == old(db)
              else result.IdxInserted?
    {
      for retryCount := 0 to MAX_DB_PROBLEM_RETRIES
        invariant Valid() && written == old(written) && Kept(old(db), db)
        invariant Quiet() ==> retryCount == 0 && db == old(db)
      {
        var outcome := PerformInsertIdxRecord(rowid);
        match outcome
        case Applied => return IdxInserted;
        case Exists(existing) =>
          if existing != rowid || retryCount == 0 {
            return DuplicateKey;
          }
          return IdxInserted;
        case Retryable =>
          if retryCount >= MAX_DB_PROBLEM_RETRIES - 1 {
            return IdxFailed;
          }
        case Hopeless => return IdxFailed;
      }
      return IdxFailed;
    }

    method PerformInsertDataRecord(rowid: int) returns (outcome: Outcome<Record>)
      requires Valid()
      modifies this
      ensures Valid() && Harmless(record.key, old(db), db)
      ensures written == old(written) || (written == old(written) + {rowid} && rowid !in old(db).data)
      ensures outcome.Applied? ==> rowid in db.data && db.data[rowid] == record
      ensures outcome.Exists? ==> rowid in db.data && db.data[rowid] == outcome.existing && written == old(written)
      ensures Quiet() && rowid !in old(db).data ==> outcome.Applied? && written == old(written) + {rowid}
    {
      var fate := NextFate();
      var free := rowid !in db.data;
      outcome := if fate.Passing? then Retryable else if fate.Serious? then Hopeless
                 else if free then Applied else Exists(db.data[rowid]);
      if free && (fate.Answers? || fate.applied) {
        db := db.(data := db.data[rowid := record]);
        written := written + {rowid};
      }
    }

    /** A row with this rowid is an earlier attempt of this very write only if it is identical and
        this is not the first attempt. */
    method InsertDataRecordWithRowid(rowid: int) returns (result: DataResult)
      requires Valid() && rowid !in written
      modifies this
      ensures Valid() && Harmless(record.key, old(db), db)
      ensures result.DataInserted? ==> rowid in db.data && db.data[rowid] == record
      ensures written == old(written) || (!result.NeedNewRowid? && written == old(written) + {rowid})
      ensures Quiet() && rowid !in old(db).data ==> result.DataInserted? && written == old(written) + {rowid}
    {
      for retryCount := 0 to MAX_DB_PROBLEM_RETRIES
        invariant Valid() && Harmless(record.key, old(db), db)
        invariant written == old(written) || (retryCount > 0 && written == old(written) + {rowid})
        invariant Quiet() && rowid !in old(db).data ==> retryCount == 0 && db == old(db)
      {
        var outcome := PerformInsertDataRecord(rowid);
        match outcome
        case Applied => return DataInserted;
        case Exists(existing) =>
          if existing != record || retryCount == 0 {
            return NeedNewRowid;
          }
          return DataInserted;
        case Retryable =>
          if retryCount >= MAX_DB_PROBLEM_RETRIES - 1 {
            return DataFailed;
          }
        case Hopeless => return DataFailed;
      }
      return DataFailed;
    }

    method DeleteIdxRecordByKey() returns (ok: bool)
      requires Valid()
      modifies this
      ensures Valid() && written == old(written) && Kept(old(db), db)
      ensures Quiet() ==> ok && record.key !in db.idx && db == old(db).(idx := db.idx)
    {
      var fate := NextFate();
      if fate.Answers? || fate.applied {
        db := db.(idx := db.idx - {record.key});
      }
      ok := fate.Answers?;
    }

    method SelectDataRowidByIdxKey() returns (ok: bool, exists_: bool)
      requires Valid()
      modifies this
      ensures Valid() && written == old(written) && Kept(old(db), db)
      ensures ok && exists_ ==> IsLive(db, record.key)
      ensures Quiet() ==> ok && db == old(db) && exists_ == IsLive(db, record.key)
    {
      var fate := NextFate();
      if !fate.Answers? || record.key !in db.idx {
        return fate.Answers?, false;
      }
      var rowid := db.idx[record.key];
      fate := NextFate();
      return fate.Answers?, fate.Answers? && rowid in db.data;
    }

    /** From any tables, with any fates: success leaves one entry for the key, leading to a live row;
        the record is written at most once, and then under that entry and the rowid returned; no data
        row is touched. While the database answers and the first rowid is free, the record is written
        exactly when the key had no entry or an orphan one. */
    method InsertDistinctIdxAndDataRecords() returns (ok: bool, curRowid: int)
      requires Valid() && written == {}
      modifies this
      ensures Valid() && Kept(old(db), db) && |written| <= 1
      ensures ok ==> IsLive(db, record.key) && written <= {db.idx[record.key]} && written <= {curRowid}
      ensures ok && written != {} ==> db.data[db.idx[record.key]] == record
      ensures Quiet() && rowids(0) !in old(db).data ==> ok && curRowid == rowids(0)
      ensures Quiet() && rowids(0) !in old(db).data ==> (written != {} <==> !IsLive(old(db), record.key))
      ensures Quiet() && IsLive(old(db), record.key) ==> db == old(db)
    {
      var drawn := 0;
      curRowid := rowids(drawn);
      for retryCount := 0 to MAX_DUPLICATE_RETRIES
        invariant Valid() && written == {} && Kept(old(db), db)
        invariant Quiet() && IsLive(old(db), record.key) ==> retryCount == 0 && db == old(db)
        invariant Quiet() && rowids(0) !in old(db).data ==>
          retryCount <= 1 && curRowid == rowids(0) && db == old(db).(idx := db.idx)
        invariant Quiet() && rowids(0) !in old(db).data && retryCount == 1 ==>
          record.key !in db.idx && !IsLive(old(db), record.key)
        invariant retryCount == 0 ==> db == old(db)
      {
        var idxResult := InsertIdxRecordWithRowid(curRowid);
        if idxResult.IdxInserted? {
          var dataResult := InsertDataRecordWithRowid(curRowid);
          if dataResult.DataInserted? {
            return true, curRowid;
          }
          if !dataResult.NeedNewRowid? {
            return false, curRowid;
          }
          var deleted := DeleteIdxRecordByKey();
          if !deleted {
            return false, curRowid;
          }
          drawn := drawn + 1;
          curRowid := rowids(drawn);
        } else if idxResult.DuplicateKey? {
          var checked, dataRowExists := SelectDataRowidByIdxKey();
          if !checked {
            return false, curRowid;
          }
          if dataRowExists {
            return true, curRowid;
          }
          var deleted := DeleteIdxRecordByKey();
          if !deleted {
            return false, curRowid;
          }
        } else if retryCount < MAX_DUPLICATE_RETRIES - 1 {
          drawn := drawn + 1;
          curRowid := rowids(drawn);
        } else {
          return false, curRowid;
        }
      }
      return false, curRowid;
    }

    /** The other indexes are not unique: an entry is put whatever is there. */
    method InsertFurtherEntry(e: Entry) returns (ok: bool)
      requires Valid()
      modifies this
      ensures Valid() && written == old(written)
      ensures Harmless(record.key, old(db).(further := old(db).further + {e}), db.(further := db.further + {e}))
      ensures ok ==> e in db.further
      ensures Quiet() ==> ok && db == old(db).(further := old(db).further + {e})
    {
      for retryCount := 0 to MAX_DB_PROBLEM_RETRIES
        invariant Valid() && written == old(written)
        invariant Harmless(record.key, old(db).(further := old(db).further + {e}), db.(further := db.further + {e}))
        invariant Quiet() ==> retryCount == 0 && db == old(db)
      {
        var fate := NextFate();
        if fate.Answers? || fate.applied {
          db := db.(further := db.further + {e});
        }
        if fate.Answers? {
          return true;
        }
        if fate.Serious? {
          return false;
        }
      }
      return false;
    }

    method InsertIdxRecordsForIndexes(keys: seq<string>, rowid: int) returns (ok: bool)
      requires Valid()
      modifies this
      ensures Valid() && written == old(written)
      ensures NoDangling(old(db)) && rowid in old(db).data ==> NoDangling(db)
      ensures IsLive(old(db), record.key) ==> IsLive(db, record.key) && db.idx[record.key] == old(db).idx[record.key]
      ensures ok ==> forall i :: 0 <= i < |keys| ==> Entry(i, keys[i], rowid) in db.further
      ensures keys == [] ==> ok && db == old(db)
      ensures Quiet() ==> ok && db == old(db).(further := db.further)
    {
      for i := 0 to |keys|
        invariant Valid() && written == old(written)
        invariant NoDangling(old(db)) && rowid in old(db).data ==> NoDangling(db) && rowid in db.data
        invariant IsLive(old(db), record.key) ==>
                    IsLive(db, record.key) && db.idx[record.key] == old(db).idx[record.key]
        invariant forall k :: 0 <= k < i ==> Entry(k, keys[k], rowid) in db.further
        invariant i == 0 ==> db == old(db)
        invariant Quiet() ==> db == old(db).(further := db.further)
      {
        var inserted := InsertFurtherEntry(Entry(i, keys[i], rowid));
        if !inserted {
          return false;
        }
      }
      return true;
    }

    /** A record of a distinct table with entries in the table's other indexes. A record written by
        this call gets entries that lead to it. While the database answers and the first rowid is
        free, the other indexes keep leading to rows exactly if there is none or the key is new: for a
        key that exists the entries lead to the rowid drawn, under which nothing was written. */
    method InsertDistinctRecord(keys: seq<string>) returns (ok: bool)
      requires Valid() && written == {} && NoDangling(db)
      modifies this
      ensures Valid() && |written| <= 1
      ensures ok ==> IsLive(db, record.key) && written <= {db.idx[record.key]}
      ensures keys == [] || written != {} ==> NoDangling(db)
      ensures ok && written != {} ==> forall i :: 0 <= i < |keys| ==>
              Entry(i, keys[i], db.idx[record.key]) in db.further
      ensures Quiet() && rowids(0) !in old(db).data ==>
        ok && (NoDangling(db) <==> keys == [] || !IsLive(old(db), record.key))
    {
      var rowid;
      ok, rowid := InsertDistinctIdxAndDataRecords();
      assert NoDangling(db);
      if ok {
        ok := InsertIdxRecordsForIndexes(keys, rowid);
        if ok && |keys| > 0 {
          assert Entry(0, keys[0], rowid) in db.further;
        }
      }
    }
  }
}
