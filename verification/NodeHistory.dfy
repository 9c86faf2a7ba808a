/** Node history rows, their reduction to a short sorted event list, and the fold of that list
    into node statuses and a run status. */
module NodeHistory {
  import opened BatchHistory

  datatype Event = Event(ts: int, run: int, batch: int, node: string, status: Status)

  predicate Of(e: Event, run: int, node: string) {
    e.run == run && e.node == node
  }

  // ---------------------------------------------------------------- rows to events

  /** The row kept for its run, node and status: the earliest start, the latest of the others. */
  ghost predicate Picked(rows: set<Event>, e: Event) {
    && e in rows
    && e.status != None
    && forall s :: s in rows && Of(s, e.run, e.node) && s.status == e.status ==>
         if e.status == Start then e.ts <= s.ts else s.ts <= e.ts
  }

  ghost predicate Covered(events: seq<Event>, r: Event) {
    exists e :: e in events && Of(e, r.run, r.node) && e.status == r.status
  }

  /** `events` holds picked rows only, one at least for every run, node and status of `rows`. */
  ghost predicate Reduced(rows: set<Event>, events: seq<Event>) {
    && (forall e :: e in events ==> Picked(rows, e))
    && (forall r {:trigger Covered(events, r)} :: r in rows && r.status != None ==> Covered(events, r))
  }

  /** The total order of the event list. */
  predicate LessEq(l: Event, r: Event) {
    if l.ts != r.ts then l.ts < r.ts
    else if l.run != r.run then l.run < r.run
    else if l.batch != r.batch then l.batch < r.batch
    else if l.node != r.node then StringLess(l.node, r.node)
    else l.status.Code() <= r.status.Code()
  }

  predicate StringLess(l: string, r: string) {
    if r == "" then false
    else if l == "" then true
    else if l[0] != r[0] then l[0] < r[0]
    else StringLess(l[1..], r[1..])
  }

  lemma {:induction false} StringLessTotal(a: string, b: string, c: string)
    ensures a == b || StringLess(a, b) || StringLess(b, a)
    ensures !(StringLess(a, b) && StringLess(b, a)) && !StringLess(a, a)
    ensures StringLess(a, b) && StringLess(b, c) ==> StringLess(a, c)
    decreases |a| + |b| + |c|
  {
    if a != "" && b != "" && c != "" {
      assert a == [a[0]] + a[1..] && b == [b[0]] + b[1..];
      StringLessTotal(a[1..], b[1..], c[1..]);
    } else if a != "" && b != "" {
      assert a == [a[0]] + a[1..] && b == [b[0]] + b[1..];
      StringLessTotal(a[1..], b[1..], c);
    } else if a != "" {
      StringLessTotal(a[1..], "", "");
    }
  }

  lemma LessEqTotal(a: Event, b: Event, c: Event)
    ensures LessEq(a, b) || LessEq(b, a)
    ensures LessEq(a, b) && LessEq(b, c) ==> LessEq(a, c)
  {
    StringLessTotal(a.node, b.node, c.node);
  }

  ghost predicate Sorted(events: seq<Event>) {
    forall i, j :: 0 <= i < j < |events| ==> LessEq(events[i], events[j])
  }

  type EventMap = map<(int, string), Event>

  /** `m` holds, for every run and node with a row of this status, the row `Picked` for it. */
  ghost predicate Keeps(m: EventMap, rows: set<Event>, st: Status) {
    && (forall k :: k in m ==> Picked(rows, m[k]) && m[k].status == st && Of(m[k], k.0, k.1))
    && (forall r :: r in rows && r.status == st ==> (r.run, r.node) in m)
  }

  method KeepEvent(m: EventMap, rec: Event, ghost rows: set<Event>) returns (m': EventMap)
    requires rec.status != None && Keeps(m, rows, rec.status)
    ensures Keeps(m', rows + {rec}, rec.status)
  {
    var key := (rec.run, rec.node);
    if key !in m || (if rec.status == Start then m[key].ts > rec.ts else m[key].ts < rec.ts) {
      m' := m[key := rec];
    } else {
      m' := m;
    }
    forall k | k in m' ensures Picked(rows + {rec}, m'[k]) {
      if k != key {
        assert Picked(rows, m[k]);
      } else if key in m {
        assert Picked(rows, m[key]);
      } else {
        assert forall s :: s in rows && Of(s, rec.run, rec.node) ==> s.status != rec.status;
      }
    }
  }

  lemma {:induction false} KeepsOther(m: EventMap, rows: set<Event>, rec: Event, st: Status)
    requires Keeps(m, rows, st) && rec.status != st
    ensures Keeps(m, rows + {rec}, st)
  {
    forall k | k in m ensures Picked(rows + {rec}, m[k]) {
      assert Picked(rows, m[k]);
    }
  }

  method InsertSorted(events: seq<Event>, e: Event) returns (out: seq<Event>)
    requires Sorted(events)
    ensures Sorted(out)
    ensures forall x :: x in out <==> x in events || x == e
  {
    var k := 0;
    while k < |events| && LessEq(events[k], e)
      invariant 0 <= k <= |events|
      invariant forall i :: 0 <= i < k ==> LessEq(events[i], e)
    {
      k := k + 1;
    }
    out := events[..k] + [e] + events[k..];
    forall i, j | 0 <= i < j < |out| ensures LessEq(out[i], out[j]) {
      if i == k {
        LessEqTotal(events[k], e, e);
        LessEqTotal(e, events[k], out[j]);
      }
    }
    assert events == events[..k] + events[k..];
  }

  /** Adds the events of one map to the sorted list (the source appends and sorts once). */
  method AppendEvents(events: seq<Event>, m: EventMap) returns (out: seq<Event>)
    requires Sorted(events)
    ensures Sorted(out)
    ensures forall x :: x in out <==> x in events || x in m.Values
  {
    out := events;
    var keys := m.Keys;
    while keys != {}
      invariant keys <= m.Keys && Sorted(out)
      invariant forall x :: x in out <==> x in events || exists k :: k in m && k !in keys && m[k] == x
      decreases keys
    {
      var k :| k in keys;
      ghost var prev := out;
      out := InsertSorted(out, m[k]);
      keys := keys - {k};
      forall x ensures x in out <==> x in events || exists j :: j in m && j !in keys && m[j] == x {
        if x in out && x !in prev {
          assert x == m[k] && k !in keys;
        }
        if j :| j in m && j !in keys && m[j] == x {
          assert j == k || j !in keys + {k};
        }
      }
    }
  }

  method NodeHistoryRowsToEvents(rows: seq<Event>) returns (events: seq<Event>)
    ensures Sorted(events) && Reduced(AsSet(rows), events)
  {
    var starts: EventMap, successes: EventMap, fails: EventMap, stops: EventMap := map[], map[], map[], map[];
    for k := 0 to |rows|
      invariant Keeps(starts, AsSet(rows[..k]), Start) && Keeps(successes, AsSet(rows[..k]), Success)
      invariant Keeps(fails, AsSet(rows[..k]), Fail) && Keeps(stops, AsSet(rows[..k]), StopReceived)
    {
      ghost var was := AsSet(rows[..k]);
      var rec := rows[k];
      assert AsSet(rows[..k + 1]) == was + {rec};
      if rec.status != Start { KeepsOther(starts, was, rec, Start); }
      if rec.status != Success { KeepsOther(successes, was, rec, Success); }
      if rec.status != Fail { KeepsOther(fails, was, rec, Fail); }
      if rec.status != StopReceived { KeepsOther(stops, was, rec, StopReceived); }
      match rec.status {
        case Start => starts := KeepEvent(starts, rec, was);
        case Success => successes := KeepEvent(successes, rec, was);
        case Fail => fails := KeepEvent(fails, rec, was);
        case StopReceived => stops := KeepEvent(stops, rec, was);
        case None =>
      }
    }
    assert rows[..|rows|] == rows;
    events := AppendEvents([], starts);
    events := AppendEvents(events, successes);
    events := AppendEvents(events, fails);
    events := AppendEvents(events, stops);
    forall r | r in AsSet(rows) && r.status != None ensures Covered(events, r) {
      var m := match r.status
        case Start => starts case Success => successes case Fail => fails case _ => stops;
      assert (r.run, r.node) in m;
      assert m[(r.run, r.node)] in m.Values;
    }
  }

  ghost function AsSet(rows: seq<Event>): set<Event> {
    set r | r in rows
  }

  // ---------------------------------------------------------------- events to statuses

  /** The fold for one node: the latest event wins, except that a stop is never overwritten. */
  function NodeFold(events: seq<Event>, run: int, node: string): Status {
    if events == [] then None
    else
      var e, prev := events[|events| - 1], NodeFold(events[..|events| - 1], run, node);
      if !Of(e, run, node) || prev == StopReceived then prev else e.status
  }

  ghost predicate LastOf(events: seq<Event>, run: int, node: string, k: int) {
    && 0 <= k < |events|
    && Of(events[k], run, node)
    && forall j :: k < j < |events| ==> !Of(events[j], run, node)
  }

  /** What the fold computes, without recursion. */
  lemma {:induction false} NodeFoldMeaning(events: seq<Event>, run: int, node: string)
    ensures (exists e :: e in events && Of(e, run, node) && e.status == StopReceived)
            <==> NodeFold(events, run, node) == StopReceived
    ensures NodeFold(events, run, node) != StopReceived ==>
              forall k :: LastOf(events, run, node, k) ==> NodeFold(events, run, node) == events[k].status
    ensures (forall e :: e in events ==> !Of(e, run, node)) ==> NodeFold(events, run, node) == None
  {
    if events != [] {
      var front, e := events[..|events| - 1], events[|events| - 1];
      NodeFoldMeaning(front, run, node);
      assert events == front + [e];
      forall k | LastOf(events, run, node, k) && k < |front| ensures LastOf(front, run, node, k) {
      }
    }
  }

  /** The order in the comment above the source's fold: stop over fail over success over start. */
  ghost predicate HighestOf(events: seq<Event>, run: int, node: string, st: Status) {
    && (exists e :: e in events && Of(e, run, node) && e.status == st)
    && (forall e :: e in events && Of(e, run, node) ==> e.status.Code() <= st.Code())
  }

  /** The comment does not describe the code: a later success overrides a failure. */
  lemma PriorityOrderFails()
    ensures var events := [Event(1, 1, 0, "n", Fail), Event(2, 1, 0, "n", Success)];
            Sorted(events) && HighestOf(events, 1, "n", Fail) && NodeFold(events, 1, "n") == Success
  {
    var events := [Event(1, 1, 0, "n", Fail), Event(2, 1, 0, "n", Success)];
    NodeFoldMeaning(events, 1, "n");
    assert LastOf(events, 1, "n", 1);
    assert events[0] in events;
  }

  /** The code follows that order exactly when there is a stop, or the node's last event already
      carries the highest status. */
  lemma PriorityOrderIff(events: seq<Event>, run: int, node: string, st: Status, last: nat)
    requires HighestOf(events, run, node, st) && LastOf(events, run, node, last)
    ensures NodeFold(events, run, node) == st
            <==> st == StopReceived || events[last].status == st
  {
    NodeFoldMeaning(events, run, node);
  }

  /** In the sorted list a node reads as finished exactly when it was stopped or some terminal
      event comes after all its start events. */
  lemma FoldTerminalIff(events: seq<Event>, run: int, node: string)
    requires forall e :: e in events && Of(e, run, node) ==> e.status != None
    ensures NodeFold(events, run, node).Terminal() <==>
            || (exists e :: e in events && Of(e, run, node) && e.status == StopReceived)
            || (exists k :: 0 <= k < |events| && Of(events[k], run, node) && events[k].status.Terminal()
                  && forall j :: k < j < |events| && Of(events[j], run, node) ==> events[j].status != Start)
  {
    NodeFoldMeaning(events, run, node);
    if exists e :: e in events && Of(e, run, node) {
      var k := FindLast(events, run, node);
      assert events[k] in events;
    }
  }

  lemma {:induction false} FindLast(events: seq<Event>, run: int, node: string) returns (k: int)
    requires exists e :: e in events && Of(e, run, node)
    ensures LastOf(events, run, node, k)
  {
    k := |events| - 1;
    if !Of(events[k], run, node) {
      assert events == events[..k] + [events[k]];
      var m := FindLast(events[..k], run, node);
      k := m;
    }
  }

  /** Timestamps have millisecond resolution. When a node's latest start and its outcome fall into the
      same millisecond, the writers' batch indexes decide: the completion is hidden exactly if the
      outcome was written by a batch with a smaller index than the start. */
  lemma TieHidesCompletionIff(events: seq<Event>, start: Event, outcome: Event)
    requires Sorted(events) && start in events && outcome in events
    requires Of(outcome, start.run, start.node) && outcome.ts == start.ts
    requires start.status == Start && (outcome.status == Success || outcome.status == Fail)
    requires forall e :: e in events && Of(e, start.run, start.node) && e != start && e != outcome ==>
               e.ts < start.ts && e.status != StopReceived
    ensures NodeFold(events, start.run, start.node) == Start <==> outcome.batch < start.batch
  {
    NodeFoldMeaning(events, start.run, start.node);
    var k := FindLast(events, start.run, start.node);
    var i :| 0 <= i < |events| && events[i] == start;
    var j :| 0 <= j < |events| && events[j] == outcome;
    assert i <= k && j <= k && events[k] in events;
    assert LessEq(events[i], events[k]) || i == k;
    assert LessEq(events[j], events[k]) || j == k;
  }

  /** Such a history. */
  lemma TieHidesCompletion()
    ensures var events := [Event(7, 1, 3, "n", Success), Event(7, 1, 5, "n", Start)];
            Sorted(events) && NodeFold(events, 1, "n") == Start
  {
    var events := [Event(7, 1, 3, "n", Success), Event(7, 1, 5, "n", Start)];
    NodeFoldMeaning(events, 1, "n");
    assert LastOf(events, 1, "n", 1);
  }

  /** What a set of rows says about a node. */
  ghost predicate NodeStatusIs(rows: set<Event>, run: int, node: string, st: Status) {
    if exists e :: e in rows && Of(e, run, node) && e.status == StopReceived then st == StopReceived
    else if st == None then forall e :: e in rows && Of(e, run, node) ==> e.status == None
    else exists e :: && Picked(rows, e) && Of(e, run, node) && e.status == st
                     && forall e' :: Picked(rows, e') && Of(e', run, node) ==> e'.ts <= e.ts
  }

  /** Reduction to events followed by the fold reads the rows correctly. */
  lemma FoldReadsRows(rows: set<Event>, events: seq<Event>, run: int, node: string)
    requires Sorted(events) && Reduced(rows, events)
    ensures NodeStatusIs(rows, run, node, NodeFold(events, run, node))
  {
    NodeFoldMeaning(events, run, node);
    var st := NodeFold(events, run, node);
    if st != StopReceived && exists e :: e in events && Of(e, run, node) {
      var k := FindLast(events, run, node);
      assert Picked(rows, events[k]);
      forall e' | Picked(rows, e') && Of(e', run, node) ensures e'.ts <= events[k].ts {
        LastIsLatest(rows, events, run, node, k, e');
      }
    } else if st == None {
      forall e | e in rows && Of(e, run, node) ensures e.status == None {
        assert e.status != None ==> Covered(events, e);
      }
    }
    forall e | e in rows && Of(e, run, node) && e.status == StopReceived ensures st == StopReceived {
      assert Covered(events, e);
    }
  }

  lemma LastIsLatest(rows: set<Event>, events: seq<Event>, run: int, node: string, last: int, e: Event)
    requires Sorted(events) && Reduced(rows, events)
    requires LastOf(events, run, node, last) && Picked(rows, e) && Of(e, run, node)
    ensures e.ts <= events[last].ts
  {
    assert Covered(events, e);
    var x :| x in events && Of(x, e.run, e.node) && x.status == e.status;
    assert Picked(rows, x);
    var i :| 0 <= i < |events| && events[i] == x;
    assert i < last ==> LessEq(events[i], events[last]);
  }

  ghost predicate StartsFirst(rows: set<Event>, run: int, node: string) {
    forall s, t :: s in rows && t in rows && Of(s, run, node) && Of(t, run, node) ==>
      s.status == Start && t.status.Terminal() ==> s.ts < t.ts
  }

  /** No terminal row precedes the start rows: then a node with a terminal row reads as finished. */
  lemma TerminalAfterStartsReads(rows: set<Event>, run: int, node: string, st: Status)
    requires NodeStatusIs(rows, run, node, st)
    requires StartsFirst(rows, run, node)
    requires exists t :: t in rows && Of(t, run, node) && t.status.Terminal()
    ensures st.Terminal()
    ensures exists t :: t in rows && Of(t, run, node) && t.status == st
  {
    var t :| t in rows && Of(t, run, node) && t.status.Terminal();
    if !exists e :: e in rows && Of(e, run, node) && e.status == StopReceived {
      var p := PickLatest(rows, t);
    }
  }

  lemma {:induction false} PickLatest(rows: set<Event>, t: Event) returns (p: Event)
    requires t in rows && t.status != None && t.status != Start
    ensures Picked(rows, p) && Of(p, t.run, t.node) && p.status == t.status && t.ts <= p.ts
    decreases rows
  {
    if forall s :: s in rows && Of(s, t.run, t.node) && s.status == t.status ==> s.ts <= t.ts {
      p := t;
    } else {
      var s :| s in rows && Of(s, t.run, t.node) && s.status == t.status && s.ts > t.ts;
      p := PickLatest(rows - {t}, s);
      assert forall x :: x in rows ==> x == t || x in rows - {t};
    }
  }

  lemma {:induction false} PickEarliest(rows: set<Event>, t: Event) returns (p: Event)
    requires t in rows && t.status == Start
    ensures Picked(rows, p) && Of(p, t.run, t.node)
    decreases rows
  {
    if forall s :: s in rows && Of(s, t.run, t.node) && s.status == Start ==> t.ts <= s.ts {
      p := t;
    } else {
      var s :| s in rows && Of(s, t.run, t.node) && s.status == Start && s.ts < t.ts;
      p := PickEarliest(rows - {t}, s);
      assert forall x :: x in rows ==> x == t || x in rows - {t};
    }
  }

  lemma {:induction false} LatestOf(rows: set<Event>) returns (p: Event)
    requires rows != {}
    ensures p in rows && forall e :: e in rows ==> e.ts <= p.ts
  {
    p :| p in rows;
    if !forall e :: e in rows ==> e.ts <= p.ts {
      var x :| x in rows && x.ts > p.ts;
      assert x in rows - {p};
      var q := LatestOf(rows - {p});
      assert forall e :: e in rows ==> e == p || e in rows - {p};
      p := q;
    }
  }

  /** Every set of rows can be read. */
  lemma StatusExists(rows: set<Event>, run: int, node: string) returns (st: Status)
    ensures NodeStatusIs(rows, run, node, st)
  {
    if exists e :: e in rows && Of(e, run, node) && e.status == StopReceived {
      st := StopReceived;
    } else if forall e :: e in rows && Of(e, run, node) ==> e.status == None {
      st := None;
    } else {
      var e :| e in rows && Of(e, run, node) && e.status != None;
      var p;
      if e.status == Start { p := PickEarliest(rows, e); } else { p := PickLatest(rows, e); }
      var picked := set x | x in rows && Picked(rows, x) && Of(x, run, node);
      assert p in picked;
      var last := LatestOf(picked);
      assert Picked(rows, last) && Of(last, run, node);
      assert forall x :: Picked(rows, x) && Of(x, run, node) ==> x in picked;
      st := last.status;
    }
  }

  // ---------------------------------------------------------------- statuses to run status

  /** The run's status: with every node finished, stop over fail over success; otherwise the
      lowest of none and start. */
  ghost predicate CombinedIs(statuses: map<string, Status>, st: Status) {
    if exists n :: n in statuses && statuses[n] == None then st == None
    else if exists n :: n in statuses && statuses[n] == Start then st == Start
    else if exists n :: n in statuses && statuses[n] == StopReceived then st == StopReceived
    else if exists n :: n in statuses && statuses[n] == Fail then st == Fail
    else st == if statuses == map[] then None else Success
  }

  method FigureOutRunStatus(events: seq<Event>, run: int, affected: seq<string>)
    returns (st: Status, statuses: map<string, Status>)
    requires Sorted(events)
    ensures forall n :: n in affected ==> n in statuses
    ensures forall n :: n in statuses ==>
              && statuses[n] == NodeFold(events, run, n)
              && (n in affected || exists e :: e in events && Of(e, run, n))
    ensures forall e :: e in events && e.run == run ==> e.node in statuses
    ensures CombinedIs(statuses, st)
  {
    statuses := map[];
    for k := 0 to |affected|
      invariant forall n :: n in statuses <==> n in affected[..k]
      invariant forall n :: n in statuses ==> statuses[n] == None
    {
      statuses := statuses[affected[k] := None];
    }
    assert affected[..|affected|] == affected;
    for k := 0 to |events|
      invariant forall n :: n in affected ==> n in statuses
      invariant forall e :: e in events[..k] && e.run == run ==> e.node in statuses
      invariant forall n :: n in statuses ==>
                  && statuses[n] == NodeFold(events[..k], run, n)
                  && (n in affected || exists e :: e in events && Of(e, run, n))
    {
      var e := events[k];
      assert events[..k + 1] == events[..k] + [e] && events[..k + 1][..k] == events[..k];
      if e.run == run {
        assert Of(e, run, e.node) && e in events;
        if e.node !in statuses {
          NodeFoldMeaning(events[..k], run, e.node);
          statuses := statuses[e.node := e.status];
        } else if statuses[e.node] != StopReceived {
          statuses := statuses[e.node := e.status];
        }
      }
    }
    assert events[..|events|] == events;
    st := CombineStatuses(statuses);
  }

  method CombineStatuses(statuses: map<string, Status>) returns (st: Status)
    ensures CombinedIs(statuses, st)
  {
    var highest, lowest := None, StopReceived;
    var left := statuses.Keys;
    while left != {}
      invariant left <= statuses.Keys
      invariant forall n :: n in statuses && n !in left ==>
                  lowest.Code() <= statuses[n].Code() <= highest.Code()
      invariant highest == None || exists n :: n in statuses && n !in left && statuses[n] == highest
      invariant lowest == StopReceived || exists n :: n in statuses && n !in left && statuses[n] == lowest
      decreases left
    {
      var n :| n in left;
      left := left - {n};
      if statuses[n].Code() > highest.Code() { highest := statuses[n]; }
      if statuses[n].Code() < lowest.Code() { lowest := statuses[n]; }
    }
    if lowest.Code() > Start.Code() {
      st := highest;
      if st == None {
        assert statuses.Keys == {};
      }
    } else {
      st := lowest;
    }
  }

  /** Reads the node history rows of the run's affected nodes, and decides whether the run is complete. */
  method UpdateRunStatusFromNodes(rows: seq<Event>, run: int, affected: seq<string>)
    returns (complete: bool, st: Status, statuses: map<string, Status>)
    requires forall r :: r in rows ==> r.run == run && r.node in affected
    ensures forall n :: n in statuses <==> n in affected
    ensures forall n :: n in statuses ==> NodeStatusIs(AsSet(rows), run, n, statuses[n])
    ensures CombinedIs(statuses, st) && (complete <==> st == Success || st == Fail)
  {
    var events := NodeHistoryRowsToEvents(rows);
    st, statuses := FigureOutRunStatus(events, run, affected);
    forall e | e in events ensures e.node in affected {
      assert Picked(AsSet(rows), e);
    }
    forall n | n in statuses ensures NodeStatusIs(AsSet(rows), run, n, statuses[n]) {
      FoldReadsRows(AsSet(rows), events, run, n);
    }
    complete := st == Success || st == Fail;
  }
}
