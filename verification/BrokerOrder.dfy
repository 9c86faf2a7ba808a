/** When the broker's queue stays sorted under every schedule of concurrent clients. */
module BrokerOrder {
  import opened Broker
  import opened BrokerLocks
  import R = Reachability

  /** Further bulks bring messages with a group only. */
  ghost predicate GroupedSteps(s: State, t: State) {
    exists x :: Next(s, t, x) && (x.QBulk? ==> AllGrouped(x.msgs))
  }

  ghost predicate SortedForEver(start: State) {
    forall s :: s in R.States(From(start), GroupedSteps) ==> Sorted(s.q)
  }

  /** Every message in the queue, in the map and in the clients' hands has a group. */
  ghost predicate EveryoneGrouped(s: State) {
    && AllGrouped(s.q) && (forall id :: id in s.wip ==> s.wip[id].group != "")
    && (forall c :: 0 <= c < |s.flights| ==> AllGrouped(Carried(s.flights[c])))
  }

  ghost function InOrderAlways(): State -> bool {
    s => Ordered(s)
  }

  lemma GroupedForEver(start: State)
    requires Ordered(start)
    ensures SortedForEver(start)
  {
    assert R.Begins(From(start), InOrderAlways());
    assert R.Keeps(GroupedSteps, InOrderAlways()) by {
      forall s, t | Ordered(s) && GroupedSteps(s, t) ensures Ordered(t) {
        var x :| Next(s, t, x) && (x.QBulk? ==> AllGrouped(x.msgs));
        NextOrders(s, t, x);
      }
    }
    forall s | s in R.States(From(start), GroupedSteps) ensures Sorted(s.q) {
      R.Always(From(start), GroupedSteps, InOrderAlways(), s);
    }
  }

  // ---------------------------------------------------------------- a message without a group

  /** States that schedules lead to: every schedule may go on with a step. */
  ghost predicate Closed(reach: iset<State>) {
    forall s, t :: s in reach && GroupedSteps(s, t) ==> t in reach
  }

  lemma Take(reach: iset<State>, s: State, t: State, x: Section)
    requires Closed(reach) && s in reach && Next(s, t, x) && !x.QBulk?
    ensures t in reach
  {
    assert GroupedSteps(s, t);
  }

  /** Some message waits in the queue, so that another one can come before it. */
  lemma WithSomething(reach: iset<State>, s: State) returns (t: State)
    requires Closed(reach) && s in reach
    ensures t in reach && t.q != [] && t.flights == s.flights && t.wip == s.wip
  {
    t := s;
    if s.q == [] {
      var msgs := [Message(0, "g", 0, 0, 0, "")];
      var all := s.q + Stamped(msgs, 0);
      t := s.(q := all, enqueued := s.enqueued + Ids(msgs));
      assert |all| == 1;
      assert Next(s, t, QBulk(msgs, 0)) && AllGrouped(msgs);
      assert GroupedSteps(s, t);
    }
  }

  /** A message without a group that is returned goes to the end of the queue, where it may be too early. */
  lemma ReturnBreaks(reach: iset<State>, s: State, d: nat) returns (t: State)
    requires Closed(reach) && s in reach && d < |s.flights| && s.flights[d].Returning?
    requires s.flights[d].returned.group == ""
    ensures t in reach && !Sorted(t.q)
  {
    var u := WithSomething(reach, s);
    var f, n := u.flights[d], |u.q|;
    var now := u.q[n - 1].deliverAfter - f.delay - 1;
    t := u.(q := u.q + [f.returned.(deliverAfter := now + f.delay)], flights := u.flights[d := Nothing]);
    Take(reach, u, t, ReturnToQ(d, now));
    assert !InOrder(t.q, n - 1, n);
  }

  lemma HeldBreaks(reach: iset<State>, s: State, c: nat, id: nat) returns (t: State)
    requires Closed(reach) && s in reach && Idle(s, c) && id in s.wip && s.wip[id].group == ""
    ensures t in reach && !Sorted(t.q)
  {
    var m := s.wip[id].(claimComment := "");
    var u := s.(wip := s.wip - {id}, flights := s.flights[c := Returning(m, 0)]);
    Take(reach, s, u, ReturnFromWip(c, id, 0));
    t := ReturnBreaks(reach, u, c);
  }

  lemma {:induction false} QueuedBreaks(reach: iset<State>, s: State, c: nat, k: nat) returns (t: State)
    requires Closed(reach) && s in reach && Idle(s, c) && k < |s.q| && s.q[k].group == ""
    ensures t in reach && !Sorted(t.q)
    decreases k
  {
    var now := s.q[0].deliverAfter;
    var m := s.q[0].(heartbeat := now, claimComment := "");
    var u := s.(q := s.q[1..], flights := s.flights[c := Claimed(m)]);
    Take(reach, s, u, ClaimFromQ(c, "", now));
    var v := u.(wip := u.wip[m.id := m], flights := u.flights[c := Nothing]);
    Take(reach, u, v, ClaimToWip(c));
    if k == 0 {
      t := HeldBreaks(reach, v, c, m.id);
    } else {
      t := QueuedBreaks(reach, v, c, k - 1);
    }
  }

  lemma DeadBreaks(reach: iset<State>, s: State, c: nat, d: nat, k: nat) returns (t: State)
    requires Closed(reach) && s in reach && Idle(s, c) && d < |s.flights| && s.flights[d].Dead?
    requires k < |s.flights[d].dead| && s.flights[d].dead[k].group == ""
    ensures t in reach && !Sorted(t.q)
  {
    var dead := s.flights[d].dead;
    var q := SortExists(s.q + dead);
    var u := s.(q := q, flights := s.flights[d := Nothing]);
    Take(reach, s, u, DeadToQ(d));
    assert (s.q + dead)[|s.q| + k] in multiset(s.q + dead);
    var i := IndexOf(q, dead[k]);
    t := QueuedBreaks(reach, u, c, i);
  }

  lemma CarriedBreaks(reach: iset<State>, s: State, c: nat, d: nat) returns (t: State)
    requires Closed(reach) && s in reach && Idle(s, c) && d < |s.flights| && !AllGrouped(Carried(s.flights[d]))
    ensures t in reach && !Sorted(t.q)
  {
    var k :| 0 <= k < |Carried(s.flights[d])| && Carried(s.flights[d])[k].group == "";
    match s.flights[d]
    case Claimed(m) =>
      var u := s.(wip := s.wip[m.id := m], flights := s.flights[d := Nothing]);
      Take(reach, s, u, ClaimToWip(d));
      t := HeldBreaks(reach, u, c, m.id);
    case Returning(_, _) =>
      t := ReturnBreaks(reach, s, d);
    case Dead(_) =>
      t := DeadBreaks(reach, s, c, d, k);
    case Nothing =>
  }

  lemma UngroupedBreaks(reach: iset<State>, s: State, c: nat) returns (t: State)
    requires Closed(reach) && s in reach && Idle(s, c) && !EveryoneGrouped(s)
    ensures t in reach && !Sorted(t.q)
  {
    if k :| 0 <= k < |s.q| && s.q[k].group == "" {
      t := QueuedBreaks(reach, s, c, k);
    } else if id :| id in s.wip && s.wip[id].group == "" {
      t := HeldBreaks(reach, s, c, id);
    } else {
      var d :| 0 <= d < |s.flights| && !AllGrouped(Carried(s.flights[d]));
      t := CarriedBreaks(reach, s, c, d);
    }
  }

  lemma RunsAreClosed(start: State)
    ensures Closed(R.States(From(start), GroupedSteps)) && start in R.States(From(start), GroupedSteps)
  {
    R.Initially(From(start), GroupedSteps, start);
    forall s, t | s in R.States(From(start), GroupedSteps) && GroupedSteps(s, t)
      ensures t in R.States(From(start), GroupedSteps)
    {
      R.OneMoreStep(From(start), GroupedSteps, s, t);
    }
  }

  /** From any state with a sorted queue in which a client is free, and with further bulks of messages
      with a group: the queue is sorted in every schedule if and only if every message there is has a
      group. */
  lemma SortedForEverIff(s: State, c: nat)
    requires Sorted(s.q) && Idle(s, c)
    ensures SortedForEver(s) <==> EveryoneGrouped(s)
  {
    if EveryoneGrouped(s) {
      GroupedForEver(s);
    } else {
      RunsAreClosed(s);
      var t := UngroupedBreaks(R.States(From(s), GroupedSteps), s, c);
    }
  }
}
