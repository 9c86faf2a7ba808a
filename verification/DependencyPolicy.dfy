/** Deciding from the history of a dependency node whether a node may run. */
module DependencyPolicy {
  import opened IndexKey

  datatype Cmd = Go | Wait | Nogo

  /** What is known about the dependency node in one run. */
  datatype NodeRun = NodeRun(runId: int, runIsCurrent: bool, runStatus: int, nodeStatus: int)

  datatype Rule = Rule(cmd: Cmd, expression: NodeRun -> bool)

  datatype Policy = Policy(order: seq<Component>, rules: seq<Rule>)

  const RUN_IS_CURRENT: nat := 0
  const RUN_ID: nat := 1

  /** The fields a policy can order by. */
  function Vars(e: NodeRun): map<nat, Value> {
    map[RUN_IS_CURRENT := BoolV(e.runIsCurrent), RUN_ID := IntV(e.runId)]
  }

  predicate IsInt16(x: int) {
    -0x8000 <= x < 0x8000
  }

  function SortKey(policy: Policy, e: NodeRun): Bytes {
    KeyOf(Vars(e), policy.order)
  }

  /** An event with the key that was built for it. */
  datatype Keyed = Keyed(event: NodeRun, key: Bytes)

  predicate InOrder(s: seq<Keyed>, i: nat, j: nat)
    requires i < |s| && j < |s|
  {
    !Less(s[j].key, s[i].key)
  }

  ghost predicate Sorted(s: seq<Keyed>) {
    forall i, j :: 0 <= i < j < |s| ==> InOrder(s, i, j)
  }

  lemma {:induction false} LessIsTransitive(a: Bytes, b: Bytes, c: Bytes)
    requires !Less(b, a) && !Less(c, b)
    ensures !Less(c, a)
  {
    if a != [] && b != [] && c != [] {
      if a[0] == b[0] == c[0] {
        LessIsTransitive(a[1..], b[1..], c[1..]);
      }
    }
  }

  lemma {:induction false} LessIsTotal(a: Bytes, b: Bytes)
    ensures !Less(a, b) || !Less(b, a)
  {
    if a != [] && b != [] {
      LessIsTotal(a[1..], b[1..]);
    }
  }

  lemma {:induction false} InsertSorted(s: seq<Keyed>, x: Keyed, k: nat)
    requires Sorted(s) && k <= |s|
    requires k > 0 ==> !Less(x.key, s[k - 1].key)
    requires k < |s| ==> Less(x.key, s[k].key)
    ensures Sorted(s[..k] + [x] + s[k..])
  {
    var t := s[..k] + [x] + s[k..];
    forall i, j | 0 <= i < j < |t| ensures InOrder(t, i, j) {
      var a, b := if i <= k then i else i - 1, if j <= k then j else j - 1;
      if i != k && j != k {
        assert InOrder(s, a, b);
      } else if i == k {
        LessIsTotal(x.key, s[k].key);
        if b > k {
          assert InOrder(s, k, b);
          LessIsTransitive(x.key, s[k].key, s[b].key);
        }
      } else if a < k - 1 {
        assert InOrder(s, a, k - 1);
        LessIsTransitive(s[a].key, s[k - 1].key, x.key);
      }
    }
  }

  method Insert(s: seq<Keyed>, x: Keyed) returns (sorted: seq<Keyed>)
    requires Sorted(s)
    ensures Sorted(sorted) && multiset(sorted) == multiset(s) + multiset{x}
  {
    var k := |s|;
    while k > 0 && Less(x.key, s[k - 1].key)
      invariant 0 <= k <= |s|
      invariant k < |s| ==> Less(x.key, s[k].key)
    {
      k := k - 1;
    }
    InsertSorted(s, x, k);
    assert s == s[..k] + s[k..];
    sorted := s[..k] + [x] + s[k..];
  }

  method Sort(events: seq<Keyed>) returns (sorted: seq<Keyed>)
    ensures Sorted(sorted) && multiset(sorted) == multiset(events)
  {
    sorted := [];
    for n := 0 to |events|
      invariant Sorted(sorted) && multiset(sorted) == multiset(events[..n])
    {
      assert events[..n + 1] == events[..n] + [events[n]];
      sorted := Insert(sorted, events[n]);
    }
    assert events[..|events|] == events;
  }

  /** Builds the keys, and sorts the events by them. */
  method SortEvents(policy: Policy, events: seq<NodeRun>) returns (sorted: seq<Keyed>)
    requires events != []
    ensures Sorted(sorted) && sorted != []
    ensures forall k :: 0 <= k < |sorted| ==>
              sorted[k].event in events && sorted[k].key == SortKey(policy, sorted[k].event)
    ensures forall e :: e in events ==> Keyed(e, SortKey(policy, e)) in sorted
  {
    var keyed: seq<Keyed> := [];
    for n := 0 to |events|
      invariant |keyed| == n
      invariant forall k :: 0 <= k < n ==> keyed[k] == Keyed(events[k], SortKey(policy, events[k]))
    {
      keyed := keyed + [Keyed(events[n], SortKey(policy, events[n]))];
    }
    sorted := Sort(keyed);
    assert |multiset(sorted)| == |multiset(keyed)|;
    forall k | 0 <= k < |sorted| ensures sorted[k] in keyed {
      assert sorted[k] in multiset(sorted);
    }
    forall e | e in events ensures Keyed(e, SortKey(policy, e)) in sorted {
      var k :| 0 <= k < |events| && events[k] == e;
      assert keyed[k] in multiset(keyed);
      assert keyed[k] in multiset(sorted);
    }
  }

  /** No rule before `r` accepts the event. */
  predicate NoneBefore(policy: Policy, e: NodeRun, r: nat)
    requires r <= |policy.rules|
  {
    forall k :: 0 <= k < r ==> !policy.rules[k].expression(e)
  }

  datatype Decision = Decision(cmd: Cmd, runId: int, ruleIdx: int)

  /** The decision of the first event, in the policy's order, that a rule accepts, and of its first rule. */
  ghost predicate IsFirstMatch(policy: Policy, events: seq<NodeRun>, e: NodeRun, r: nat) {
    && r < |policy.rules| && e in events && policy.rules[r].expression(e) && NoneBefore(policy, e, r)
    && forall f :: f in events && !NoneBefore(policy, f, |policy.rules|) ==>
        !Less(SortKey(policy, f), SortKey(policy, e))
  }

  /** The event the policy's order puts first. */
  ghost predicate IsFirst(policy: Policy, events: seq<NodeRun>, e: NodeRun) {
    e in events && forall f :: f in events ==> !Less(SortKey(policy, f), SortKey(policy, e))
  }

  lemma {:induction false} LaterIsNotLess(sorted: seq<Keyed>, n: nat, x: Keyed)
    requires Sorted(sorted) && n < |sorted| && x in sorted
    requires forall k :: 0 <= k < n ==> sorted[k] != x
    ensures !Less(x.key, sorted[n].key)
  {
    var k :| 0 <= k < |sorted| && sorted[k] == x;
    if k > n {
      assert InOrder(sorted, n, k);
    } else {
      LessIsStrict(x.key);
    }
  }

  ghost predicate Matched(policy: Policy, events: seq<NodeRun>, d: Decision) {
    && 0 <= d.ruleIdx < |policy.rules| && d.cmd == policy.rules[d.ruleIdx].cmd
    && exists e: NodeRun :: IsFirstMatch(policy, events, e, d.ruleIdx) && d.runId == e.runId
  }

  ghost predicate Unmatched(policy: Policy, events: seq<NodeRun>, d: Decision) {
    && d.ruleIdx == -1 && d.cmd == Wait
    && (forall f :: f in events ==> NoneBefore(policy, f, |policy.rules|))
    && exists e: NodeRun :: IsFirst(policy, events, e) && d.runId == e.runId
  }

  method CheckDependencyPolicyAgainstNodeEventList(policy: Policy, events: seq<NodeRun>) returns (d: Decision)
    requires events != []
    ensures Matched(policy, events, d) || Unmatched(policy, events, d)
  {
    var sorted := SortEvents(policy, events);
    for n := 0 to |sorted|
      invariant forall k :: 0 <= k < n ==> NoneBefore(policy, sorted[k].event, |policy.rules|)
    {
      var e := sorted[n].event;
      for r := 0 to |policy.rules|
        invariant NoneBefore(policy, e, r)
      {
        if policy.rules[r].expression(e) {
          forall f | f in events && !NoneBefore(policy, f, |policy.rules|)
            ensures !Less(SortKey(policy, f), SortKey(policy, e)) {
            LaterIsNotLess(sorted, n, Keyed(f, SortKey(policy, f)));
          }
          assert IsFirstMatch(policy, events, e, r);
          return Decision(policy.rules[r].cmd, e.runId, r);
        }
      }
    }
    forall f | f in events ensures !Less(SortKey(policy, f), SortKey(policy, sorted[0].event)) {
      LaterIsNotLess(sorted, 0, Keyed(f, SortKey(policy, f)));
    }
    assert IsFirst(policy, events, sorted[0].event);
    return Decision(Wait, sorted[0].event.runId, -1);
  }

  // ---------------------------------------------------------------- the default order

  /** The current run first, then the other runs from the latest to the earliest. */
  const DEFAULT_ORDER: seq<Component> := [Component(RUN_IS_CURRENT, BoolT, true), Component(RUN_ID, IntT, true)]

  lemma DefaultOrder(policy: Policy, a: NodeRun, b: NodeRun)
    requires policy.order == DEFAULT_ORDER && IsInt16(a.runId) && IsInt16(b.runId)
    ensures Less(SortKey(policy, a), SortKey(policy, b))
            <==> (a.runIsCurrent && !b.runIsCurrent) || (a.runIsCurrent == b.runIsCurrent && a.runId > b.runId)
  {
    var u, v := Vars(a), Vars(b);
    PlainKeysPreserveOrder(u, v, DEFAULT_ORDER);
    assert RowPrecedes(DEFAULT_ORDER, RowOf(u, DEFAULT_ORDER), RowOf(v, DEFAULT_ORDER), 1) <==> a.runId > b.runId;
  }
}
