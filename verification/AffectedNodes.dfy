/** Which nodes a run will execute: the start nodes and what they lead to, up to the nodes that wait
    for an operator. */
module AffectedNodes {
  datatype Option<T> = None | Some(value: T)

  /** A node with the table it creates, the table it reads and the table it looks up. */
  datatype Node = Node(manual: bool, creates: Option<nat>, source: Option<nat>, lookup: Option<nat>)

  type Script = map<nat, Node>

  predicate Feeds(script: Script, r: nat, n: nat) {
    && r in script && n in script && script[r].creates.Some?
    && (script[r].creates == script[n].source || script[r].creates == script[n].lookup)
  }

  /** The tables form no cycle: every node ranks above the nodes that use its table. */
  ghost predicate Acyclic(script: Script, rank: nat -> nat) {
    forall r, n :: Feeds(script, r, n) ==> rank(n) < rank(r)
  }

  // ---------------------------------------------------------------- what a node leads to

  predicate Link(script: Script, avoid: set<nat>, p: seq<nat>, i: nat)
    requires i + 1 < |p|
  {
    Feeds(script, p[i], p[i + 1]) && p[i + 1] !in avoid
  }

  predicate IsPath(script: Script, avoid: set<nat>, p: seq<nat>) {
    forall i :: 0 <= i < |p| - 1 ==> Link(script, avoid, p, i)
  }

  /** There is a path from a to b that meets no avoided node after its first. */
  ghost predicate Leads(script: Script, avoid: set<nat>, a: nat, b: nat) {
    exists p: seq<nat> :: p != [] && p[0] == a && p[|p| - 1] == b && IsPath(script, avoid, p)
  }

  lemma LeadsToItself(script: Script, avoid: set<nat>, a: nat)
    ensures Leads(script, avoid, a, a)
  {
    assert IsPath(script, avoid, [a]);
  }

  lemma LeadsOn(script: Script, avoid: set<nat>, a: nat, n: nat, b: nat)
    requires Feeds(script, a, n) && n !in avoid && Leads(script, avoid, n, b)
    ensures Leads(script, avoid, a, b)
  {
    var p :| p != [] && p[0] == n && p[|p| - 1] == b && IsPath(script, avoid, p);
    var q := [a] + p;
    forall i | 0 <= i < |q| - 1 ensures Link(script, avoid, q, i) {
      assert i > 0 ==> Link(script, avoid, p, i - 1);
    }
  }

  lemma LeadsThrough(script: Script, avoid: set<nat>, a: nat, b: nat) returns (n: nat)
    requires Leads(script, avoid, a, b) && a != b
    ensures Feeds(script, a, n) && n !in avoid && Leads(script, avoid, n, b)
  {
    var p :| p != [] && p[0] == a && p[|p| - 1] == b && IsPath(script, avoid, p);
    n := p[1];
    assert Link(script, avoid, p, 0);
    var q := p[1..];
    forall i | 0 <= i < |q| - 1 ensures Link(script, avoid, q, i) {
      assert Link(script, avoid, p, i + 1);
    }
  }

  lemma {:induction false} RankFalls(script: Script, rank: nat -> nat, p: seq<nat>, n: nat)
    requires Acyclic(script, rank) && IsPath(script, {}, p) && n < |p|
    ensures rank(p[n]) <= rank(p[0]) - n
  {
    if n > 0 {
      RankFalls(script, rank, p, n - 1);
      assert Link(script, {}, p, n - 1);
    }
  }

  lemma NotBelowItself(script: Script, rank: nat -> nat, a: nat, n: nat)
    requires Acyclic(script, rank) && Feeds(script, a, n)
    ensures !Leads(script, {}, n, a)
  {
    if Leads(script, {}, n, a) {
      var p :| p != [] && p[0] == n && p[|p| - 1] == a && IsPath(script, {}, p);
      RankFalls(script, rank, p, |p| - 1);
    }
  }

  // ---------------------------------------------------------------- nodes that wait for an operator

  /** A child waits when its own policy says so, or when its parent waits and was not started by hand. */
  ghost predicate ClosedAt(script: Script, start: set<nat>, manual: set<nat>, r: nat) {
    forall n :: Feeds(script, r, n) && (script[n].manual || (r in manual && r !in start)) ==> n in manual
  }

  ghost predicate ClosedBelow(script: Script, start: set<nat>, manual: set<nat>, root: nat) {
    forall r :: Leads(script, {}, root, r) ==> ClosedAt(script, start, manual, r)
  }

  lemma ClosedBelowChild(script: Script, start: set<nat>, manual: set<nat>, root: nat, n: nat)
    requires ClosedBelow(script, start, manual, root) && Feeds(script, root, n)
    ensures ClosedBelow(script, start, manual, n)
  {
    forall r | Leads(script, {}, n, r) ensures ClosedAt(script, start, manual, r) {
      LeadsOn(script, {}, root, n, r);
    }
  }

  /** What growing the set below one child keeps: a node that was closed stays closed. */
  lemma {:induction false} StillClosed(script: Script, start: set<nat>, before: set<nat>, after: set<nat>, n: nat,
                                       other: nat)
    requires before <= after && ClosedBelow(script, start, before, other) && ClosedBelow(script, start, after, n)
    requires forall v :: v in after && v !in before ==> Leads(script, {}, n, v)
    ensures ClosedBelow(script, start, after, other)
  {
    forall r | Leads(script, {}, other, r) ensures ClosedAt(script, start, after, r) {
      if r in after && r !in before {
        assert Leads(script, {}, n, r);
      } else {
        assert ClosedAt(script, start, before, r);
      }
    }
  }

  method AddChildrenToManual(script: Script, root: nat, manual0: set<nat>, start: set<nat>, ghost rank: nat -> nat)
    returns (manual: set<nat>)
    requires root in script && Acyclic(script, rank)
    ensures manual0 <= manual && ClosedBelow(script, start, manual, root)
    ensures forall v :: v in manual && v !in manual0 ==> v != root && Leads(script, {}, root, v)
    ensures forall x: set<nat> :: manual0 <= x && ClosedBelow(script, start, x, root) ==> manual <= x
    decreases rank(root)
  {
    var waits := root in manual0 && root !in start;
    manual := manual0;
    var left := script.Keys;
    while left != {}
      invariant left <= script.Keys && manual0 <= manual
      invariant forall v :: v in manual && v !in manual0 ==> v != root && Leads(script, {}, root, v)
      invariant forall n :: n in script && n !in left && Feeds(script, root, n) ==>
                ClosedBelow(script, start, manual, n)
      invariant forall n :: n in script && n !in left && Feeds(script, root, n) && (waits || script[n].manual) ==>
                n in manual
      invariant forall x: set<nat> :: manual0 <= x && ClosedBelow(script, start, x, root) ==> manual <= x
      decreases |left|
    {
      var n :| n in left;
      left := left - {n};
      if Feeds(script, root, n) {
        ghost var before := manual;
        if waits || script[n].manual {
          manual := manual + {n};
        }
        ghost var with := manual;
        manual := AddChildrenToManual(script, n, manual, start, rank);
        NotBelowItself(script, rank, root, n);
        forall v | v in manual && v !in before
          ensures v != root && Leads(script, {}, n, v) && Leads(script, {}, root, v) {
          LeadsToItself(script, {}, n);
          LeadsOn(script, {}, root, n, v);
        }
        forall x: set<nat> | manual0 <= x && ClosedBelow(script, start, x, root) ensures manual <= x {
          ChildIsIn(script, start, root, x, n);
          assert with <= x;
        }
        forall m | m in script && m !in left && m != n && Feeds(script, root, m)
          ensures ClosedBelow(script, start, manual, m)
        {
          StillClosed(script, start, before, manual, n, m);
        }
      }
    }
    AllChildrenClosed(script, start, manual0, manual, root);
  }

  lemma ChildIsIn(script: Script, start: set<nat>, root: nat, x: set<nat>, n: nat)
    requires ClosedBelow(script, start, x, root) && Feeds(script, root, n)
    ensures ClosedBelow(script, start, x, n)
    ensures script[n].manual || (root in x && root !in start) ==> n in x
  {
    LeadsToItself(script, {}, root);
    assert ClosedAt(script, start, x, root);
    ClosedBelowChild(script, start, x, root, n);
  }

  lemma AllChildrenClosed(script: Script, start: set<nat>, manual0: set<nat>, manual: set<nat>, root: nat)
    requires manual0 <= manual && (root in manual ==> root in manual0)
    requires forall n :: Feeds(script, root, n) ==> ClosedBelow(script, start, manual, n)
    requires forall n :: Feeds(script, root, n) && (script[n].manual || (root in manual0 && root !in start)) ==>
             n in manual
    ensures ClosedBelow(script, start, manual, root)
  {
    forall r | Leads(script, {}, root, r) ensures ClosedAt(script, start, manual, r) {
      if r != root {
        var n := LeadsThrough(script, {}, root, r);
        assert ClosedBelow(script, start, manual, n);
      }
    }
  }

  ghost predicate ClosedFrom(script: Script, start: set<nat>, manual: set<nat>) {
    forall s :: s in start && s in script ==> ClosedBelow(script, start, manual, s)
  }

  /** The least set that is closed at every node the start nodes lead to. */
  ghost predicate IsWaitingSet(script: Script, start: set<nat>, manual: set<nat>) {
    ClosedFrom(script, start, manual) && forall x: set<nat> :: ClosedFrom(script, start, x) ==> manual <= x
  }

  /** A path from a start node has met a node with the manual policy, and no start node since. */
  ghost predicate BlockedBy(script: Script, start: set<nat>, p: seq<nat>, k: nat, n: nat) {
    && 1 <= k < |p| && p[0] in start && p[0] in script && p[|p| - 1] == n && IsPath(script, {}, p)
    && p[k] in script && script[p[k]].manual
    && forall i :: k <= i < |p| - 1 ==> p[i] !in start
  }

  ghost predicate Blocked(script: Script, start: set<nat>, n: nat) {
    exists p: seq<nat>, k: nat :: BlockedBy(script, start, p, k, n)
  }

  lemma PathExtends(script: Script, avoid: set<nat>, p: seq<nat>, n: nat)
    requires p != [] && IsPath(script, avoid, p) && Feeds(script, p[|p| - 1], n) && n !in avoid
    ensures IsPath(script, avoid, p + [n])
  {
    var q := p + [n];
    forall i | 0 <= i < |q| - 1 ensures Link(script, avoid, q, i) {
      assert i < |p| - 1 ==> Link(script, avoid, p, i);
    }
  }

  lemma PathPrefix(script: Script, avoid: set<nat>, p: seq<nat>, n: nat)
    requires n < |p| && IsPath(script, avoid, p)
    ensures IsPath(script, avoid, p[..n + 1])
  {
    var q := p[..n + 1];
    forall i | 0 <= i < n ensures Link(script, avoid, q, i) {
      assert Link(script, avoid, p, i);
    }
  }

  lemma BlockedIsClosedAt(script: Script, start: set<nat>, x: set<nat>, s: nat, r: nat)
    requires s in start && s in script && Leads(script, {}, s, r)
    requires forall n :: n in script ==> (n in x <==> Blocked(script, start, n))
    ensures ClosedAt(script, start, x, r)
  {
    forall n | Feeds(script, r, n) && (script[n].manual || (r in x && r !in start)) ensures n in x {
      if script[n].manual {
        var p :| p != [] && p[0] == s && p[|p| - 1] == r && IsPath(script, {}, p);
        PathExtends(script, {}, p, n);
        assert BlockedBy(script, start, p + [n], |p|, n);
      } else {
        var p: seq<nat>, k: nat :| BlockedBy(script, start, p, k, r);
        PathExtends(script, {}, p, n);
        assert BlockedBy(script, start, p + [n], k, n);
      }
    }
  }

  lemma {:induction false} BlockedWaits(script: Script, start: set<nat>, manual: set<nat>, p: seq<nat>, k: nat, n: nat)
    requires ClosedFrom(script, start, manual) && BlockedBy(script, start, p, k, n)
    ensures n in manual
    decreases |p|
  {
    var last := |p| - 1;
    assert Link(script, {}, p, last - 1);
    PathPrefix(script, {}, p, last - 1);
    assert Leads(script, {}, p[0], p[last - 1]) by {
      assert p[..last][0] == p[0] && p[..last][|p[..last]| - 1] == p[last - 1];
    }
    assert ClosedBelow(script, start, manual, p[0]);
    assert ClosedAt(script, start, manual, p[last - 1]);
    if k < last {
      assert p[last - 1] !in start;
      assert BlockedBy(script, start, p[..last], k, p[last - 1]);
      BlockedWaits(script, start, manual, p[..last], k, p[last - 1]);
    }
  }

  /** The waiting set holds exactly the nodes behind a node with the manual policy. */
  lemma WaitsIffBlocked(script: Script, start: set<nat>, manual: set<nat>, n: nat)
    requires IsWaitingSet(script, start, manual)
    ensures n in manual <==> Blocked(script, start, n)
  {
    var x := set m | m in script && Blocked(script, start, m);
    forall s, r | s in start && s in script && Leads(script, {}, s, r) ensures ClosedAt(script, start, x, r) {
      BlockedIsClosedAt(script, start, x, s, r);
    }
    assert ClosedFrom(script, start, x);
    if Blocked(script, start, n) {
      var p: seq<nat>, k: nat :| BlockedBy(script, start, p, k, n);
      BlockedWaits(script, start, manual, p, k, n);
    }
  }

  // ---------------------------------------------------------------- the affected nodes

  ghost predicate Below(script: Script, avoid: set<nat>, root: nat, v: nat) {
    v != root && Leads(script, avoid, root, v)
  }

  lemma LeadsAvoiding(script: Script, avoid: set<nat>, a: nat, b: nat)
    requires Leads(script, avoid, a, b)
    ensures Leads(script, {}, a, b)
  {
    var p :| p != [] && p[0] == a && p[|p| - 1] == b && IsPath(script, avoid, p);
    forall i | 0 <= i < |p| - 1 ensures Link(script, {}, p, i) {
      assert Link(script, avoid, p, i);
    }
  }

  lemma {:induction false} BelowChild(script: Script, avoid: set<nat>, root: nat, n: nat, v: nat, rank: nat -> nat)
    requires Acyclic(script, rank) && Feeds(script, root, n) && n !in avoid && Leads(script, avoid, n, v)
    ensures Below(script, avoid, root, v)
  {
    LeadsOn(script, avoid, root, n, v);
    LeadsAvoiding(script, avoid, n, v);
    NotBelowItself(script, rank, root, n);
  }

  method AddChildrenToAffected(script: Script, root: nat, affected0: set<nat>, manual: set<nat>, ghost rank: nat -> nat)
    returns (affected: set<nat>)
    requires root in script && Acyclic(script, rank)
    ensures forall v :: v in affected <==> v in affected0 || Below(script, manual, root, v)
    decreases rank(root)
  {
    affected := affected0;
    var left := script.Keys;
    while left != {}
      invariant left <= script.Keys && affected0 <= affected
      invariant forall v :: v in affected && v !in affected0 ==> Below(script, manual, root, v)
      invariant forall n, v ::
                  n in script && n !in left && Feeds(script, root, n) && n !in manual && Leads(script, manual, n, v) ==>
                    v in affected
      decreases |left|
    {
      var n :| n in left;
      left := left - {n};
      if Feeds(script, root, n) && n !in manual {
        affected := affected + {n};
        affected := AddChildrenToAffected(script, n, affected, manual, rank);
        LeadsToItself(script, manual, n);
        forall v | Leads(script, manual, n, v) ensures Below(script, manual, root, v) {
          BelowChild(script, manual, root, n, v, rank);
        }
      }
    }
    forall v | Below(script, manual, root, v) ensures v in affected {
      var n := LeadsThrough(script, manual, root, v);
    }
  }

  /** The start nodes and what they lead to without meeting a node of the waiting set. */
  ghost predicate IsAnswer(script: Script, start: set<nat>, affected: set<nat>) {
    exists manual: set<nat> :: IsWaitingSet(script, start, manual) && IsReached(script, start, manual, affected)
  }

  ghost predicate IsReached(script: Script, start: set<nat>, manual: set<nat>, affected: set<nat>) {
    forall v :: v in affected <==> exists s :: s in start && s in script && Leads(script, manual, s, v)
  }

  function AsSet(names: seq<nat>): set<nat> {
    set s | s in names
  }

  method GetAffectedNodes(script: Script, startNames: seq<nat>, ghost rank: nat -> nat) returns (affected: set<nat>)
    requires Acyclic(script, rank)
    ensures IsAnswer(script, AsSet(startNames), affected)
  {
    var start := AsSet(startNames);
    var manual := {};
    for i := 0 to |startNames|
      invariant forall k :: 0 <= k < i && startNames[k] in script ==> ClosedBelow(script, start, manual, startNames[k])
      invariant forall x: set<nat> :: ClosedFrom(script, start, x) ==> manual <= x
    {
      if startNames[i] in script {
        ghost var before := manual;
        manual := AddChildrenToManual(script, startNames[i], manual, start, rank);
        forall k | 0 <= k < i && startNames[k] in script ensures ClosedBelow(script, start, manual, startNames[k]) {
          StillClosed(script, start, before, manual, startNames[i], startNames[k]);
        }
      }
    }
    affected := {};
    for i := 0 to |startNames|
      invariant forall v :: v in affected <==>
                  exists k :: 0 <= k < i && startNames[k] in script && Leads(script, manual, startNames[k], v)
    {
      if startNames[i] in script {
        affected := affected + {startNames[i]};
        LeadsToItself(script, manual, startNames[i]);
        affected := AddChildrenToAffected(script, startNames[i], affected, manual, rank);
      }
    }
    forall v | exists s :: s in start && s in script && Leads(script, manual, s, v) ensures v in affected {
      var s :| s in start && s in script && Leads(script, manual, s, v);
      var k :| 0 <= k < |startNames| && startNames[k] == s;
    }
    assert IsReached(script, start, manual, affected);
  }

  /** The answer depends neither on the order of the start nodes nor on the order of the script's nodes. */
  lemma AnswerIsUnique(script: Script, start: set<nat>, a: set<nat>, b: set<nat>)
    requires IsAnswer(script, start, a) && IsAnswer(script, start, b)
    ensures a == b
  {
    var m: set<nat> :| IsWaitingSet(script, start, m) && IsReached(script, start, m, a);
    var n: set<nat> :| IsWaitingSet(script, start, n) && IsReached(script, start, n, b);
    assert m == n;
    forall v ensures v in a <==> v in b {
    }
  }
}
