/** Ordering calculated fields so that each comes after the fields its formula uses. */
module Kahn {
  /** The fields that have a formula, and what each formula uses, with repetitions. */
  type DepMap = map<nat, seq<nat>>

  function Deps(depMap: DepMap, node: nat): seq<nat> {
    if node in depMap then depMap[node] else []
  }

  // ---------------------------------------------------------------- cycles

  predicate IsPath(depMap: DepMap, p: seq<nat>) {
    forall i :: 0 <= i < |p| - 1 ==> Edge(depMap, p, i)
  }

  predicate Edge(depMap: DepMap, p: seq<nat>, i: nat)
    requires i + 1 < |p|
  {
    p[i + 1] in Deps(depMap, p[i])
  }

  ghost predicate HasCycle(depMap: DepMap) {
    exists p: seq<nat> :: |p| >= 2 && p[0] == p[|p| - 1] && IsPath(depMap, p)
  }

  /** Each of these nodes is used by one of them. */
  ghost predicate Entangled(depMap: DepMap, nodes: set<nat>) {
    forall v {:trigger UsedBy(depMap, nodes, v)} :: v in nodes ==> UsedBy(depMap, nodes, v)
  }

  ghost predicate UsedBy(depMap: DepMap, nodes: set<nat>, v: nat) {
    exists u :: u in nodes && v in Deps(depMap, u)
  }

  lemma {:induction false} WalkBack(depMap: DepMap, nodes: set<nat>, first: nat, n: nat) returns (p: seq<nat>)
    requires Entangled(depMap, nodes) && first in nodes
    ensures |p| == n + 1 && IsPath(depMap, p) && forall i :: 0 <= i < |p| ==> p[i] in nodes
  {
    if n == 0 {
      p := [first];
    } else {
      var q := WalkBack(depMap, nodes, first, n - 1);
      assert UsedBy(depMap, nodes, q[0]);
      var u :| u in nodes && q[0] in Deps(depMap, u);
      p := [u] + q;
      forall i | 0 <= i < |p| - 1 ensures Edge(depMap, p, i) {
        assert i > 0 ==> Edge(depMap, q, i - 1);
      }
    }
  }

  lemma {:induction false} Pigeonhole(p: seq<nat>, nodes: set<nat>) returns (i: nat, j: nat)
    requires |p| > |nodes| && forall k :: 0 <= k < |p| ==> p[k] in nodes
    ensures i < j < |p| && p[i] == p[j]
    decreases |p|
  {
    var last := |p| - 1;
    if exists k :: 0 <= k < last && p[k] == p[last] {
      i :| 0 <= i < last && p[i] == p[last];
      j := last;
    } else {
      i, j := Pigeonhole(p[..last], nodes - {p[last]});
    }
  }

  lemma EntangledHasCycle(depMap: DepMap, nodes: set<nat>, first: nat)
    requires Entangled(depMap, nodes) && first in nodes
    ensures HasCycle(depMap)
  {
    var p := WalkBack(depMap, nodes, first, |nodes|);
    var i, j := Pigeonhole(p, nodes);
    var cycle := p[i..j + 1];
    assert IsPath(depMap, cycle) by {
      forall k | 0 <= k < |cycle| - 1 ensures Edge(depMap, cycle, k) {
        assert Edge(depMap, p, i + k);
      }
    }
    assert cycle[0] == cycle[|cycle| - 1];
  }

  // ---------------------------------------------------------------- an order that respects the dependencies

  predicate Before(depMap: DepMap, order: seq<nat>, i: nat, j: nat)
    requires i < |order| && j < |order|
  {
    order[j] in Deps(depMap, order[i]) ==> j < i
  }

  /** Whatever a field uses is calculated before it. */
  ghost predicate DepsFirst(depMap: DepMap, order: seq<nat>) {
    forall i, j :: 0 <= i < |order| && 0 <= j < |order| ==> Before(depMap, order, i, j)
  }

  predicate Distinct(order: seq<nat>) {
    forall i, j :: 0 <= i < j < |order| ==> order[i] != order[j]
  }

  lemma {:induction false} PathGoesDown(depMap: DepMap, order: seq<nat>, p: seq<nat>, n: nat, a: nat, b: nat)
    requires DepsFirst(depMap, order) && Distinct(order) && IsPath(depMap, p) && 0 < n < |p|
    requires forall v :: v in depMap ==> v in order
    requires a < |order| && b < |order| && order[a] == p[0] && order[b] == p[n]
    ensures b < a
    decreases n
  {
    assert Edge(depMap, p, n - 1);
    assert p[n - 1] in order;
    var c :| 0 <= c < |order| && order[c] == p[n - 1];
    assert Before(depMap, order, c, b);
    if n > 1 {
      PathGoesDown(depMap, order, p, n - 1, a, c);
    }
  }

  lemma OrderedHasNoCycle(depMap: DepMap, order: seq<nat>)
    requires DepsFirst(depMap, order) && Distinct(order) && forall v :: v in depMap ==> v in order
    ensures !HasCycle(depMap)
  {
    forall p: seq<nat> | |p| >= 2 && p[0] == p[|p| - 1] ensures !IsPath(depMap, p) {
      if IsPath(depMap, p) {
        assert Edge(depMap, p, 0);
        assert p[0] in order;
        var a :| 0 <= a < |order| && order[a] == p[0];
        PathGoesDown(depMap, order, p, |p| - 1, a, a);
      }
    }
  }

  // ---------------------------------------------------------------- counting uses

  function Count(uses: seq<nat>, v: nat): nat {
    if uses == [] then 0 else Count(uses[..|uses| - 1], v) + if uses[|uses| - 1] == v then 1 else 0
  }

  lemma {:induction false} CountZeroIff(uses: seq<nat>, v: nat)
    ensures Count(uses, v) == 0 <==> v !in uses
  {
    if uses != [] {
      CountZeroIff(uses[..|uses| - 1], v);
      assert uses == uses[..|uses| - 1] + [uses[|uses| - 1]];
    }
  }

  lemma {:induction false} CountFirst(uses: seq<nat>, k: nat, v: nat)
    requires k < |uses|
    ensures Count(uses[k..], v) == Count(uses[k + 1..], v) + if uses[k] == v then 1 else 0
    decreases |uses|
  {
    var n := |uses| - 1;
    assert uses[k..][..n - k] == uses[..n][k..];
    if k < n {
      CountFirst(uses[..n], k, v);
      assert uses[k + 1..][..n - k - 1] == uses[..n][k + 1..];
    } else {
      assert uses[k..][..0] == [];
    }
  }

  /** How often the listed nodes that are not in `done` use a node. */
  function Degree(depMap: DepMap, nodes: seq<nat>, done: set<nat>, v: nat): nat {
    if nodes == [] then 0
    else
      var u := nodes[|nodes| - 1];
      Degree(depMap, nodes[..|nodes| - 1], done, v) + if u in done then 0 else Count(Deps(depMap, u), v)
  }

  lemma {:induction false} DegreeSame(depMap: DepMap, nodes: seq<nat>, done: set<nat>, u: nat, v: nat)
    requires u !in nodes
    ensures Degree(depMap, nodes, done + {u}, v) == Degree(depMap, nodes, done, v)
  {
    if nodes != [] {
      assert nodes[|nodes| - 1] in nodes;
      DegreeSame(depMap, nodes[..|nodes| - 1], done, u, v);
    }
  }

  lemma {:induction false} DegreeDone(depMap: DepMap, nodes: seq<nat>, done: set<nat>, u: nat, v: nat)
    requires Distinct(nodes) && u !in done
    ensures Degree(depMap, nodes, done, v)
            == Degree(depMap, nodes, done + {u}, v) + if u in nodes then Count(Deps(depMap, u), v) else 0
  {
    if nodes != [] {
      var n := |nodes| - 1;
      assert nodes == nodes[..n] + [nodes[n]];
      if nodes[n] == u {
        assert u !in nodes[..n];
        DegreeSame(depMap, nodes[..n], done, u, v);
      } else {
        DegreeDone(depMap, nodes[..n], done, u, v);
      }
    }
  }

  lemma {:induction false} DegreeZeroIff(depMap: DepMap, nodes: seq<nat>, done: set<nat>, v: nat)
    ensures Degree(depMap, nodes, done, v) > 0 <==> exists u :: u in nodes && u !in done && v in Deps(depMap, u)
  {
    if nodes != [] {
      var n := |nodes| - 1;
      assert nodes == nodes[..n] + [nodes[n]];
      DegreeZeroIff(depMap, nodes[..n], done, v);
      CountZeroIff(Deps(depMap, nodes[n]), v);
      if Degree(depMap, nodes, done, v) > 0 {
        if Degree(depMap, nodes[..n], done, v) > 0 {
          var u :| u in nodes[..n] && u !in done && v in Deps(depMap, u);
          assert u in nodes;
        } else {
          assert nodes[n] in nodes;
        }
      }
    }
  }

  // ---------------------------------------------------------------- the algorithm

  type Degrees = map<nat, nat>

  /** The degrees count the uses by nodes that are not done, and by the rest of one node's formula. */
  ghost predicate Counted(depMap: DepMap, nodes: seq<nat>, done: set<nat>, rest: seq<nat>, inDegree: Degrees) {
    forall v :: v in inDegree ==> inDegree[v] == Degree(depMap, nodes, done, v) + Count(rest, v)
  }

  ghost predicate AllUsesIn(depMap: DepMap, inDegree: Degrees) {
    forall u, v {:trigger v in Deps(depMap, u)} :: v in Deps(depMap, u) ==> v in inDegree
  }

  predicate Waits(inDegree: Degrees, v: nat) {
    v in inDegree && inDegree[v] > 0
  }

  /** A node is queued or done exactly when nothing that waits uses it. */
  ghost predicate Scheduled(depMap: DepMap, inDegree: Degrees, queue: seq<nat>, done: set<nat>) {
    && (forall v :: v in depMap || v in inDegree ==> (v in queue || v in done <==> !Waits(inDegree, v)))
    && (forall v :: v in queue || v in done ==> v in depMap || v in inDegree)
    && Distinct(queue) && forall v :: v in queue ==> v !in done
  }

  ghost predicate Placed(depMap: DepMap, order: seq<nat>, done: set<nat>) {
    Distinct(order) && DepsFirst(depMap, order) && forall v :: v in order <==> v in done && v in depMap
  }

  lemma NotUsed(depMap: DepMap, nodes: seq<nat>, done: set<nat>, u: nat, v: nat)
    requires Degree(depMap, nodes, done, v) == 0 && u in nodes && u !in done
    ensures v !in Deps(depMap, u)
  {
    DegreeZeroIff(depMap, nodes, done, v);
  }

  /** Nothing that is done, nor the node itself, is used by a node that can be taken from the queue. */
  lemma FreeToPlace(depMap: DepMap, nodes: seq<nat>, inDegree: Degrees, queue: seq<nat>, done: set<nat>, node: nat,
                    v: nat)
    requires Counted(depMap, nodes, done, [], inDegree) && AllUsesIn(depMap, inDegree)
    requires Scheduled(depMap, inDegree, queue, done) && node in queue && node in nodes && node in depMap
    requires v == node || v in done
    ensures v !in Deps(depMap, node)
  {
    if v in inDegree {
      NotUsed(depMap, nodes, done, node, v);
    }
  }

  lemma Prepend(depMap: DepMap, order: seq<nat>, node: nat)
    requires Distinct(order) && DepsFirst(depMap, order) && node !in order
    requires forall v :: v == node || v in order ==> v !in Deps(depMap, node)
    ensures Distinct([node] + order) && DepsFirst(depMap, [node] + order)
  {
    var new_ := [node] + order;
    forall i, j | 0 <= i < |new_| && 0 <= j < |new_| ensures Before(depMap, new_, i, j) {
      if i == 0 {
        assert new_[j] == node || new_[j] in order;
      } else {
        assert j > 0 ==> Before(depMap, order, i - 1, j - 1);
      }
    }
  }

  lemma StuckIsEntangled(depMap: DepMap, nodes: seq<nat>, inDegree: Degrees, done: set<nat>, v: nat)
    requires Counted(depMap, nodes, done, [], inDegree) && Scheduled(depMap, inDegree, [], done) && Waits(inDegree, v)
    requires forall u :: u in nodes ==> u in depMap
    ensures HasCycle(depMap)
  {
    var stuck := set w | w in inDegree && Waits(inDegree, w);
    forall w | w in stuck ensures UsedBy(depMap, stuck, w) {
      DegreeZeroIff(depMap, nodes, done, w);
      var u :| u in nodes && u !in done && w in Deps(depMap, u);
      assert u in stuck;
    }
    EntangledHasCycle(depMap, stuck, v);
  }

  method Elements(keys: set<nat>) returns (nodes: seq<nat>)
    ensures Distinct(nodes) && forall v :: v in nodes <==> v in keys
  {
    nodes := [];
    var left := keys;
    while left != {}
      invariant left <= keys && Distinct(nodes)
      invariant forall v :: v in nodes <==> v in keys && v !in left
      decreases |left|
    {
      var v :| v in left;
      nodes, left := nodes + [v], left - {v};
    }
  }

  lemma {:induction false} CountLast(uses: seq<nat>, k: nat, v: nat)
    requires k < |uses|
    ensures Count(uses[..k + 1], v) == Count(uses[..k], v) + if uses[k] == v then 1 else 0
  {
    assert uses[..k + 1][..k] == uses[..k];
  }

  function Bump(inDegree: Degrees, v: nat): Degrees {
    inDegree[v := if v in inDegree then inDegree[v] + 1 else 1]
  }

  predicate HasDegree(inDegree: Degrees, v: nat, d: nat) {
    if d == 0 then v !in inDegree else v in inDegree && inDegree[v] == d
  }

  method CountUses(depMap: DepMap, nodes: seq<nat>) returns (inDegree: Degrees)
    ensures forall v :: HasDegree(inDegree, v, Degree(depMap, nodes, {}, v))
  {
    inDegree := map[];
    for i := 0 to |nodes|
      invariant forall v :: HasDegree(inDegree, v, Degree(depMap, nodes[..i], {}, v))
    {
      var uses := Deps(depMap, nodes[i]);
      assert nodes[..i + 1][..i] == nodes[..i];
      for k := 0 to |uses|
        invariant forall v :: HasDegree(inDegree, v, Degree(depMap, nodes[..i], {}, v) + Count(uses[..k], v))
      {
        forall v ensures Count(uses[..k + 1], v) == Count(uses[..k], v) + if uses[k] == v then 1 else 0 {
          CountLast(uses, k, v);
        }
        inDegree := Bump(inDegree, uses[k]);
      }
      assert uses[..|uses|] == uses;
    }
    assert nodes[..|nodes|] == nodes;
  }

  /** Takes a node's formula out of the degrees and queues what nothing waits for any more. */
  method Release(depMap: DepMap, nodes: seq<nat>, ghost done: set<nat>, uses: seq<nat>, inDegree0: Degrees,
                 queue0: seq<nat>)
    returns (inDegree: Degrees, queue: seq<nat>)
    requires Counted(depMap, nodes, done, uses, inDegree0) && Scheduled(depMap, inDegree0, queue0, done)
    requires AllUsesIn(depMap, inDegree0) && forall v :: v in uses ==> v in inDegree0
    ensures inDegree.Keys == inDegree0.Keys
    ensures Counted(depMap, nodes, done, [], inDegree) && Scheduled(depMap, inDegree, queue, done)
  {
    inDegree, queue := inDegree0, queue0;
    assert uses[0..] == uses;
    for k := 0 to |uses|
      invariant inDegree.Keys == inDegree0.Keys
      invariant Counted(depMap, nodes, done, uses[k..], inDegree) && Scheduled(depMap, inDegree, queue, done)
    {
      var v := uses[k];
      forall w ensures Count(uses[k..], w) == Count(uses[k + 1..], w) + if v == w then 1 else 0 {
        CountFirst(uses, k, w);
      }
      inDegree := inDegree[v := inDegree[v] - 1];
      if inDegree[v] == 0 {
        queue := queue + [v];
      }
    }
    assert uses[|uses|..] == [];
  }

  method Unused(nodes: seq<nat>, inDegree: Degrees) returns (queue: seq<nat>)
    requires Distinct(nodes)
    ensures Distinct(queue) && forall v :: v in queue <==> v in nodes && v !in inDegree
  {
    queue := [];
    for i := 0 to |nodes|
      invariant Distinct(queue) && forall v :: v in queue <==> v in nodes[..i] && v !in inDegree
    {
      assert nodes[..i + 1] == nodes[..i] + [nodes[i]];
      if nodes[i] !in inDegree {
        queue := queue + [nodes[i]];
      }
    }
    assert nodes[..|nodes|] == nodes;
  }

  ghost predicate Consistent(depMap: DepMap, nodes: seq<nat>, inDegree: Degrees, queue: seq<nat>, done: set<nat>,
                             order: seq<nat>) {
    && Counted(depMap, nodes, done, [], inDegree) && AllUsesIn(depMap, inDegree)
    && Scheduled(depMap, inDegree, queue, done) && Placed(depMap, order, done)
  }

  method Drain(depMap: DepMap, nodes: seq<nat>, inDegree0: Degrees, queue0: seq<nat>)
    returns (order: seq<nat>, inDegree: Degrees, ghost done: set<nat>)
    requires Distinct(nodes) && forall v :: v in nodes <==> v in depMap
    requires Consistent(depMap, nodes, inDegree0, queue0, {}, [])
    ensures Consistent(depMap, nodes, inDegree, [], done, order)
  {
    var queue := queue0;
    order, inDegree, done := [], inDegree0, {};
    ghost var all := depMap.Keys + inDegree.Keys;
    while queue != []
      invariant Consistent(depMap, nodes, inDegree, queue, done, order)
      invariant all == depMap.Keys + inDegree.Keys && done <= all
      decreases |all - done|
    {
      var node := queue[|queue| - 1];
      Place(depMap, nodes, inDegree, queue, done, order);
      TakeNode(depMap, nodes, inDegree, queue, done);
      Fewer(all, done, node);
      if node in depMap {
        order := [node] + order;
      }
      queue := queue[..|queue| - 1];
      done := done + {node};
      inDegree, queue := Release(depMap, nodes, done, Deps(depMap, node), inDegree, queue);
    }
  }

  lemma Fewer(all: set<nat>, done: set<nat>, node: nat)
    requires node in all && node !in done
    ensures |all - (done + {node})| < |all - done|
  {
    assert all - done == (all - (done + {node})) + {node};
  }

  /** Succeeds exactly when there is no cycle. */
  method Sort(depMap: DepMap) returns (order: seq<nat>, ok: bool)
    ensures ok <==> !HasCycle(depMap)
    ensures ok ==> Distinct(order) && DepsFirst(depMap, order) && forall v :: v in order <==> v in depMap
    ensures !ok ==> order == []
  {
    var nodes := Elements(depMap.Keys);
    var inDegree := CountUses(depMap, nodes);
    var queue := Unused(nodes, inDegree);
    Start(depMap, nodes, inDegree, queue);
    ghost var done;
    order, inDegree, done := Drain(depMap, nodes, inDegree, queue);
    if v :| v in inDegree && inDegree[v] > 0 {
      StuckIsEntangled(depMap, nodes, inDegree, done, v);
      return [], false;
    }
    OrderedHasNoCycle(depMap, order);
    return order, true;
  }

  lemma Place(depMap: DepMap, nodes: seq<nat>, inDegree: Degrees, queue: seq<nat>, done: set<nat>, order: seq<nat>)
    requires queue != [] && forall v :: v in nodes <==> v in depMap
    requires Counted(depMap, nodes, done, [], inDegree) && AllUsesIn(depMap, inDegree)
    requires Scheduled(depMap, inDegree, queue, done) && Placed(depMap, order, done)
    ensures var node := queue[|queue| - 1];
            Placed(depMap, if node in depMap then [node] + order else order, done + {node})
  {
    var node := queue[|queue| - 1];
    assert node in queue;
    if node in depMap {
      forall v | v == node || v in order ensures v !in Deps(depMap, node) {
        FreeToPlace(depMap, nodes, inDegree, queue, done, node, v);
      }
      Prepend(depMap, order, node);
    }
  }

  lemma Start(depMap: DepMap, nodes: seq<nat>, inDegree: Degrees, queue: seq<nat>)
    requires forall v :: v in nodes <==> v in depMap
    requires forall v :: HasDegree(inDegree, v, Degree(depMap, nodes, {}, v))
    requires Distinct(queue) && forall v :: v in queue <==> v in nodes && v !in inDegree
    ensures Counted(depMap, nodes, {}, [], inDegree) && AllUsesIn(depMap, inDegree)
    ensures Scheduled(depMap, inDegree, queue, {})
  {
    forall u, v | v in Deps(depMap, u) ensures v in inDegree {
      DegreeZeroIff(depMap, nodes, {}, v);
      assert u in nodes;
      assert HasDegree(inDegree, v, Degree(depMap, nodes, {}, v));
    }
    forall v | v in inDegree ensures inDegree[v] == Degree(depMap, nodes, {}, v) && inDegree[v] > 0 {
      assert HasDegree(inDegree, v, Degree(depMap, nodes, {}, v));
    }
  }

  lemma TakeNode(depMap: DepMap, nodes: seq<nat>, inDegree: Degrees, queue: seq<nat>, done: set<nat>)
    requires queue != [] && Distinct(nodes) && forall v :: v in nodes <==> v in depMap
    requires Counted(depMap, nodes, done, [], inDegree) && Scheduled(depMap, inDegree, queue, done)
    ensures var n := |queue| - 1; var node := queue[n];
            && node !in done && (node in depMap || node in inDegree)
            && Counted(depMap, nodes, done + {node}, Deps(depMap, node), inDegree)
            && Scheduled(depMap, inDegree, queue[..n], done + {node})
  {
    var n := |queue| - 1;
    var node := queue[n];
    assert node in queue && queue == queue[..n] + [node];
    forall v ensures Degree(depMap, nodes, done, v) == Degree(depMap, nodes, done + {node}, v)
        + Count(Deps(depMap, node), v) {
      DegreeDone(depMap, nodes, done, node, v);
    }
  }
}
