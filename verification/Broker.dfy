/** The message broker's queue of waiting messages and its map of messages being worked on. */
module Broker {
  datatype Option<T> = None | Some(value: T)

  /** An id is its rank in the order in which the broker compares ids. */
  datatype Message = Message(id: nat, group: string, ts: int, deliverAfter: int, heartbeat: int, claimComment: string)

  predicate Earlier(a: Message, b: Message) {
    if a.deliverAfter != b.deliverAfter then a.deliverAfter < b.deliverAfter else a.id < b.id
  }

  predicate InOrder(q: seq<Message>, i: nat, j: nat)
    requires i < |q| && j < |q|
  {
    !Earlier(q[j], q[i])
  }

  ghost predicate Sorted(q: seq<Message>) {
    forall i, j :: 0 <= i < j < |q| ==> InOrder(q, i, j)
  }

  /** The outcome of sorting: the order of equal messages is left open. */
  ghost predicate IsSortOf(sorted: seq<Message>, q: seq<Message>) {
    Sorted(sorted) && multiset(sorted) == multiset(q)
  }

  function Ids(q: seq<Message>): multiset<nat> {
    if q == [] then multiset{} else Ids(q[..|q| - 1]) + multiset{q[|q| - 1].id}
  }

  lemma {:induction false} IdsOfSum(a: seq<Message>, b: seq<Message>)
    ensures Ids(a + b) == Ids(a) + Ids(b)
  {
    if b == [] {
      assert a + b == a;
    } else {
      assert (a + b)[..|a + b| - 1] == a + b[..|b| - 1];
      IdsOfSum(a, b[..|b| - 1]);
    }
  }

  lemma Without(q: seq<Message>, k: nat) returns (rest: seq<Message>)
    requires k < |q|
    ensures |rest| == |q| - 1 && Ids(q) == Ids(rest) + multiset{q[k].id}
    ensures multiset(q) == multiset(rest) + multiset{q[k]}
  {
    rest := q[..k] + q[k + 1..];
    assert q == q[..k] + ([q[k]] + q[k + 1..]);
    IdsOfSum(q[..k], [q[k]] + q[k + 1..]);
    IdsOfSum([q[k]], q[k + 1..]);
    IdsOfSum(q[..k], q[k + 1..]);
    assert Ids([q[k]]) == multiset{q[k].id};
  }

  lemma IndexOf(q: seq<Message>, m: Message) returns (k: nat)
    requires m in multiset(q)
    ensures k < |q| && q[k] == m
  {
    k :| 0 <= k < |q| && q[k] == m;
  }

  /** Messages can change places without their ids changing number. */
  lemma {:induction false} IdsOfPermutation(a: seq<Message>, b: seq<Message>)
    requires multiset(a) == multiset(b)
    ensures Ids(a) == Ids(b)
    decreases |a|
  {
    if a == [] {
      assert |multiset(b)| == 0;
    } else {
      var m := a[|a| - 1];
      var k := IndexOf(b, m);
      var x := Without(a, |a| - 1);
      var y := Without(b, k);
      assert multiset(x) == multiset(a) - multiset{m} == multiset(y);
      IdsOfPermutation(x, y);
    }
  }

  // ---------------------------------------------------------------- sorting

  method Sort(q: seq<Message>) returns (sorted: seq<Message>)
    ensures IsSortOf(sorted, q)
  {
    sorted := [];
    for n := 0 to |q|
      invariant IsSortOf(sorted, q[..n])
    {
      assert q[..n + 1] == q[..n] + [q[n]];
      sorted := Insert(sorted, q[n]);
    }
    assert q[..|q|] == q;
  }

  method Insert(q: seq<Message>, m: Message) returns (sorted: seq<Message>)
    requires Sorted(q)
    ensures IsSortOf(sorted, q + [m])
  {
    var k := |q|;
    while k > 0 && Earlier(m, q[k - 1])
      invariant 0 <= k <= |q|
      invariant k < |q| ==> Earlier(m, q[k])
    {
      k := k - 1;
    }
    sorted := q[..k] + [m] + q[k..];
    InsertSorted(q, m, k);
    assert q == q[..k] + q[k..];
  }

  lemma InsertSorted(q: seq<Message>, m: Message, k: nat)
    requires Sorted(q) && k <= |q|
    requires k > 0 ==> !Earlier(m, q[k - 1])
    requires k < |q| ==> Earlier(m, q[k])
    ensures Sorted(q[..k] + [m] + q[k..])
  {
    var s := q[..k] + [m] + q[k..];
    forall i, j | 0 <= i < j < |s| ensures InOrder(s, i, j) {
      var x, y := if i <= k then i else i - 1, if j <= k then j else j - 1;
      if i != k && j != k {
        assert InOrder(q, x, y);
      } else if i == k {
        assert y > k ==> InOrder(q, k, y);
      } else {
        assert x < k - 1 ==> InOrder(q, x, k - 1);
      }
    }
  }

  lemma {:induction false} SortExists(q: seq<Message>) returns (sorted: seq<Message>)
    ensures IsSortOf(sorted, q)
  {
    sorted := [];
    if q != [] {
      var n := |q| - 1;
      var front := SortExists(q[..n]);
      var k := |front|;
      while k > 0 && Earlier(q[n], front[k - 1])
        invariant 0 <= k <= |front|
        invariant k < |front| ==> Earlier(q[n], front[k])
      {
        k := k - 1;
      }
      InsertSorted(front, q[n], k);
      sorted := front[..k] + [q[n]] + front[k..];
      assert front == front[..k] + front[k..] && q == q[..n] + [q[n]];
    }
  }

  lemma SortedPrefix(q: seq<Message>, m: Message)
    ensures Sorted(q + [m]) <==> Sorted(q) && (q == [] || !Earlier(m, q[|q| - 1]))
  {
    var s := q + [m];
    if Sorted(s) {
      forall i, j | 0 <= i < j < |q| ensures InOrder(q, i, j) {
        assert InOrder(s, i, j);
      }
      assert q != [] ==> InOrder(s, |q| - 1, |q|);
    }
    if Sorted(q) && (q == [] || !Earlier(m, q[|q| - 1])) {
      forall i, j | 0 <= i < j < |s| ensures InOrder(s, i, j) {
        if j < |q| {
          assert InOrder(q, i, j);
        } else {
          assert i < |q| - 1 ==> InOrder(q, i, |q| - 1);
        }
      }
    }
  }

  lemma LeastIn(a: seq<Message>, b: seq<Message>)
    requires Sorted(a) && a != [] && multiset(a) == multiset(b) && b != []
    ensures !Earlier(b[0], a[0]) && b[0] in a
  {
    assert b[0] in multiset(b);
    var i := IndexOf(a, b[0]);
    assert i > 0 ==> InOrder(a, 0, i);
  }

  lemma TailOf(a: seq<Message>)
    requires a != []
    ensures multiset(a[1..]) == multiset(a) - multiset{a[0]} && forall m :: m in a[1..] ==> m in a
  {
    assert a == [a[0]] + a[1..];
  }

  predicate DistinctIds(q: seq<Message>) {
    forall m, n :: m in q && n in q && m != n ==> m.id != n.id
  }

  /** With distinct ids there is only one way to sort. */
  lemma {:induction false} SortIsUnique(a: seq<Message>, b: seq<Message>)
    requires Sorted(a) && Sorted(b) && multiset(a) == multiset(b) && DistinctIds(a)
    ensures a == b
    decreases |a|
  {
    if a == [] {
      assert |multiset(b)| == 0;
    } else {
      assert b == [] ==> |multiset(a)| == 0;
      assert |multiset(a)| > 0;
      LeastIn(a, b);
      LeastIn(b, a);
      assert a[0] in a && a[0] == b[0];
      TailOf(a);
      TailOf(b);
      SortedTail(a);
      SortedTail(b);
      SortIsUnique(a[1..], b[1..]);
      assert a == [a[0]] + a[1..] && b == [b[0]] + b[1..];
    }
  }

  lemma SortedTail(q: seq<Message>)
    requires Sorted(q) && q != []
    ensures Sorted(q[1..])
  {
    forall i, j | 0 <= i < j < |q[1..]| ensures InOrder(q[1..], i, j) {
      assert InOrder(q, i + 1, j + 1);
    }
  }

  // ---------------------------------------------------------------- what the operations do to the messages

  function Stamped(msgs: seq<Message>, now: int): (out: seq<Message>)
    ensures |out| == |msgs|
    ensures forall k :: 0 <= k < |msgs| ==> out[k] == msgs[k].(ts := now, deliverAfter := now, heartbeat := 0)
  {
    seq(|msgs|, k requires 0 <= k < |msgs| => msgs[k].(ts := now, deliverAfter := now, heartbeat := 0))
  }

  lemma {:induction false} StampedIds(msgs: seq<Message>, now: int)
    ensures Ids(Stamped(msgs, now)) == Ids(msgs)
  {
    if msgs != [] {
      var n := |msgs| - 1;
      StampedIds(msgs[..n], now);
      assert Stamped(msgs, now)[..n] == Stamped(msgs[..n], now);
    }
  }

  /** Every message of the group is put off until the same time. */
  function PutOff(q: seq<Message>, group: string, until: int): (out: seq<Message>)
    ensures |out| == |q|
    ensures forall k :: 0 <= k < |q| ==> out[k] == if q[k].group == group then q[k].(deliverAfter := until) else q[k]
  {
    seq(|q|, k requires 0 <= k < |q| => if q[k].group == group then q[k].(deliverAfter := until) else q[k])
  }

  lemma {:induction false} PutOffIds(q: seq<Message>, group: string, until: int)
    ensures Ids(PutOff(q, group, until)) == Ids(q)
  {
    if q != [] {
      var n := |q| - 1;
      PutOffIds(q[..n], group, until);
      assert PutOff(q, group, until)[..n] == PutOff(q[..n], group, until);
    }
  }

  predicate Matches(m: Message, prefix: string) {
    prefix <= m.group
  }

  /** Deleting from the queue steps over the message that follows a deleted one. */
  predicate Removed(q: seq<Message>, prefix: string, k: nat)
    requires k < |q|
  {
    Matches(q[k], prefix) && (k == 0 || !Removed(q, prefix, k - 1))
  }

  function Kept(q: seq<Message>, prefix: string, n: nat): (out: seq<Message>)
    requires n <= |q|
  {
    if n == 0 then []
    else if Removed(q, prefix, n - 1) then Kept(q, prefix, n - 1)
    else Kept(q, prefix, n - 1) + [q[n - 1]]
  }

  function Dropped(q: seq<Message>, prefix: string, n: nat): (out: seq<Message>)
    requires n <= |q|
    ensures forall m :: m in out ==> Matches(m, prefix)
  {
    if n == 0 then []
    else if Removed(q, prefix, n - 1) then Dropped(q, prefix, n - 1) + [q[n - 1]]
    else Dropped(q, prefix, n - 1)
  }

  lemma OneMore(q: seq<Message>, n: nat)
    requires 0 < n <= |q|
    ensures multiset(q[..n]) == multiset(q[..n - 1]) + multiset{q[n - 1]}
  {
    assert q[..n] == q[..n - 1] + [q[n - 1]];
  }

  lemma WithLast(a: seq<Message>, b: seq<Message>, m: Message)
    ensures multiset(a + [m]) + multiset(b) == multiset(a) + multiset(b) + multiset{m}
    ensures multiset(a) + multiset(b + [m]) == multiset(a) + multiset(b) + multiset{m}
  {
  }

  /** A deletion leaves a message or drops it, and nothing else. */
  lemma {:induction false} KeptOrDropped(q: seq<Message>, prefix: string, n: nat)
    requires n <= |q|
    ensures multiset(q[..n]) == multiset(Kept(q, prefix, n)) + multiset(Dropped(q, prefix, n))
  {
    if n > 0 {
      KeptOrDropped(q, prefix, n - 1);
      OneMore(q, n);
      WithLast(Kept(q, prefix, n - 1), Dropped(q, prefix, n - 1), q[n - 1]);
    }
  }

  lemma {:induction false} KeptHas(q: seq<Message>, prefix: string, n: nat, k: nat)
    requires k < n <= |q| && !Removed(q, prefix, k)
    ensures q[k] in Kept(q, prefix, n)
  {
    if k < n - 1 {
      KeptHas(q, prefix, n - 1, k);
    }
  }

  lemma {:induction false} KeptFrom(q: seq<Message>, prefix: string, n: nat, m: Message) returns (k: nat)
    requires n <= |q| && m in Kept(q, prefix, n)
    ensures k < n && q[k] == m && !Removed(q, prefix, k)
  {
    if !Removed(q, prefix, n - 1) && q[n - 1] == m {
      k := n - 1;
    } else {
      k := KeptFrom(q, prefix, n - 1, m);
    }
  }

  /** A deletion leaves no message it was meant for exactly when no two of them are neighbours. */
  lemma DeleteIsCompleteIff(q: seq<Message>, prefix: string)
    ensures (forall m :: m in Kept(q, prefix, |q|) ==> !Matches(m, prefix))
       <==> (forall k :: 0 < k < |q| && Matches(q[k - 1], prefix) ==> !Matches(q[k], prefix))
  {
    if forall m :: m in Kept(q, prefix, |q|) ==> !Matches(m, prefix) {
      forall k | 0 < k < |q| && Matches(q[k - 1], prefix) ensures !Matches(q[k], prefix) {
        if Removed(q, prefix, k - 1) {
          KeptHas(q, prefix, |q|, k);
        } else {
          KeptHas(q, prefix, |q|, k - 1);
        }
      }
    } else {
      var m :| m in Kept(q, prefix, |q|) && Matches(m, prefix);
      var k := KeptFrom(q, prefix, |q|, m);
      assert k > 0 && Matches(q[k - 1], prefix);
    }
  }

  // ---------------------------------------------------------------- where the messages are

  /** The ids held in the queue and in the map, with their number. */
  ghost function Held(q: seq<Message>, wip: map<nat, Message>): multiset<nat> {
    Ids(q) + multiset(wip.Keys)
  }

  ghost predicate AtMostOnce(ids: multiset<nat>) {
    forall id :: ids[id] <= 1
  }

  ghost predicate UnderOwnId(wip: map<nat, Message>) {
    forall id :: id in wip ==> wip[id].id == id
  }

  /** Every message is in one place, under its own id. */
  ghost predicate Separate(q: seq<Message>, wip: map<nat, Message>) {
    UnderOwnId(wip) && AtMostOnce(Held(q, wip))
  }

  lemma IdsOfHead(q: seq<Message>)
    requires q != []
    ensures Ids(q) == Ids(q[1..]) + multiset{q[0].id}
  {
    assert q == [q[0]] + q[1..];
    IdsOfSum([q[0]], q[1..]);
    assert Ids([q[0]]) == multiset{q[0].id};
  }

  lemma IdsOfLast(q: seq<Message>, m: Message)
    ensures Ids(q + [m]) == Ids(q) + multiset{m.id}
  {
    assert (q + [m])[..|q|] == q;
  }

  lemma KeysWith(wip: map<nat, Message>, m: Message)
    ensures multiset(wip[m.id := m].Keys) == multiset(wip.Keys) + if m.id in wip then multiset{} else multiset{m.id}
  {
    assert wip[m.id := m].Keys == wip.Keys + {m.id};
  }

  lemma KeysWithout(wip: map<nat, Message>, id: nat)
    ensures multiset((wip - {id}).Keys) == multiset(wip.Keys) - multiset{id}
  {
    assert (wip - {id}).Keys == wip.Keys - {id};
  }

  lemma ClaimKeepsHeld(q: seq<Message>, wip: map<nat, Message>, m: Message)
    requires q != [] && m.id == q[0].id && Separate(q, wip)
    ensures Held(q[1..], wip[m.id := m]) == Held(q, wip) && Separate(q[1..], wip[m.id := m])
  {
    IdsOfHead(q);
    KeysWith(wip, m);
    assert Held(q, wip)[m.id] <= 1;
  }

  lemma AckTakesHeld(q: seq<Message>, wip: map<nat, Message>, id: nat)
    requires Separate(q, wip)
    ensures Separate(q, wip - {id})
    ensures Held(q, wip - {id}) == Held(q, wip) - if id in wip then multiset{id} else multiset{}
    ensures id !in wip ==> wip - {id} == wip
  {
    KeysWithout(wip, id);
    assert id !in wip ==> wip - {id} == wip;
    forall k ensures Held(q, wip - {id})[k] <= 1 {
      assert Held(q, wip)[k] <= 1;
    }
  }

  lemma ReturnKeepsHeld(q: seq<Message>, put: seq<Message>, wip: map<nat, Message>, id: nat)
    requires id in wip && Ids(put) == Ids(q) + multiset{id} && Separate(q, wip)
    ensures Held(put, wip - {id}) == Held(q, wip) && Separate(put, wip - {id})
  {
    KeysWithout(wip, id);
  }

  lemma DeadKeepHeld(q: seq<Message>, all: seq<Message>, wip: map<nat, Message>, dead: seq<Message>, limit: int)
    requires Ids(dead) == multiset(Silent(wip, limit)) && Ids(all) == Ids(q) + Ids(dead) && Separate(q, wip)
    ensures Held(all, wip - Silent(wip, limit)) == Held(q, wip) && Separate(all, wip - Silent(wip, limit))
  {
    assert (wip - Silent(wip, limit)).Keys == wip.Keys - Silent(wip, limit);
    assert Held(all, wip - Silent(wip, limit)) == Held(q, wip);
  }

  /** From a sorted queue a claim takes the least message, and takes none exactly when none is due. */
  lemma HeadIsLeast(q: seq<Message>, now: int)
    requires Sorted(q)
    ensures (q == [] || q[0].deliverAfter > now) <==> forall m :: m in q ==> m.deliverAfter > now
    ensures q != [] ==> forall m :: m in q ==> !Earlier(m, q[0])
  {
    forall m | m in q ensures !Earlier(m, q[0]) {
      var k :| 0 <= k < |q| && q[k] == m;
      assert k > 0 ==> InOrder(q, 0, k);
    }
    assert q != [] ==> q[0] in q;
  }

  // ---------------------------------------------------------------- the broker

  class MessageBroker {
    var q: seq<Message>
    var wip: map<nat, Message>
    const maxMessages: int

    ghost predicate Valid()
      reads this
    {
      Separate(q, wip)
    }

    constructor (maxMessages: int)
      ensures Valid() && q == [] && wip == map[] && this.maxMessages == maxMessages
    {
      q, wip := [], map[];
      this.maxMessages := maxMessages;
    }

    /** With new ids the broker stays valid; with an id it already holds it does not. */
    method QBulk(msgs: seq<Message>, now: int) returns (ok: bool)
      modifies this
      ensures ok <==> |msgs| + |old(q)| <= maxMessages
      ensures wip == old(wip)
      ensures if ok then IsSortOf(q, old(q) + Stamped(msgs, now)) else q == old(q)
      ensures ok ==> Held(q, wip) == old(Held(q, wip)) + Ids(msgs)
      ensures ok && UnderOwnId(wip) && AtMostOnce(old(Held(q, wip)) + Ids(msgs)) ==> Valid()
    {
      if |msgs| + |q| > maxMessages {
        return false;
      }
      StampedIds(msgs, now);
      IdsOfSum(q, Stamped(msgs, now));
      var sorted := Sort(q + Stamped(msgs, now));
      IdsOfPermutation(sorted, q + Stamped(msgs, now));
      q := sorted;
      ok := true;
    }

    method Claim(claimComment: string, now: int) returns (claimed: Option<Message>)
      requires Valid()
      modifies this
      ensures Valid() && Held(q, wip) == old(Held(q, wip))
      ensures claimed.None? <==> old(q) == [] || old(q)[0].deliverAfter > now
      ensures claimed.None? ==> q == old(q) && wip == old(wip)
      ensures claimed.Some? ==> q == old(q)[1..] && wip == old(wip)[claimed.value.id := claimed.value]
      ensures claimed.Some? ==> claimed.value == old(q)[0].(heartbeat := now, claimComment := claimComment)
    {
      if q == [] {
        return None;
      }
      if q[0].deliverAfter > now {
        return None;
      }
      var m := q[0].(heartbeat := now, claimComment := claimComment);
      ClaimKeepsHeld(q, wip, m);
      q := q[1..];
      wip := wip[m.id := m];
      return Some(m);
    }

    method Ack(id: nat) returns (ok: bool)
      requires Valid()
      modifies this
      ensures Valid() && q == old(q) && wip == old(wip) - {id}
      ensures ok <==> id in old(wip)
      ensures Held(q, wip) == old(Held(q, wip)) - if ok then multiset{id} else multiset{}
    {
      ok := id in wip;
      AckTakesHeld(q, wip, id);
      if ok {
        wip := wip - {id};
      }
    }

    method Heartbeat(id: nat, now: int) returns (ok: bool)
      requires Valid()
      modifies this
      ensures Valid() && q == old(q)
      ensures ok <==> id in old(wip)
      ensures wip == if ok then old(wip)[id := old(wip)[id].(heartbeat := now)] else old(wip)
      ensures Held(q, wip) == old(Held(q, wip))
    {
      ok := id in wip;
      if ok {
        wip := wip[id := wip[id].(heartbeat := now)];
        assert wip.Keys == old(wip).Keys;
      }
    }

    method Return(id: nat, delay: int, now: int) returns (ok: bool)
      requires Valid()
      modifies this
      ensures Valid() && Held(q, wip) == old(Held(q, wip))
      ensures ok <==> id in old(wip)
      ensures wip == old(wip) - {id} && (!ok ==> q == old(q))
      ensures ok ==> Returned(old(q), old(wip)[id].(claimComment := ""), now + delay, q)
    {
      if id !in wip {
        AckTakesHeld(q, wip, id);
        return false;
      }
      var put := PutBack(q, wip[id].(claimComment := ""), now + delay);
      ReturnKeepsHeld(q, put, wip, id);
      q, wip, ok := put, wip - {id}, true;
    }

    /** The messages whose workers have been silent for too long go back to the queue. */
    method ReturnDead(timeout: int, now: int) returns (dead: seq<Message>)
      requires Valid()
      modifies this
      ensures Valid() && DeadReturned(old(q), old(wip), now - timeout, q, wip, dead)
    {
      q, wip, dead := MoveDead(q, wip, now - timeout);
    }

    method DeleteFromQ(prefix: string) returns (count: nat)
      modifies this
      ensures wip == old(wip)
      ensures q == Kept(old(q), prefix, |old(q)|)
      ensures count == |Dropped(old(q), prefix, |old(q)|)|
    {
      q, count := DeleteMatching(q, prefix);
    }

    method DeleteFromWip(prefix: string) returns (count: nat)
      modifies this
      ensures q == old(q)
      ensures wip == (map id | id in old(wip) && !Matches(old(wip)[id], prefix) :: old(wip)[id])
      ensures count == |old(wip)| - |wip|
    {
      var gone := set id | id in wip && Matches(wip[id], prefix);
      assert wip.Keys == (wip - gone).Keys + gone;
      wip := wip - gone;
      return |gone|;
    }
  }

  /** What is left after looking at the first `j` messages, and the rest. */
  ghost predicate LookedAt(was: seq<Message>, prefix: string, j: nat, q: seq<Message>) {
    j <= |was| && q == Kept(was, prefix, j) + was[j..]
  }

  lemma NextIs(was: seq<Message>, prefix: string, j: nat, q: seq<Message>)
    requires LookedAt(was, prefix, j, q) && j < |was|
    ensures |Kept(was, prefix, j)| < |q| && q[|Kept(was, prefix, j)|] == was[j]
  {
  }

  /** The message looked at last stays. */
  ghost predicate LastStays(was: seq<Message>, prefix: string, j: nat) {
    0 < j < |was| ==> !Removed(was, prefix, j - 1)
  }

  lemma RemovedIff(was: seq<Message>, prefix: string, j: nat)
    requires LastStays(was, prefix, j) && j < |was|
    ensures Removed(was, prefix, j) <==> Matches(was[j], prefix)
  {
  }

  lemma KeepNext(was: seq<Message>, prefix: string, j: nat, q: seq<Message>)
    requires LookedAt(was, prefix, j, q) && j < |was| && !Removed(was, prefix, j)
    ensures LookedAt(was, prefix, j + 1, q) && LastStays(was, prefix, j + 1)
    ensures |Kept(was, prefix, j + 1)| == |Kept(was, prefix, j)| + 1
    ensures Dropped(was, prefix, j + 1) == Dropped(was, prefix, j)
  {
    assert was[j..] == [was[j]] + was[j + 1..];
  }

  lemma {:induction false} DropNext(was: seq<Message>, prefix: string, j: nat, q: seq<Message>)
    requires LookedAt(was, prefix, j, q) && j < |was| && Removed(was, prefix, j)
    ensures var i := |Kept(was, prefix, j)|; i < |q| && LookedAt(was, prefix, j + 1, q[..i] + q[i + 1..])
    ensures |Kept(was, prefix, j + 1)| == |Kept(was, prefix, j)|
    ensures |Dropped(was, prefix, j + 1)| == |Dropped(was, prefix, j)| + 1
    ensures j + 1 < |was| ==> !Removed(was, prefix, j + 1)
  {
    var kept := Kept(was, prefix, j);
    assert q[..|kept|] == kept && q[|kept| + 1..] == was[j + 1..];
  }

  /** Where the loop stands: at position `i` of the queue, having looked at the first `j` messages. */
  ghost predicate Stands(was: seq<Message>, prefix: string, j: nat, q: seq<Message>, i: nat) {
    && LookedAt(was, prefix, j, q) && LastStays(was, prefix, j)
    && if j < |was| then i == |Kept(was, prefix, j)| else i >= |Kept(was, prefix, j)|
  }

  /** One round of the loop: the message at `i` goes if it matches, and then the next one stays. */
  method DeleteAt(ghost was: seq<Message>, prefix: string, ghost j: nat, q: seq<Message>, i: nat, count: nat)
    returns (left: seq<Message>, deleted: nat, ghost next: nat)
    requires Stands(was, prefix, j, q, i) && j < |was| && i < |q| && count == |Dropped(was, prefix, j)|
    ensures j < next && Stands(was, prefix, next, left, i + 1) && deleted == |Dropped(was, prefix, next)|
  {
    NextIs(was, prefix, j, q);
    RemovedIff(was, prefix, j);
    left, deleted, next := q, count, j;
    if Matches(q[i], prefix) {
      DropNext(was, prefix, j, q);
      left, deleted, next := q[..i] + q[i + 1..], count + 1, j + 1;
    }
    if next < |was| {
      KeepNext(was, prefix, next, left);
      next := next + 1;
    }
  }

  lemma {:induction false} AllLookedAt(was: seq<Message>, prefix: string, j: nat, q: seq<Message>, i: nat)
    requires Stands(was, prefix, j, q, i)
    ensures i < |q| ==> j < |was|
    ensures i >= |q| ==> q == Kept(was, prefix, |was|) && j == |was|
  {
    if j < |was| {
      NextIs(was, prefix, j, q);
    } else {
      assert was[|was|..] == [];
    }
  }

  method DeleteMatching(was: seq<Message>, prefix: string) returns (q: seq<Message>, count: nat)
    ensures q == Kept(was, prefix, |was|) && count == |Dropped(was, prefix, |was|)|
  {
    q, count := was, 0;
    var i: nat := 0;
    ghost var j := 0;
    while i < |q|
      invariant Stands(was, prefix, j, q, i) && count == |Dropped(was, prefix, j)|
      decreases |was| - j
    {
      AllLookedAt(was, prefix, j, q, i);
      q, count, j := DeleteAt(was, prefix, j, q, i, count);
      i := i + 1;
    }
    AllLookedAt(was, prefix, j, q, i);
  }

  /** The queue after a message is returned to it, to be delivered after `until`. */
  ghost predicate Returned(was: seq<Message>, m: Message, until: int, q: seq<Message>) {
    if m.group == "" then q == was + [m.(deliverAfter := until)] else IsSortOf(q, PutOff(was + [m], m.group, until))
  }

  /** After a return the whole group waits until the same time. */
  lemma ReturnedTogether(was: seq<Message>, m: Message, until: int, q: seq<Message>)
    requires Returned(was, m, until, q) && m.group != ""
    ensures forall x :: x in q && x.group == m.group ==> x.deliverAfter == until
  {
    forall x | x in q && x.group == m.group ensures x.deliverAfter == until {
      assert x in multiset(q);
    }
  }

  /** A return leaves the queue unsorted only when it puts a message without a group at its end too early. */
  lemma ReturnedSortedIff(was: seq<Message>, m: Message, until: int, q: seq<Message>)
    requires Returned(was, m, until, q) && Sorted(was)
    ensures Sorted(q) <==> m.group != "" || was == [] || !Earlier(m.(deliverAfter := until), was[|was| - 1])
  {
    if m.group == "" {
      SortedPrefix(was, m.(deliverAfter := until));
    }
  }

  method PutBack(q: seq<Message>, m: Message, until: int) returns (put: seq<Message>)
    ensures Returned(q, m, until, put) && Ids(put) == Ids(q) + multiset{m.id}
  {
    IdsOfLast(q, m);
    if m.group == "" {
      put := q + [m.(deliverAfter := until)];
      IdsOfLast(q, m.(deliverAfter := until));
    } else {
      var all := PutOff(q + [m], m.group, until);
      put := Sort(all);
      PutOffIds(q + [m], m.group, until);
      IdsOfPermutation(put, all);
    }
  }

  /** The ids of the messages without a heartbeat since `limit`. */
  function Silent(wip: map<nat, Message>, limit: int): set<nat> {
    set id | id in wip && wip[id].heartbeat < limit
  }

  ghost predicate AllFrom(dead: seq<Message>, wip: map<nat, Message>) {
    forall k :: 0 <= k < |dead| ==> dead[k].id in wip && dead[k] == wip[dead[k].id]
  }

  /** Exactly the silent messages left the map, and they joined the queue. */
  ghost predicate DeadReturned(q: seq<Message>, wip: map<nat, Message>, limit: int,
                               all: seq<Message>, rest: map<nat, Message>, dead: seq<Message>) {
    && Held(all, rest) == Held(q, wip)
    && rest == wip - Silent(wip, limit) && Ids(dead) == multiset(Silent(wip, limit))
    && AllFrom(dead, wip)
    && (if dead == [] then all == q else IsSortOf(all, q + dead))
  }

  method MoveDead(q: seq<Message>, wip: map<nat, Message>, limit: int)
    returns (all: seq<Message>, rest: map<nat, Message>, dead: seq<Message>)
    requires Separate(q, wip)
    ensures Separate(all, rest) && DeadReturned(q, wip, limit, all, rest, dead)
  {
    dead := CollectDead(wip, limit);
    rest := RemoveAll(wip, dead);
    all := PutAll(q, dead);
    DeadKeepHeld(q, all, wip, dead, limit);
    RestIs(wip, dead, limit, rest);
  }

  lemma OneLess(ids: set<nat>, left: set<nat>, id: nat)
    requires id in left
    ensures multiset(ids - (left - {id})) == multiset(ids - left) + if id in ids then multiset{id} else multiset{}
  {
    assert ids - (left - {id}) == (ids - left) + if id in ids then {id} else {};
  }

  /** The dead messages found so far, when the ids in `left` are still to be looked at. */
  ghost predicate Collected(wip: map<nat, Message>, limit: int, left: set<nat>, dead: seq<Message>) {
    AllFrom(dead, wip) && Ids(dead) == multiset(Silent(wip, limit) - left)
  }

  lemma {:induction false} CollectNext(wip: map<nat, Message>, limit: int, left: set<nat>, dead: seq<Message>, id: nat)
    requires UnderOwnId(wip) && left <= wip.Keys && id in left && Collected(wip, limit, left, dead)
    ensures Collected(wip, limit, left - {id}, if wip[id].heartbeat < limit then dead + [wip[id]] else dead)
  {
    OneLess(Silent(wip, limit), left, id);
    IdsOfLast(dead, wip[id]);
  }

  method CollectDead(wip: map<nat, Message>, limit: int) returns (dead: seq<Message>)
    requires UnderOwnId(wip)
    ensures AllFrom(dead, wip)
    ensures Ids(dead) == multiset(Silent(wip, limit))
  {
    var left := wip.Keys;
    dead := [];
    while left != {}
      invariant left <= wip.Keys && Collected(wip, limit, left, dead)
      decreases |left|
    {
      var id :| id in left;
      CollectNext(wip, limit, left, dead, id);
      if wip[id].heartbeat < limit {
        dead := dead + [wip[id]];
      }
      left := left - {id};
    }
    assert Silent(wip, limit) - left == Silent(wip, limit);
  }

  method PutAll(q: seq<Message>, dead: seq<Message>) returns (all: seq<Message>)
    ensures if dead == [] then all == q else IsSortOf(all, q + dead)
    ensures Ids(all) == Ids(q) + Ids(dead)
  {
    all := q;
    if dead != [] {
      all := Sort(q + dead);
      IdsOfPermutation(all, q + dead);
      IdsOfSum(q, dead);
    }
  }

  lemma RestIs(wip: map<nat, Message>, dead: seq<Message>, limit: int, rest: map<nat, Message>)
    requires Ids(dead) == multiset(Silent(wip, limit))
    requires forall id :: id in rest <==> id in wip && id !in Ids(dead)
    requires forall id :: id in rest ==> rest[id] == wip[id]
    ensures rest == wip - Silent(wip, limit)
  {
  }

  method RemoveAll(wip: map<nat, Message>, dead: seq<Message>) returns (rest: map<nat, Message>)
    ensures forall id :: id in rest <==> id in wip && id !in Ids(dead)
    ensures forall id :: id in rest ==> rest[id] == wip[id]
  {
    rest := wip;
    var k := 0;
    while k < |dead|
      invariant 0 <= k <= |dead|
      invariant forall id :: id in rest <==> id in wip && id !in Ids(dead[..k])
      invariant forall id :: id in rest ==> rest[id] == wip[id]
    {
      IdsOfLast(dead[..k], dead[k]);
      assert dead[..k + 1] == dead[..k] + [dead[k]];
      rest := rest - {dead[k].id};
      k := k + 1;
    }
    assert dead[..k] == dead;
  }

}
