/** The broker under concurrent clients. An operation that needs both locks runs as two sections,
    and between them its messages are in neither container. */
module BrokerLocks {
  import opened Broker
  import R = Reachability

  /** What a client carries from its first section to its second. */
  datatype Flight =
    | Nothing
    | Claimed(claimed: Message)
    | Returning(returned: Message, delay: int)
    | Dead(dead: seq<Message>)

  /** The shared containers, what each client carries, and the ids enqueued and removed so far, as
      often as they were. */
  datatype State = State(
    q: seq<Message>,
    wip: map<nat, Message>,
    flights: seq<Flight>,
    enqueued: multiset<nat>,
    gone: multiset<nat>)

  /** A section run under one of the locks. */
  datatype Section =
    | QBulk(msgs: seq<Message>, now: int)
    | ClaimFromQ(client: nat, claimComment: string, now: int)
    | ClaimToWip(client: nat)
    | Ack(id: nat)
    | Heartbeat(id: nat, now: int)
    | ReturnFromWip(client: nat, id: nat, delay: int)
    | ReturnToQ(client: nat, now: int)
    | DeadFromWip(client: nat, limit: int)
    | DeadToQ(client: nat)
    | DeleteFromQ(prefix: string)
    | DeleteFromWip(prefix: string)

  function Carried(f: Flight): seq<Message> {
    match f
    case Nothing => []
    case Claimed(m) => [m]
    case Returning(m, _) => [m]
    case Dead(ms) => ms
  }

  function Count(ids: multiset<nat>, id: nat): int {
    ids[id]
  }

  function Num(q: seq<Message>, id: nat): int {
    Count(Ids(q), id)
  }

  function Sum(xs: seq<int>, n: nat): int
    requires n <= |xs|
  {
    if n == 0 then 0 else Sum(xs, n - 1) + xs[n - 1]
  }

  /** How many messages with this id each client carries. */
  function Loads(flights: seq<Flight>, id: nat): (xs: seq<int>)
    ensures |xs| == |flights|
  {
    seq(|flights|, c requires 0 <= c < |flights| => Num(Carried(flights[c]), id))
  }

  function InFlight(flights: seq<Flight>, id: nat): int {
    Sum(Loads(flights, id), |flights|)
  }

  function InWip(s: State, id: nat): int {
    if id in s.wip then 1 else 0
  }

  /** How many places hold a message with this id. */
  function Places(s: State, id: nat): int {
    Num(s.q, id) + InWip(s, id) + InFlight(s.flights, id)
  }

  predicate Idle(s: State, client: nat) {
    client < |s.flights| && s.flights[client] == Nothing
  }

  function WithoutGroup(wip: map<nat, Message>, prefix: string): map<nat, Message> {
    map id | id in wip && !Matches(wip[id], prefix) :: wip[id]
  }

  /** One section, run by one client. */
  ghost predicate Next(s: State, t: State, x: Section) {
    match x
    case QBulk(msgs, now) =>
      IsSortOf(t.q, s.q + Stamped(msgs, now)) && t == s.(q := t.q, enqueued := s.enqueued + Ids(msgs))
    case ClaimFromQ(c, comment, now) =>
      && Idle(s, c) && s.q != [] && s.q[0].deliverAfter <= now
      && t == s.(q := s.q[1..], flights := s.flights[c := Claimed(s.q[0].(heartbeat := now, claimComment := comment))])
    case ClaimToWip(c) =>
      && c < |s.flights| && s.flights[c].Claimed?
      && t == s.(wip := s.wip[s.flights[c].claimed.id := s.flights[c].claimed], flights := s.flights[c := Nothing])
    case Ack(id) => id in s.wip && t == s.(wip := s.wip - {id}, gone := s.gone + multiset{id})
    case Heartbeat(id, now) => id in s.wip && t == s.(wip := s.wip[id := s.wip[id].(heartbeat := now)])
    case ReturnFromWip(c, id, delay) =>
      && Idle(s, c) && id in s.wip
      && t == s.(wip := s.wip - {id}, flights := s.flights[c := Returning(s.wip[id].(claimComment := ""), delay)])
    case ReturnToQ(c, now) =>
      && c < |s.flights| && s.flights[c].Returning?
      && Returned(s.q, s.flights[c].returned, now + s.flights[c].delay, t.q)
      && t == s.(q := t.q, flights := s.flights[c := Nothing])
    case DeadFromWip(c, limit) =>
      && Idle(s, c) && c < |t.flights| && t.flights[c].Dead?
      && Ids(t.flights[c].dead) == multiset(Silent(s.wip, limit)) && AllFrom(t.flights[c].dead, s.wip)
      && t == s.(wip := s.wip - Silent(s.wip, limit), flights := s.flights[c := t.flights[c]])
    case DeadToQ(c) =>
      && c < |s.flights| && s.flights[c].Dead?
      && IsSortOf(t.q, s.q + s.flights[c].dead)
      && t == s.(q := t.q, flights := s.flights[c := Nothing])
    case DeleteFromQ(prefix) =>
      t == s.(q := Kept(s.q, prefix, |s.q|), gone := s.gone + Ids(Dropped(s.q, prefix, |s.q|)))
    case DeleteFromWip(prefix) =>
      var kept := WithoutGroup(s.wip, prefix);
      t == s.(wip := kept, gone := s.gone + multiset(s.wip.Keys - kept.Keys))
  }

  ghost predicate Initial(s: State) {
    && s.q == [] && s.wip == map[] && s.enqueued == s.gone == multiset{}
    && forall c :: 0 <= c < |s.flights| ==> s.flights[c] == Nothing
  }

  ghost predicate Run(states: seq<State>, sections: seq<Section>)
    decreases |sections|
  {
    && |states| == |sections| + 1
    && if sections == [] then Initial(states[0])
       else var n := |sections|; Run(states[..n], sections[..n - 1]) && Next(states[n - 1], states[n], sections[n - 1])
  }

  // ---------------------------------------------------------------- conservation

  /** How often the id was enqueued and neither acknowledged nor deleted. */
  function Live(s: State, id: nat): int {
    Count(s.enqueued, id) - Count(s.gone, id)
  }

  predicate Accounted(s: State, id: nat) {
    Places(s, id) == Live(s, id)
  }

  /** Every live message is in one place. */
  ghost predicate Conserved(s: State) {
    UnderOwnId(s.wip) && forall id :: Accounted(s, id)
  }

  predicate LiveOnce(s: State, id: nat) {
    Live(s, id) <= 1
  }

  ghost predicate Healthy(s: State) {
    Conserved(s) && forall id :: LiveOnce(s, id)
  }

  /** No id of the bulk is live, and none is repeated. */
  ghost predicate New(s: State, msgs: seq<Message>) {
    forall id :: id in Ids(msgs) ==> Live(s, id) == 0 && Ids(msgs)[id] == 1
  }

  ghost predicate Allowed(s: State, x: Section) {
    x.QBulk? ==> New(s, x.msgs)
  }

  /** What a section adds to the number of places that hold an id. */
  function Change(s: State, x: Section, id: nat): int {
    match x
    case QBulk(msgs, _) => Ids(msgs)[id]
    case Ack(i) => if i == id then -1 else 0
    case DeleteFromQ(prefix) => -Num(Dropped(s.q, prefix, |s.q|), id)
    case DeleteFromWip(prefix) => if id in s.wip && Matches(s.wip[id], prefix) then -1 else 0
    case _ => 0
  }

  lemma {:induction false} SumUpdate(xs: seq<int>, c: nat, x: int, n: nat)
    requires c < |xs| && n <= |xs|
    ensures Sum(xs[c := x], n) == Sum(xs, n) + if c < n then x - xs[c] else 0
  {
    if n > 0 {
      SumUpdate(xs, c, x, n - 1);
    }
  }

  lemma InFlightUpdate(flights: seq<Flight>, c: nat, f: Flight, id: nat)
    requires c < |flights|
    ensures InFlight(flights[c := f], id) == InFlight(flights, id) + Num(Carried(f), id) - Num(Carried(flights[c]), id)
  {
    SumUpdate(Loads(flights, id), c, Num(Carried(f), id), |flights|);
    assert Loads(flights[c := f], id) == Loads(flights, id)[c := Num(Carried(f), id)];
  }

  lemma IdsOfOne(m: Message)
    ensures Ids([m]) == multiset{m.id}
  {
    IdsOfLast([], m);
    assert [] + [m] == [m];
  }

  lemma SortedIds(sorted: seq<Message>, a: seq<Message>, b: seq<Message>, id: nat)
    requires IsSortOf(sorted, a + b)
    ensures Ids(sorted)[id] == Ids(a)[id] + Ids(b)[id]
  {
    IdsOfPermutation(sorted, a + b);
    IdsOfSum(a, b);
  }

  lemma QBulkChange(s: State, t: State, msgs: seq<Message>, now: int, id: nat)
    requires Next(s, t, QBulk(msgs, now))
    ensures Places(t, id) == Places(s, id) + Ids(msgs)[id]
  {
    SortedIds(t.q, s.q, Stamped(msgs, now), id);
    StampedIds(msgs, now);
  }

  lemma ClaimFromQChange(s: State, t: State, c: nat, comment: string, now: int, id: nat)
    requires Next(s, t, ClaimFromQ(c, comment, now))
    ensures Places(t, id) == Places(s, id)
  {
    IdsOfHead(s.q);
    IdsOfOne(t.flights[c].claimed);
    InFlightUpdate(s.flights, c, t.flights[c], id);
  }

  lemma {:induction false} SumAtLeast(xs: seq<int>, c: nat, n: nat)
    requires n <= |xs| && forall k :: 0 <= k < |xs| ==> xs[k] >= 0
    ensures Sum(xs, n) >= if c < n then xs[c] else 0
  {
    if n > 0 {
      SumAtLeast(xs, c, n - 1);
    }
  }

  lemma CarriedIsInFlight(flights: seq<Flight>, c: nat, id: nat)
    requires c < |flights|
    ensures InFlight(flights, id) >= Num(Carried(flights[c]), id)
  {
    SumAtLeast(Loads(flights, id), c, |flights|);
  }

  /** A claimed message takes its place in the map, where another one with its id may be. */
  lemma ClaimToWipChange(s: State, t: State, c: nat, id: nat)
    requires Next(s, t, ClaimToWip(c))
    ensures Places(t, id) == Places(s, id) - if id == s.flights[c].claimed.id && id in s.wip then 1 else 0
  {
    IdsOfOne(s.flights[c].claimed);
    InFlightUpdate(s.flights, c, Nothing, id);
  }

  lemma HealthyClaimChange(s: State, t: State, c: nat, id: nat)
    requires Next(s, t, ClaimToWip(c)) && Accounted(s, id) && LiveOnce(s, id)
    ensures Places(t, id) == Places(s, id)
  {
    IdsOfOne(s.flights[c].claimed);
    CarriedIsInFlight(s.flights, c, id);
    ClaimToWipChange(s, t, c, id);
  }

  lemma ReturnFromWipChange(s: State, t: State, c: nat, i: nat, delay: int, id: nat)
    requires Next(s, t, ReturnFromWip(c, i, delay)) && UnderOwnId(s.wip)
    ensures Places(t, id) == Places(s, id)
  {
    IdsOfOne(t.flights[c].returned);
    InFlightUpdate(s.flights, c, t.flights[c], id);
  }

  lemma ReturnedIds(was: seq<Message>, m: Message, until: int, q: seq<Message>)
    requires Returned(was, m, until, q)
    ensures Ids(q) == Ids(was) + multiset{m.id}
  {
    IdsOfLast(was, m);
    IdsOfLast(was, m.(deliverAfter := until));
    if m.group != "" {
      PutOffIds(was + [m], m.group, until);
      IdsOfPermutation(q, PutOff(was + [m], m.group, until));
    }
  }

  lemma LandInQ(s: State, t: State, c: nat, id: nat)
    requires c < |s.flights| && t == s.(q := t.q, flights := s.flights[c := Nothing])
    requires Num(t.q, id) == Num(s.q, id) + Num(Carried(s.flights[c]), id)
    ensures Places(t, id) == Places(s, id)
  {
    InFlightUpdate(s.flights, c, Nothing, id);
  }

  lemma ReturnToQChange(s: State, t: State, c: nat, now: int, id: nat)
    requires Next(s, t, ReturnToQ(c, now))
    ensures Places(t, id) == Places(s, id)
  {
    var m := s.flights[c].returned;
    assert Num(t.q, id) == Num(s.q, id) + Num([m], id) by {
      ReturnedIds(s.q, m, now + s.flights[c].delay, t.q);
      IdsOfOne(m);
    }
    LandInQ(s, t, c, id);
  }

  lemma LeavesMap(s: State, t: State, dead: seq<Message>, limit: int, id: nat)
    requires t.wip == s.wip - Silent(s.wip, limit) && Ids(dead) == multiset(Silent(s.wip, limit))
    ensures InWip(s, id) == InWip(t, id) + Num(dead, id)
  {
  }

  lemma TakeFromWip(s: State, t: State, c: nat, f: Flight, id: nat)
    requires Idle(s, c) && t.q == s.q && t.flights == s.flights[c := f]
    requires InWip(s, id) == InWip(t, id) + Num(Carried(f), id)
    ensures Places(t, id) == Places(s, id)
  {
    InFlightUpdate(s.flights, c, f, id);
  }

  lemma DeadFromWipChange(s: State, t: State, c: nat, limit: int, id: nat)
    requires Next(s, t, DeadFromWip(c, limit))
    ensures Places(t, id) == Places(s, id)
  {
    var f := t.flights[c];
    assert InWip(s, id) == InWip(t, id) + Num(Carried(f), id) by {
      LeavesMap(s, t, f.dead, limit, id);
    }
    TakeFromWip(s, t, c, f, id);
  }

  lemma DeadToQChange(s: State, t: State, c: nat, id: nat)
    requires Next(s, t, DeadToQ(c))
    ensures Places(t, id) == Places(s, id)
  {
    SortedIds(t.q, s.q, s.flights[c].dead, id);
    LandInQ(s, t, c, id);
  }

  lemma DroppedIds(q: seq<Message>, prefix: string)
    ensures Ids(q) == Ids(Kept(q, prefix, |q|)) + Ids(Dropped(q, prefix, |q|))
  {
    var kept, dropped := Kept(q, prefix, |q|), Dropped(q, prefix, |q|);
    KeptOrDropped(q, prefix, |q|);
    assert q[..|q|] == q;
    assert multiset(kept + dropped) == multiset(q);
    IdsOfPermutation(kept + dropped, q);
    IdsOfSum(kept, dropped);
  }

  /** No section makes or loses a message, apart from what it says it does. */
  lemma NextChange(s: State, t: State, x: Section, id: nat)
    requires Healthy(s) && Next(s, t, x)
    ensures Places(t, id) == Places(s, id) + Change(s, x, id)
  {
    assert Accounted(s, id) && LiveOnce(s, id);
    match x
    case QBulk(msgs, now) => QBulkChange(s, t, msgs, now, id);
    case ClaimFromQ(c, comment, now) => ClaimFromQChange(s, t, c, comment, now, id);
    case ClaimToWip(c) => HealthyClaimChange(s, t, c, id);
    case Ack(i) =>
    case Heartbeat(i, now) =>
    case ReturnFromWip(c, i, delay) => ReturnFromWipChange(s, t, c, i, delay, id);
    case ReturnToQ(c, now) => ReturnToQChange(s, t, c, now, id);
    case DeadFromWip(c, limit) => DeadFromWipChange(s, t, c, limit, id);
    case DeadToQ(c) => DeadToQChange(s, t, c, id);
    case DeleteFromQ(prefix) => DroppedIds(s.q, prefix);
    case DeleteFromWip(prefix) =>
  }

  lemma NotNegative(flights: seq<Flight>, id: nat)
    ensures InFlight(flights, id) >= 0
  {
    SumAtLeast(Loads(flights, id), |flights|, |flights|);
  }

  lemma NextLive(s: State, t: State, x: Section, id: nat)
    requires Next(s, t, x)
    ensures Live(t, id) == Live(s, id) + Change(s, x, id)
  {
  }

  lemma NextConserves(s: State, t: State, x: Section)
    requires Healthy(s) && Next(s, t, x) && Allowed(s, x)
    ensures Healthy(t)
  {
    forall id ensures Accounted(t, id) && LiveOnce(t, id) {
      assert Accounted(s, id) && LiveOnce(s, id);
      NextChange(s, t, x, id);
      NextLive(s, t, x, id);
    }
  }

  lemma {:induction false} SumOfZeros(xs: seq<int>, n: nat)
    requires n <= |xs| && forall k :: 0 <= k < |xs| ==> xs[k] == 0
    ensures Sum(xs, n) == 0
  {
    if n > 0 {
      SumOfZeros(xs, n - 1);
    }
  }

  lemma NothingInFlight(flights: seq<Flight>, id: nat)
    requires forall c :: 0 <= c < |flights| ==> flights[c] == Nothing
    ensures InFlight(flights, id) == 0
  {
    SumOfZeros(Loads(flights, id), |flights|);
  }

  ghost predicate NewIds(states: seq<State>, sections: seq<Section>)
    requires |states| == |sections| + 1
  {
    forall k :: 0 <= k < |sections| ==> Allowed(states[k], sections[k])
  }

  lemma {:induction false} RunConserves(states: seq<State>, sections: seq<Section>)
    requires Run(states, sections) && NewIds(states, sections)
    ensures Healthy(states[|sections|])
    decreases |sections|
  {
    var n := |sections|;
    if n == 0 {
      forall id ensures Accounted(states[0], id) && LiveOnce(states[0], id) {
        NothingInFlight(states[0].flights, id);
      }
    } else {
      RunConserves(states[..n], sections[..n - 1]);
      NextConserves(states[n - 1], states[n], sections[n - 1]);
    }
  }

  /** In every interleaving, when no bulk brings an id that is live, an id that was enqueued and
      neither acknowledged nor deleted since is in the queue, in the map or carried by one client, and
      only there; no other id is anywhere. */
  lemma EveryLiveIdInOnePlace(states: seq<State>, sections: seq<Section>, id: nat)
    requires Run(states, sections) && NewIds(states, sections)
    ensures var s := states[|sections|];
            && Num(s.q, id) + InWip(s, id) + InFlight(s.flights, id) == Live(s, id)
            && 0 <= Live(s, id) <= 1
  {
    var s := states[|sections|];
    RunConserves(states, sections);
    assert Accounted(s, id) && LiveOnce(s, id);
    NotNegative(s.flights, id);
  }

  // ---------------------------------------------------------------- ids that are live already

  ghost function From(start: State): State -> bool {
    s => s == start
  }

  ghost predicate Steps(s: State, t: State) {
    exists x :: Next(s, t, x) && Allowed(s, x)
  }

  ghost predicate Reachable(start: State, s: State) {
    s in R.States(From(start), Steps)
  }

  lemma Extend(start: State, s: State, t: State, x: Section)
    requires Reachable(start, s) && Next(s, t, x) && Allowed(s, x)
    ensures Reachable(start, t)
  {
    assert Steps(s, t);
    R.OneMoreStep(From(start), Steps, s, t);
  }

  /** Whatever happens, as long as further bulks bring new ids only, no message is lost. */
  ghost predicate ConservedForEver(start: State) {
    forall s :: Reachable(start, s) ==> Conserved(s)
  }

  ghost function Invariant(): State -> bool {
    s => Healthy(s)
  }

  lemma HealthyForEver(start: State)
    requires Healthy(start)
    ensures ConservedForEver(start)
  {
    assert R.Begins(From(start), Invariant());
    assert R.Keeps(Steps, Invariant()) by {
      forall s, t | Healthy(s) && Steps(s, t) ensures Healthy(t) {
        var x :| Next(s, t, x) && Allowed(s, x);
        NextConserves(s, t, x);
      }
    }
    forall s | Reachable(start, s) ensures Conserved(s) {
      R.Always(From(start), Steps, Invariant(), s);
    }
  }

  /** The id is in the queue, and twice in the queue and the map together. */
  predicate Doubled(s: State, id: nat) {
    Num(s.q, id) >= 1 && Num(s.q, id) + InWip(s, id) >= 2
  }

  /** A client takes the head of the queue to the map. */
  lemma ClaimHead(start: State, s: State, c: nat) returns (t: State)
    requires Reachable(start, s) && Conserved(s) && Idle(s, c) && s.q != []
    ensures Reachable(start, t) && Idle(t, c) && t.q == s.q[1..]
    ensures t.wip.Keys == s.wip.Keys + {s.q[0].id} && UnderOwnId(t.wip)
    ensures t.enqueued == s.enqueued && t.gone == s.gone
    ensures forall id :: Places(t, id) == Places(s, id) - if id == s.q[0].id && id in s.wip then 1 else 0
  {
    var now := s.q[0].deliverAfter;
    var m := s.q[0].(heartbeat := now, claimComment := "");
    var u := s.(q := s.q[1..], flights := s.flights[c := Claimed(m)]);
    Extend(start, s, u, ClaimFromQ(c, "", now));
    t := u.(wip := u.wip[m.id := m], flights := u.flights[c := Nothing]);
    Extend(start, u, t, ClaimToWip(c));
    forall id ensures Places(t, id) == Places(s, id) - if id == s.q[0].id && id in s.wip then 1 else 0 {
      ClaimFromQChange(s, u, c, "", now, id);
      ClaimToWipChange(u, t, c, id);
    }
  }

  lemma ClaimKeepsDoubled(s: State, t: State, id: nat)
    requires Doubled(s, id) && s.q[0].id !in s.wip
    requires t.q == s.q[1..] && t.wip.Keys == s.wip.Keys + {s.q[0].id}
    ensures Doubled(t, id)
  {
    IdsOfHead(s.q);
  }

  /** One client that claims on and on loses one of two messages with one id. */
  lemma {:induction false} ClaimOn(start: State, s: State, c: nat, id: nat) returns (t: State)
    requires Reachable(start, s) && Conserved(s) && Idle(s, c) && Doubled(s, id)
    ensures Reachable(start, t) && !Conserved(t)
    decreases |s.q|
  {
    var head := s.q[0].id;
    t := ClaimHead(start, s, c);
    if head in s.wip {
      assert Accounted(s, head) && !Accounted(t, head);
    } else {
      forall i ensures Accounted(t, i) {
        assert Accounted(s, i);
      }
      ClaimKeepsDoubled(s, t, id);
      t := ClaimOn(start, t, c, id);
    }
  }

  /** What a client carries reaches the queue, and the client is free. */
  lemma LandQueued(start: State, s: State, t: State, x: Section, d: nat)
    requires Reachable(start, s) && Conserved(s) && Next(s, t, x) && d < |s.flights|
    requires x == ReturnToQ(d, 0) || x == DeadToQ(d)
    ensures Reachable(start, t) && Conserved(t)
  {
    Extend(start, s, t, x);
    forall i ensures Accounted(t, i) {
      assert Accounted(s, i);
      if x.DeadToQ? {
        DeadToQChange(s, t, d, i);
      } else {
        ReturnToQChange(s, t, d, 0, i);
      }
    }
  }

  lemma LandReturning(start: State, s: State, d: nat) returns (t: State)
    requires Reachable(start, s) && Conserved(s) && d < |s.flights| && s.flights[d].Returning?
    ensures Reachable(start, t) && Conserved(t)
    ensures t.flights == s.flights[d := Nothing] && t.wip == s.wip
    ensures Ids(t.q) == Ids(s.q) + multiset{s.flights[d].returned.id}
  {
    var f := s.flights[d];
    var q := ReturnExists(s.q, f.returned, f.delay);
    t := s.(q := q, flights := s.flights[d := Nothing]);
    LandQueued(start, s, t, ReturnToQ(d, 0), d);
    ReturnedIds(s.q, f.returned, f.delay, q);
  }

  lemma LandDead(start: State, s: State, d: nat) returns (t: State)
    requires Reachable(start, s) && Conserved(s) && d < |s.flights| && s.flights[d].Dead?
    ensures Reachable(start, t) && Conserved(t)
    ensures t.flights == s.flights[d := Nothing] && t.wip == s.wip
    ensures Ids(t.q) == Ids(s.q) + Ids(s.flights[d].dead)
  {
    var dead := s.flights[d].dead;
    var q := SortExists(s.q + dead);
    t := s.(q := q, flights := s.flights[d := Nothing]);
    LandQueued(start, s, t, DeadToQ(d), d);
    IdsOfPermutation(q, s.q + dead);
    IdsOfSum(s.q, dead);
  }

  lemma LandClaimed(start: State, s: State, d: nat) returns (t: State)
    requires Reachable(start, s) && Conserved(s) && d < |s.flights| && s.flights[d].Claimed?
    requires s.flights[d].claimed.id !in s.wip
    ensures Reachable(start, t) && Conserved(t)
    ensures t.flights == s.flights[d := Nothing] && t.q == s.q
    ensures t.wip.Keys == s.wip.Keys + {s.flights[d].claimed.id}
  {
    var m := s.flights[d].claimed;
    t := s.(wip := s.wip[m.id := m], flights := s.flights[d := Nothing]);
    Extend(start, s, t, ClaimToWip(d));
    forall i ensures Accounted(t, i) {
      assert Accounted(s, i);
      ClaimToWipChange(s, t, d, i);
    }
  }

  /** A message in a client's hands goes where it is on its way to. */
  lemma Land(start: State, s: State, c: nat, d: nat, id: nat) returns (t: State)
    requires Reachable(start, s) && Conserved(s) && Idle(s, c) && Num(s.q, id) >= 1 && id !in s.wip
    requires d < |s.flights| && Num(Carried(s.flights[d]), id) >= 1
    ensures Reachable(start, t) && Conserved(t) && Idle(t, c) && Doubled(t, id)
  {
    match s.flights[d]
    case Claimed(m) =>
      IdsOfOne(m);
      t := LandClaimed(start, s, d);
    case Returning(m, _) =>
      IdsOfOne(m);
      t := LandReturning(start, s, d);
    case Dead(ms) =>
      t := LandDead(start, s, d);
    case Nothing =>
  }

  lemma ReturnExists(was: seq<Message>, m: Message, until: int) returns (q: seq<Message>)
    ensures Returned(was, m, until, q)
  {
    if m.group == "" {
      q := was + [m.(deliverAfter := until)];
    } else {
      q := SortExists(PutOff(was + [m], m.group, until));
    }
  }

  lemma {:induction false} SomeoneCarries(xs: seq<int>, n: nat) returns (d: nat)
    requires n <= |xs| && Sum(xs, n) > 0
    ensures d < n && xs[d] > 0
  {
    if xs[n - 1] > 0 {
      d := n - 1;
    } else {
      d := SomeoneCarries(xs, n - 1);
    }
  }

  lemma TwiceIsLost(start: State, s: State, c: nat, id: nat) returns (t: State)
    requires Reachable(start, s) && Conserved(s) && Idle(s, c) && Num(s.q, id) >= 1 && Places(s, id) >= 2
    ensures Reachable(start, t) && !Conserved(t)
  {
    t := s;
    if !Doubled(s, id) {
      var d := SomeoneCarries(Loads(s.flights, id), |s.flights|);
      t := Land(start, s, c, d, id);
    }
    t := ClaimOn(start, t, c, id);
  }

  lemma BulkIsConserved(s: State, t: State, msgs: seq<Message>, now: int)
    requires Conserved(s) && Next(s, t, QBulk(msgs, now))
    ensures Conserved(t)
  {
    forall id ensures Accounted(t, id) {
      assert Accounted(s, id);
      QBulkChange(s, t, msgs, now, id);
    }
  }

  /** The bulk brings an id that is there already, or brings it twice. */
  lemma BulkDoubles(s: State, t: State, msgs: seq<Message>, now: int, id: nat)
    requires Conserved(s) && Next(s, t, QBulk(msgs, now))
    requires id in Ids(msgs) && !(Live(s, id) == 0 && Ids(msgs)[id] == 1)
    ensures Num(t.q, id) >= 1 && Places(t, id) >= 2
  {
    assert Accounted(s, id);
    NotNegative(s.flights, id);
    QBulkChange(s, t, msgs, now, id);
    SortedIds(t.q, s.q, Stamped(msgs, now), id);
    StampedIds(msgs, now);
  }

  /** From any state that is in order and in which a client is free: no schedule after a bulk loses a
      message if and only if no id of the bulk is live and none is repeated. */
  lemma BulkIsSafeIff(s: State, t: State, msgs: seq<Message>, now: int, c: nat)
    requires Healthy(s) && Idle(s, c) && Next(s, t, QBulk(msgs, now))
    ensures ConservedForEver(t) <==> New(s, msgs)
  {
    if New(s, msgs) {
      NextConserves(s, t, QBulk(msgs, now));
      HealthyForEver(t);
    } else {
      var id :| id in Ids(msgs) && !(Live(s, id) == 0 && Ids(msgs)[id] == 1);
      BulkIsConserved(s, t, msgs, now);
      BulkDoubles(s, t, msgs, now, id);
      R.Initially(From(t), Steps, t);
      var u := TwiceIsLost(t, t, c, id);
    }
  }

  // ---------------------------------------------------------------- order

  ghost predicate AllGrouped(msgs: seq<Message>) {
    forall k :: 0 <= k < |msgs| ==> msgs[k].group != ""
  }

  /** The queue is sorted, and every message has a group. */
  ghost predicate Ordered(s: State) {
    && Sorted(s.q) && AllGrouped(s.q)
    && (forall id :: id in s.wip ==> s.wip[id].group != "")
    && (forall c :: 0 <= c < |s.flights| ==> AllGrouped(Carried(s.flights[c])))
  }

  lemma GroupedPermutation(a: seq<Message>, b: seq<Message>)
    requires AllGrouped(a) && multiset(a) == multiset(b)
    ensures AllGrouped(b)
  {
    forall k | 0 <= k < |b| ensures b[k].group != "" {
      assert b[k] in multiset(b);
      var i := IndexOf(a, b[k]);
    }
  }

  /** The kept messages, as positions in the queue they come from. */
  lemma {:induction false} KeptSorted(q: seq<Message>, prefix: string, n: nat)
    requires Sorted(q) && n <= |q|
    ensures Sorted(Kept(q, prefix, n))
    ensures forall m :: m in Kept(q, prefix, n) ==> exists k :: 0 <= k < n && q[k] == m
  {
    if n > 0 {
      KeptSorted(q, prefix, n - 1);
      var kept := Kept(q, prefix, n - 1);
      if kept != [] {
        assert kept[|kept| - 1] in kept;
        var k :| 0 <= k < n - 1 && q[k] == kept[|kept| - 1];
        assert InOrder(q, k, n - 1);
      }
      SortedPrefix(kept, q[n - 1]);
    }
  }

  lemma SortSectionOrders(s: State, t: State, all: seq<Message>)
    requires Ordered(s) && IsSortOf(t.q, all) && AllGrouped(all)
    requires t.wip == s.wip && |t.flights| == |s.flights|
    requires forall c :: 0 <= c < |t.flights| ==> t.flights[c] == s.flights[c] || t.flights[c] == Nothing
    ensures Ordered(t)
  {
    GroupedPermutation(all, t.q);
  }

  lemma ReturnToQOrders(s: State, t: State, c: nat, now: int)
    requires Ordered(s) && Next(s, t, ReturnToQ(c, now))
    ensures Ordered(t)
  {
    var m := s.flights[c].returned;
    assert AllGrouped(Carried(s.flights[c])) && Carried(s.flights[c])[0] == m;
    SortSectionOrders(s, t, PutOff(s.q + [m], m.group, now + s.flights[c].delay));
  }

  lemma DeadToQOrders(s: State, t: State, c: nat)
    requires Ordered(s) && Next(s, t, DeadToQ(c))
    ensures Ordered(t)
  {
    assert AllGrouped(Carried(s.flights[c]));
    SortSectionOrders(s, t, s.q + s.flights[c].dead);
  }

  lemma DeadFromWipOrders(s: State, t: State, c: nat, limit: int)
    requires Ordered(s) && Next(s, t, DeadFromWip(c, limit))
    ensures Ordered(t)
  {
    assert AllGrouped(t.flights[c].dead);
  }

  lemma ClaimFromQOrders(s: State, t: State, c: nat, comment: string, now: int)
    requires Ordered(s) && Next(s, t, ClaimFromQ(c, comment, now))
    ensures Ordered(t)
  {
    SortedTail(s.q);
    assert AllGrouped(Carried(t.flights[c]));
  }

  lemma DeleteFromQOrders(s: State, t: State, prefix: string)
    requires Ordered(s) && Next(s, t, DeleteFromQ(prefix))
    ensures Ordered(t)
  {
    KeptSorted(s.q, prefix, |s.q|);
    forall k | 0 <= k < |t.q| ensures t.q[k].group != "" {
      assert t.q[k] in t.q;
    }
  }

  lemma WipOrders(s: State, t: State, x: Section)
    requires Ordered(s) && Next(s, t, x)
    requires x.ClaimToWip? || x.Ack? || x.Heartbeat? || x.ReturnFromWip? || x.DeleteFromWip?
    ensures Ordered(t)
  {
    if x.ClaimToWip? {
      assert AllGrouped(Carried(s.flights[x.client]));
      assert Carried(s.flights[x.client])[0].group != "";
    }
  }

  lemma NextOrders(s: State, t: State, x: Section)
    requires Ordered(s) && Next(s, t, x) && (x.QBulk? ==> AllGrouped(x.msgs))
    ensures Ordered(t)
  {
    match x
    case QBulk(msgs, now) => SortSectionOrders(s, t, s.q + Stamped(msgs, now));
    case ClaimFromQ(c, comment, now) => ClaimFromQOrders(s, t, c, comment, now);
    case ReturnToQ(c, now) => ReturnToQOrders(s, t, c, now);
    case DeadFromWip(c, limit) => DeadFromWipOrders(s, t, c, limit);
    case DeadToQ(c) => DeadToQOrders(s, t, c);
    case DeleteFromQ(prefix) => DeleteFromQOrders(s, t, prefix);
    case _ => WipOrders(s, t, x);
  }

  /** When every message that is enqueued has a group, the queue is sorted after every section, in
      every interleaving. */
  lemma {:induction false} QueueStaysSorted(states: seq<State>, sections: seq<Section>)
    requires Run(states, sections)
    requires forall i :: 0 <= i < |sections| && sections[i].QBulk? ==> AllGrouped(sections[i].msgs)
    ensures Ordered(states[|sections|])
    decreases |sections|
  {
    var n := |sections|;
    if n > 0 {
      QueueStaysSorted(states[..n], sections[..n - 1]);
      NextOrders(states[n - 1], states[n], sections[n - 1]);
    }
  }
}
