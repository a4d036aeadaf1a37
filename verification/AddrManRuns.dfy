/** The remaining operations of the address manager, and what holds over whole runs of it. */
module AddrManRuns {
  import opened Basics
  import opened AddrManState
  import opened AddrManOps

  // ---------- operations that only change what is known about an address ----------

  function Attempted(d: Data, fCountFailure: bool, nLastGood: int, nTime: int): Data {
    var e := d.(nLastTry := nTime);
    if fCountFailure && e.nLastCountAttempt < nLastGood
    then e.(nLastCountAttempt := nTime, nAttempts := e.nAttempts + 1) else e
  }

  function Attempt(s: State, a: Service, fCountFailure: bool, nTime: int): (t: State)
    requires Linked(s)
  {
    if !Known(s, a) then s
    else WithData(s, s.addr[a.ip], Attempted(s.info[s.addr[a.ip]].data, fCountFailure, s.nLastGood, nTime))
  }

  function SeenConnected(d: Data, nTime: int): Data {
    if nTime - d.nTime > 20 * 60 then d.(nTime := nTime) else d
  }

  function Connected(s: State, a: Service, nTime: int): (t: State)
    requires Linked(s)
  {
    if !Known(s, a) then s
    else WithData(s, s.addr[a.ip], SeenConnected(s.info[s.addr[a.ip]].data, nTime))
  }

  function SetServices(s: State, a: Service, nServices: ServiceFlags): (t: State)
    requires Linked(s)
  {
    if !Known(s, a) then s
    else WithData(s, s.addr[a.ip], s.info[s.addr[a.ip]].data.(nServices := nServices))
  }

  // ---------- GetAddr_: a partial shuffle ----------

  function GetAddrLimit(size: nat): int {
    Min(GETADDR_MAX_PCT * size / 100, GETADDR_MAX)
  }

  function AddressOf(i: Data): Address { Address(i.service, i.nServices, i.nTime) }

  /** A position at or after n. */
  function RandomPos(rnd: nat, n: nat, size: nat): (p: int)
    requires n < size
    ensures n <= p < size
  {
    rnd % (size - n) + n
  }

  /** Addresses of low quality are skipped. */
  function Collected(acc: seq<Address>, d: Data, now: int): seq<Address> {
    if IsTerrible(d, now) then acc else acc + [AddressOf(d)]
  }

  /** The loop of GetAddr_ from position n on; rnd(n) is the random number drawn at position n. */
  function GetAddrFrom(s: State, n: nat, acc: seq<Address>, limit: int, now: int, rnd: nat -> nat)
    : (r: (State, seq<Address>))
    requires RandomOk(s.info, s.random) && n <= |s.random|
    decreases |s.random| - n
  {
    if n == |s.random| || |acc| >= limit then (s, acc)
    else
      SwapRandomReshuffles(s, n, RandomPos(rnd(n), n, |s.random|));
      var t := SwapRandom(s, n, RandomPos(rnd(n), n, |s.random|));
      GetAddrFrom(t, n + 1, Collected(acc, t.info[t.random[n]].data, now), limit, now, rnd)
  }

  function GetAddr(s: State, now: int, rnd: nat -> nat): (r: (State, seq<Address>))
    requires RandomOk(s.info, s.random)
  {
    GetAddrFrom(s, 0, [], GetAddrLimit(|s.random|), now, rnd)
  }

  lemma GetAddrStep(s: State, n: nat, acc: seq<Address>, limit: int, now: int, rnd: nat -> nat)
    requires RandomOk(s.info, s.random) && n < |s.random| && |acc| < limit
    ensures var t := SwapRandom(s, n, RandomPos(rnd(n), n, |s.random|));
      && RandomOk(t.info, t.random) && n < |t.random|
      && GetAddrFrom(s, n, acc, limit, now, rnd)
         == GetAddrFrom(t, n + 1, Collected(acc, t.info[t.random[n]].data, now), limit, now, rnd)
  {
    SwapRandomReshuffles(s, n, RandomPos(rnd(n), n, |s.random|));
  }

  lemma GetAddrEnd(s: State, n: nat, acc: seq<Address>, limit: int, now: int, rnd: nat -> nat)
    requires RandomOk(s.info, s.random) && n <= |s.random| && (n == |s.random| || |acc| >= limit)
    ensures GetAddrFrom(s, n, acc, limit, now, rnd) == (s, acc)
  {
  }

  /** GetAddr_ only reorders vRandom. */
  lemma {:induction false} GetAddrReshuffles(s: State, n: nat, acc: seq<Address>, limit: int, now: int, rnd: nat -> nat)
    requires RandomOk(s.info, s.random) && n <= |s.random|
    ensures Reshuffled(s, GetAddrFrom(s, n, acc, limit, now, rnd).0)
    decreases |s.random| - n
  {
    hide SwapRandom, Collected, RandomPos;
    if n < |s.random| && |acc| < limit {
      SwapRandomReshuffles(s, n, RandomPos(rnd(n), n, |s.random|));
      var t := SwapRandom(s, n, RandomPos(rnd(n), n, |s.random|));
      GetAddrReshuffles(t, n + 1, Collected(acc, t.info[t.random[n]].data, now), limit, now, rnd);
    }
  }

  // ---------- tried collisions ----------

  /** The least member of a set, the first in the order in which the set is walked. */
  ghost function Least(c: set<int>): (m: int)
    requires c != {}
    ensures IsLeast(c, m)
  {
    LeastExists(c);
    var m :| IsLeast(c, m);
    m
  }

  lemma NonEmpty(c: set<int>)
    ensures c == {} || exists x :: x in c
  {
    if forall x :: x !in c { assert c == {}; }
  }

  predicate IsLeast(c: set<int>, m: int) {
    m in c && forall k :: k in c ==> m <= k
  }

  lemma {:induction false} LeastExists(c: set<int>)
    requires c != {}
    ensures exists m :: IsLeast(c, m)
  {
    NonEmpty(c);
    var x :| x in c;
    if c == {x} {
      assert IsLeast(c, x);
    } else {
      LeastExists(c - {x});
      var m :| IsLeast(c - {x}, m);
      assert c == c - {x} + {x};
      assert IsLeast(c, Min(x, m));
    }
  }

  /** The member that n others precede. */
  ghost function Nth(c: set<int>, n: nat): (m: int)
    requires n < |c|
    ensures m in c
    decreases n
  {
    if n == 0 then Least(c) else Nth(c - {Least(c)}, n - 1)
  }

  /** What ResolveCollisions_ does with one queued id. */
  function ResolveOne(s: State, id: int, now: int): (t: State)
    requires Linked(s)
    ensures Linked(t)
  {
    var done := s.(collisions := s.collisions - {id});
    if id !in s.info then done
    else
      var a := s.info[id].data.service;
      var occupant := s.triedTable[TriedSlot(s.k, a)];
      if !s.k.net.valid(a.ip) then done
      else if occupant == -1 then Good(s, a, false, now).(collisions := s.collisions - {id})
      else
        var o := s.info[occupant].data;
        if now - o.nLastSuccess < REPLACEMENT_HOURS * (60 * 60) then done
        else if now - o.nLastTry < REPLACEMENT_HOURS * (60 * 60) && now - o.nLastTry > 60
        then Good(s, a, false, now).(collisions := s.collisions - {id})
        else s
  }

  /** A queued id is left alone, dropped from the queue, or treated as a success and dropped. */
  lemma ResolveOneCases(s: State, id: int, now: int)
    requires Linked(s)
    ensures var t := ResolveOne(s, id, now);
      || t == s
      || t == s.(collisions := s.collisions - {id})
      || (id in s.info && t == Good(s, s.info[id].data.service, false, now).(collisions := s.collisions - {id}))
  {
  }

  /** The loop of ResolveCollisions_ over the ids still to be visited. */
  ghost function ResolveFrom(s: State, todo: set<int>, now: int): (t: State)
    requires Linked(s)
    ensures Linked(t)
    decreases |todo|
  {
    if todo == {} then s
    else ResolveFrom(ResolveOne(s, Least(todo), now), todo - {Least(todo)}, now)
  }

  ghost function Resolve(s: State, now: int): (t: State)
    requires Linked(s)
    ensures Linked(t)
  {
    ResolveFrom(s, s.collisions, now)
  }

  /** Only the slot of a queued entry is looked at, so this is defined only where that slot is occupied. */
  ghost predicate CollisionsOk(s: State) {
    && |s.collisions| <= SET_TRIED_COLLISION_SIZE
    && forall id :: id in s.collisions ==> id < s.nIdCount && (id in s.info ==> Collides(s, id))
  }

  /** The tried slot of entry `id` is occupied. */
  ghost predicate Collides(s: State, id: int) {
    && id in s.info
    && TriedSlot(s.k, s.info[id].data.service) in s.triedTable
    && s.triedTable[TriedSlot(s.k, s.info[id].data.service)] != -1
  }

  /** A queued entry that still exists has an occupied tried slot: it never stops being a collision. */
  lemma QueuedCollides(s: State, id: int)
    requires CollisionsOk(s) && id in s.collisions && id in s.info
    ensures TriedSlot(s.k, s.info[id].data.service) in s.triedTable
    ensures s.triedTable[TriedSlot(s.k, s.info[id].data.service)] != -1
  {
    assert Collides(s, id);
  }

  /** While the queue is walked, every id that is still to be visited stays queued. */
  lemma StillQueued(s: State, todo: set<int>, id: int, now: int)
    requires Linked(s) && todo <= s.collisions && id in todo
    ensures todo - {id} <= ResolveOne(s, id, now).collisions
  {
    ResolveOneCases(s, id, now);
  }

  /**
   * What becomes of a queued id, in full: a dead or invalid one is dropped; otherwise its tried slot is occupied, and
   * it is dropped, promoted and dropped, or left, by what is known of the occupant.
   */
  lemma ResolveOutcome(s: State, id: int, now: int)
    requires Linked(s) && CollisionsOk(s) && id in s.collisions
    ensures var t, done := ResolveOne(s, id, now), s.(collisions := s.collisions - {id});
      if id !in s.info || !s.k.net.valid(s.info[id].data.service.ip) then t == done
      else
        var a := s.info[id].data.service;
        && TriedSlot(s.k, a) in s.triedTable && s.triedTable[TriedSlot(s.k, a)] in s.info
        && var o := s.info[s.triedTable[TriedSlot(s.k, a)]];
        && o.fInTried
        && var recent := now - o.data.nLastSuccess < REPLACEMENT_HOURS * (60 * 60);
        && var failed := 60 < now - o.data.nLastTry < REPLACEMENT_HOURS * (60 * 60);
        && (recent ==> t == done)
        && (!recent && failed ==> t == Good(s, a, false, now).(collisions := s.collisions - {id}))
        && (!recent && !failed ==> t == s)
  {
    hide RandomOk, AddrOk, NewOk, RefsOk, Good;
    if id in s.info { QueuedCollides(s, id); }
  }

  /** The tried entry that a randomly chosen queued entry wants to replace. */
  ghost function SelectTriedCollision(s: State, rnd: nat): (r: (State, Option<Info>))
    requires Linked(s) && CollisionsOk(s)
    ensures Linked(r.0)
  {
    if s.collisions == {} then (s, None)
    else
      var id := Nth(s.collisions, rnd % |s.collisions|);
      if id !in s.info then (s.(collisions := s.collisions - {id}), None)
      else (s, Some(s.info[s.triedTable[TriedSlot(s.k, s.info[id].data.service)]]))
  }

  // ---------- an occupied tried slot stays occupied, ids are never reused ----------

  ghost predicate Evolves(s: State, t: State) {
    && t.k == s.k
    && s.nIdCount <= t.nIdCount
    && (forall id :: id in t.info && id < s.nIdCount ==>
          id in s.info && t.info[id].data.service == s.info[id].data.service)
    && (forall sl :: sl in s.triedTable && s.triedTable[sl] != -1 ==> sl in t.triedTable && t.triedTable[sl] != -1)
  }

  lemma EvolvesCollisions(s: State, t: State)
    requires IdsOk(s.info, s.nIdCount) && CollisionsOk(s) && Evolves(s, t) && t.collisions <= s.collisions
    ensures CollisionsOk(t)
  {
    assert s.collisions == t.collisions + (s.collisions - t.collisions);
    forall id | id in t.collisions && id in t.info ensures Collides(t, id) {
      assert Collides(s, id);
    }
  }

  lemma MakeTriedEvolves(s: State, id: int)
    requires Linked(s) && id in s.info && !s.info[id].fInTried
    ensures Evolves(s, MakeTried(s, id)) && MakeTried(s, id).collisions == s.collisions
  {
    hide RandomOk, AddrOk, NewOk, RefsOk;
  }

  lemma {:induction false} EvolvesTrans(s: State, t: State, u: State)
    requires Evolves(s, t) && Evolves(t, u)
    ensures Evolves(s, u)
  {
  }

  lemma WithDataEvolves(s: State, id: int, d: Data)
    requires Linked(s) && id in s.info && d.service == s.info[id].data.service
    ensures Evolves(s, WithData(s, id, d))
  {
  }

  lemma PromoteEvolves(s: State, id: int, testBeforeEvict: bool)
    requires Linked(s) && id in s.info && !s.info[id].fInTried
    ensures Evolves(s, Promote(s, id, testBeforeEvict))
    ensures !testBeforeEvict ==> Promote(s, id, testBeforeEvict).collisions == s.collisions
  {
    if testBeforeEvict && s.triedTable[TriedSlot(s.k, s.info[id].data.service)] != -1 {
      var t := Promote(s, id, testBeforeEvict);
      assert t == s.(collisions := t.collisions);
    } else {
      MakeTriedEvolves(s, id);
    }
  }

  lemma GoodEvolves(s: State, a: Service, testBeforeEvict: bool, nTime: int)
    requires Linked(s)
    ensures Evolves(s, Good(s, a, testBeforeEvict, nTime))
    ensures !testBeforeEvict ==> Good(s, a, testBeforeEvict, nTime).collisions == s.collisions
  {
    var s0 := s.(nLastGood := nTime);
    assert Linked(s0);
    if Known(s, a) {
      var id := s.addr[a.ip];
      WithDataEvolves(s0, id, Succeeded(s.info[id].data, nTime));
      var s1 := WithData(s0, id, Succeeded(s.info[id].data, nTime));
      if !s.info[id].fInTried {
        PromoteEvolves(s1, id, testBeforeEvict);
        EvolvesTrans(s0, s1, Promote(s1, id, testBeforeEvict));
      }
    }
  }

  /** What Good_ does to the queue: nothing, or it adds an entry that collides. */
  lemma GoodQueues(s: State, a: Service, testBeforeEvict: bool, nTime: int)
    requires Linked(s)
    ensures var t := Good(s, a, testBeforeEvict, nTime);
      t.collisions == s.collisions ||
      (|s.collisions| < SET_TRIED_COLLISION_SIZE && Known(s, a) && Collides(t, s.addr[a.ip])
       && t.collisions == s.collisions + {s.addr[a.ip]})
  {
    hide RandomOk, NewOk, RefsOk, MakeTried;
    if Known(s, a) && !s.info[s.addr[a.ip]].fInTried {
      var id := s.addr[a.ip];
      MakeTriedEvolves(WithData(s.(nLastGood := nTime), id, Succeeded(s.info[id].data, nTime)), id);
    }
  }

  /** Good_ queues an entry only when its tried slot is occupied, and never more than ten of them. */
  lemma GoodCollisions(s: State, a: Service, testBeforeEvict: bool, nTime: int)
    requires Linked(s) && CollisionsOk(s)
    ensures CollisionsOk(Good(s, a, testBeforeEvict, nTime))
  {
    hide RandomOk, AddrOk, NewOk, TriedOk, RefsOk, Good, Evolves;
    GoodEvolves(s, a, testBeforeEvict, nTime);
    GoodQueues(s, a, testBeforeEvict, nTime);
    var t := Good(s, a, testBeforeEvict, nTime);
    EvolvesCollisions(s, t.(collisions := s.collisions));
  }

  lemma ReferDescends(s: State, id: int, source: NetAddr, now: int)
    requires Linked(s) && id in s.info && !s.info[id].fInTried
    ensures Descends(s, Refer(s, id, source, now)) && Refer(s, id, source, now).triedTable == s.triedTable
  {
    var sl := NewSlot(s.k, s.info[id].data.service, source);
    if s.newTable[sl] != id && !MayTake(s, id, sl, now) && s.info[id].nRefCount == 0 {
      DeleteFrame(s, id);
    }
  }

  lemma AddKnownEvolves(s: State, id: int, a: Address, source: NetAddr, penalty: int, now: int, rnd: nat)
    requires Linked(s) && id in s.info
    ensures var t := AddKnown(s, id, a, source, penalty, now, rnd); Evolves(s, t) && t.collisions == s.collisions
  {
    var t := WithData(s, id, Announced(s.info[id].data, a, penalty, now));
    if !Declined(t.info[id], a, rnd) {
      ReferDescends(t, id, source, now);
    }
  }

  lemma AddUnknownEvolves(s: State, a: Address, source: NetAddr, now: int)
    requires Linked(s) && a.service.ip !in s.addr
    ensures var t := AddUnknown(s, a, source, now); Evolves(s, t) && t.collisions == s.collisions
  {
    CreateEvolves(s, a, source);
    var c := Create(s, a, source);
    ReferDescends(c, s.nIdCount, source, now);
    EvolvesDescends(s, c, Refer(c, s.nIdCount, source, now));
  }

  lemma CreateEvolves(s: State, a: Address, source: NetAddr)
    requires Linked(s) && a.service.ip !in s.addr
    ensures Evolves(s, Create(s, a, source)) && Create(s, a, source).collisions == s.collisions
  {
  }

  lemma EvolvesDescends(s: State, t: State, u: State)
    requires Evolves(s, t) && Descends(t, u) && u.triedTable == t.triedTable
    ensures Evolves(s, u)
  {
  }

  lemma AddEvolves(s: State, a: Address, source: NetAddr, nTimePenalty: int, now: int, rnd: nat)
    requires Linked(s)
    ensures var t := Add(s, a, source, nTimePenalty, now, rnd).0; Evolves(s, t) && t.collisions == s.collisions
  {
    var ip := a.service.ip;
    var penalty := if ip == source then 0 else nTimePenalty;
    if ip in s.addr {
      AddKnownEvolves(s, s.addr[ip], a, source, penalty, now, rnd);
    } else {
      AddUnknownEvolves(s, Penalised(a, penalty), source, now);
    }
  }

  // ---------- whole runs ----------

  datatype Op =
    | AddOp(addr: Address, source: NetAddr, nTimePenalty: int, now: int, rnd: nat)
    | GoodOp(service: Service, testBeforeEvict: bool, now: int)
    | AttemptOp(service: Service, fCountFailure: bool, now: int)
    | ConnectedOp(service: Service, now: int)
    | SetServicesOp(service: Service, nServices: ServiceFlags)
    | GetAddrOp(now: int, draw: nat -> nat)
    | ResolveCollisionsOp(now: int)
    | SelectTriedCollisionOp(rnd: nat)

  /** Consistent tables, and every queued collision is one. */
  ghost predicate Safe(s: State) {
    Consistent(s) && CollisionsOk(s)
  }

  /** A table with no occupied slot. */
  ghost predicate IsEmptyTable(t: Table, buckets: nat) {
    IsTable(t, buckets) && forall sl :: sl in t ==> t[sl] == -1
  }

  lemma EmptyTableExists(buckets: nat)
    ensures exists t :: IsEmptyTable(t, buckets)
  {
    var t: Table := map b, p | 0 <= b < buckets && 0 <= p < BUCKET_SIZE :: (b, p) := -1;
    assert IsEmptyTable(t, buckets);
  }

  ghost function EmptyTable(buckets: nat): (t: Table)
    ensures IsEmptyTable(t, buckets)
  {
    EmptyTableExists(buckets);
    var t :| IsEmptyTable(t, buckets);
    t
  }

  /** A manager just constructed. */
  ghost function Fresh(k: Placing): State {
    State(k, 0, map[], map[], [], 0, EmptyTable(TRIED_BUCKET_COUNT), 0, EmptyTable(NEW_BUCKET_COUNT), 1, {})
  }

  lemma FreshSafe(k: Placing)
    ensures Safe(Fresh(k))
  {
    BlankSafe(k, EmptyTable(TRIED_BUCKET_COUNT), EmptyTable(NEW_BUCKET_COUNT));
  }

  lemma BlankSafe(k: Placing, triedTable: Table, newTable: Table)
    requires IsEmptyTable(triedTable, TRIED_BUCKET_COUNT) && IsEmptyTable(newTable, NEW_BUCKET_COUNT)
    ensures Safe(State(k, 0, map[], map[], [], 0, triedTable, 0, newTable, 1, {}))
  {
    assert NewIds(map[]) == {} && TriedIds(map[]) == {};
  }

  ghost function Step(s: State, op: Op): (t: State)
    requires Safe(s)
    ensures Safe(t)
  {
    StepSafe(s, op);
    StepUnchecked(s, op)
  }

  ghost function StepUnchecked(s: State, op: Op): (t: State)
    requires Safe(s)
  {
    match op
    case AddOp(a, source, penalty, now, rnd) => Add(s, a, source, penalty, now, rnd).0
    case GoodOp(a, testBeforeEvict, now) => Good(s, a, testBeforeEvict, now)
    case AttemptOp(a, fCountFailure, now) => Attempt(s, a, fCountFailure, now)
    case ConnectedOp(a, now) => Connected(s, a, now)
    case SetServicesOp(a, nServices) => SetServices(s, a, nServices)
    case GetAddrOp(now, draw) => GetAddr(s, now, draw).0
    case ResolveCollisionsOp(now) => Resolve(s, now)
    case SelectTriedCollisionOp(rnd) => SelectTriedCollision(s, rnd).0
  }

  lemma WithDataSafe(s: State, id: int, d: Data)
    requires Safe(s) && id in s.info && d.service == s.info[id].data.service
    ensures Safe(WithData(s, id, d))
  {
    WithDataCounted(s, id, d, {}, {});
    EvolvesCollisions(s, WithData(s, id, d));
  }

  lemma ReshuffledIds(s: State, t: State)
    requires Reshuffled(s, t)
    ensures NewIds(t.info) == NewIds(s.info) && TriedIds(t.info) == TriedIds(s.info)
  {
    assert forall id :: id in s.info <==> id in t.info;
    assert forall id :: id in s.info ==> t.info[id].fInTried == s.info[id].fInTried;
  }

  lemma ReshuffledSafe(s: State, t: State)
    requires Safe(s) && Reshuffled(s, t)
    ensures Safe(t)
  {
    ReshuffledLinked(s, t);
    ReshuffledIds(s, t);
    EvolvesCollisions(s, t);
  }

  lemma ResolveOneSafe(s: State, id: int, now: int)
    requires Safe(s)
    ensures Safe(ResolveOne(s, id, now))
  {
    ResolveOneCases(s, id, now);
    UnqueuedSafe(s, id);
    if id in s.info {
      GoodSafe(s, s.info[id].data.service, false, now);
      GoodEvolves(s, s.info[id].data.service, false, now);
      UnqueuedSafe(Good(s, s.info[id].data.service, false, now), id);
    }
  }

  lemma GoodSafe(s: State, a: Service, testBeforeEvict: bool, nTime: int)
    requires Safe(s)
    ensures Safe(Good(s, a, testBeforeEvict, nTime))
  {
    GoodConsistent(s, a, testBeforeEvict, nTime);
    GoodCollisions(s, a, testBeforeEvict, nTime);
  }

  lemma AddSafe(s: State, a: Address, source: NetAddr, nTimePenalty: int, now: int, rnd: nat)
    requires Safe(s)
    ensures Safe(Add(s, a, source, nTimePenalty, now, rnd).0)
  {
    AddConsistent(s, a, source, nTimePenalty, now, rnd);
    AddEvolves(s, a, source, nTimePenalty, now, rnd);
    EvolvesCollisions(s, Add(s, a, source, nTimePenalty, now, rnd).0);
  }

  lemma UnqueuedSafe(s: State, id: int)
    requires Safe(s)
    ensures Safe(s.(collisions := s.collisions - {id}))
  {
    EvolvesCollisions(s, s.(collisions := s.collisions - {id}));
  }

  lemma {:induction false} ResolveFromSafe(s: State, todo: set<int>, now: int)
    requires Safe(s)
    ensures Safe(ResolveFrom(s, todo, now))
    decreases |todo|
  {
    if todo != {} {
      ResolveOneSafe(s, Least(todo), now);
      ResolveFromSafe(ResolveOne(s, Least(todo), now), todo - {Least(todo)}, now);
    }
  }

  lemma AmendSafe(s: State, op: Op)
    requires Safe(s) && (op.AttemptOp? || op.ConnectedOp? || op.SetServicesOp?)
    ensures Safe(StepUnchecked(s, op))
  {
    if Known(s, op.service) {
      var id := s.addr[op.service.ip];
      var d := s.info[id].data;
      WithDataSafe(s, id, match op
                          case AttemptOp(_, fCountFailure, now) => Attempted(d, fCountFailure, s.nLastGood, now)
                          case ConnectedOp(_, now) => SeenConnected(d, now)
                          case SetServicesOp(_, nServices) => d.(nServices := nServices));
    }
  }

  /** Every operation keeps the structural conditions of Check_ and the collision set meaningful. */
  lemma StepSafe(s: State, op: Op)
    requires Safe(s)
    ensures Safe(StepUnchecked(s, op))
  {
    hide AddrOk, IdsOk, NewOk, TriedOk, RefsOk, Good, Add, ResolveFrom, GetAddrFrom;
    match op
    case AddOp(a, source, penalty, now, rnd) => AddSafe(s, a, source, penalty, now, rnd);
    case GoodOp(a, testBeforeEvict, now) => GoodSafe(s, a, testBeforeEvict, now);
    case AttemptOp(_, _, _) => AmendSafe(s, op);
    case ConnectedOp(_, _) => AmendSafe(s, op);
    case SetServicesOp(_, _) => AmendSafe(s, op);
    case GetAddrOp(now, draw) =>
      GetAddrReshuffles(s, 0, [], GetAddrLimit(|s.random|), now, draw);
      ReshuffledSafe(s, GetAddr(s, now, draw).0);
    case ResolveCollisionsOp(now) => ResolveFromSafe(s, s.collisions, now);
    case SelectTriedCollisionOp(rnd) =>
      if s.collisions != {} {
        UnqueuedSafe(s, Nth(s.collisions, rnd % |s.collisions|));
      }
  }

  ghost function Run(s: State, ops: seq<Op>): (t: State)
    requires Safe(s)
    ensures Safe(t)
    decreases |ops|
  {
    if ops == [] then s else Run(Step(s, ops[0]), ops[1..])
  }

  /** From a fresh manager, every run keeps every structural condition of Check_. */
  lemma RunsAreSafe(k: Placing, ops: seq<Op>)
    ensures Safe(Fresh(k))
    ensures Safe(Run(Fresh(k), ops))
  {
    FreshSafe(k);
  }

  // ---------- tried slots stay occupied and ids are never reused ----------

  lemma ResolveOneEvolves(s: State, id: int, now: int)
    requires Linked(s)
    ensures Evolves(s, ResolveOne(s, id, now))
  {
    ResolveOneCases(s, id, now);
    if id in s.info {
      GoodEvolves(s, s.info[id].data.service, false, now);
    }
  }

  lemma {:induction false} ResolveFromEvolves(s: State, todo: set<int>, now: int)
    requires Linked(s)
    ensures Evolves(s, ResolveFrom(s, todo, now))
    decreases |todo|
  {
    if todo != {} {
      var t := ResolveOne(s, Least(todo), now);
      ResolveOneEvolves(s, Least(todo), now);
      ResolveFromEvolves(t, todo - {Least(todo)}, now);
      EvolvesTrans(s, t, ResolveFrom(t, todo - {Least(todo)}, now));
    }
  }

  lemma ReshuffledEvolves(s: State, t: State)
    requires Reshuffled(s, t)
    ensures Evolves(s, t)
  {
  }

  lemma AmendEvolves(s: State, op: Op)
    requires Safe(s) && (op.AttemptOp? || op.ConnectedOp? || op.SetServicesOp?)
    ensures Evolves(s, StepUnchecked(s, op))
  {
    hide Evolves, NewOk, TriedOk, RefsOk, RandomOk, WithData;
    assert Evolves(s, s) by { ReshuffledEvolves(s, s); }
    if Known(s, op.service) {
      var id := s.addr[op.service.ip];
      var d := s.info[id].data;
      WithDataEvolves(s, id, match op
                             case AttemptOp(_, fCountFailure, now) => Attempted(d, fCountFailure, s.nLastGood, now)
                             case ConnectedOp(_, now) => SeenConnected(d, now)
                             case SetServicesOp(_, nServices) => d.(nServices := nServices));
    }
  }

  lemma StepEvolves(s: State, op: Op)
    requires Safe(s)
    ensures Evolves(s, StepUnchecked(s, op))
  {
    hide AddrOk, IdsOk, NewOk, TriedOk, RefsOk, Good, Add, ResolveFrom, GetAddrFrom;
    match op
    case AddOp(a, source, penalty, now, rnd) => AddEvolves(s, a, source, penalty, now, rnd);
    case GoodOp(a, testBeforeEvict, now) => GoodEvolves(s, a, testBeforeEvict, now);
    case AttemptOp(_, _, _) => AmendEvolves(s, op);
    case ConnectedOp(_, _) => AmendEvolves(s, op);
    case SetServicesOp(_, _) => AmendEvolves(s, op);
    case GetAddrOp(now, draw) =>
      GetAddrReshuffles(s, 0, [], GetAddrLimit(|s.random|), now, draw);
      ReshuffledEvolves(s, GetAddr(s, now, draw).0);
    case ResolveCollisionsOp(now) => ResolveFromEvolves(s, s.collisions, now);
    case SelectTriedCollisionOp(rnd) =>
  }

  /** Over a whole run, an occupied tried slot stays occupied, and an id keeps its service or disappears. */
  lemma {:induction false} RunEvolves(s: State, ops: seq<Op>)
    requires Safe(s)
    ensures Evolves(s, Run(s, ops))
    decreases |ops|
  {
    if ops != [] {
      StepEvolves(s, ops[0]);
      RunEvolves(Step(s, ops[0]), ops[1..]);
      EvolvesTrans(s, Step(s, ops[0]), Run(Step(s, ops[0]), ops[1..]));
    }
  }

  /** What SelectTriedCollision_ returns is a tried entry, and no entry is created by looking it up. */
  lemma SelectedIsTried(s: State, rnd: nat)
    requires Safe(s)
    ensures var (t, r) := SelectTriedCollision(s, rnd);
      && t == s.(collisions := t.collisions)
      && (r.Some? ==> exists id :: id in s.info && s.info[id] == r.value && r.value.fInTried)
      && (r.None? <==> s.collisions == {} || t.collisions != s.collisions)
  {
    if s.collisions != {} {
      var id := Nth(s.collisions, rnd % |s.collisions|);
      if id in s.info {
        assert Collides(s, id);
        var o := s.triedTable[TriedSlot(s.k, s.info[id].data.service)];
        assert o in s.info && s.info[o].fInTried;
      } else {
        assert id in s.collisions && id !in s.collisions - {id};
      }
    }
  }

  // ---------- the time stamps Check_ looks at ----------

  ghost predicate StampOk(i: Info) {
    0 <= i.data.nLastTry && 0 <= i.data.nLastSuccess && (i.fInTried ==> i.data.nLastSuccess != 0)
  }

  ghost predicate StampsOk(s: State) {
    forall id :: id in s.info ==> StampOk(s.info[id])
  }

  /** The clock readings passed to the operations are positive. */
  predicate ClockOk(op: Op) {
    match op
    case GoodOp(_, _, now) => now > 0
    case AttemptOp(_, _, now) => now > 0
    case ResolveCollisionsOp(now) => now > 0
    case _ => true
  }

  lemma TryStamps(s: State, t: State, id: int)
    requires StampsOk(s) && id in s.info && s.info[id].data.nLastSuccess > 0 && Descends(s, t) && id in t.info
    ensures StampsOk(t.(info := t.info[id := t.info[id].(fInTried := true)]))
  {
    assert forall k :: k in t.info ==> SameData(s.info[k], t.info[k]) && StampOk(t.info[k]);
  }

  lemma MakeTriedStamps(s: State, id: int)
    requires Linked(s) && id in s.info && !s.info[id].fInTried
    requires StampsOk(s) && s.info[id].data.nLastSuccess > 0
    ensures StampsOk(MakeTried(s, id))
  {
    TryStamps(s, Vacate(s, id), id);
  }

  lemma PromoteStamps(s: State, id: int, testBeforeEvict: bool)
    requires Linked(s) && id in s.info && !s.info[id].fInTried
    requires StampsOk(s) && s.info[id].data.nLastSuccess > 0
    ensures StampsOk(Promote(s, id, testBeforeEvict))
  {
    if testBeforeEvict && s.triedTable[TriedSlot(s.k, s.info[id].data.service)] != -1 {
      assert Promote(s, id, testBeforeEvict).info == s.info;
    } else {
      MakeTriedStamps(s, id);
    }
  }

  lemma GoodStamps(s: State, a: Service, testBeforeEvict: bool, nTime: int)
    requires Linked(s) && StampsOk(s) && nTime > 0
    ensures StampsOk(Good(s, a, testBeforeEvict, nTime))
  {
    var s0 := s.(nLastGood := nTime);
    assert Linked(s0);
    if Known(s, a) && !s.info[s.addr[a.ip]].fInTried {
      var id := s.addr[a.ip];
      PromoteStamps(WithData(s0, id, Succeeded(s.info[id].data, nTime)), id, testBeforeEvict);
    }
  }

  lemma ResolveOneStamps(s: State, id: int, now: int)
    requires Linked(s) && StampsOk(s) && now > 0
    ensures StampsOk(ResolveOne(s, id, now))
  {
    ResolveOneCases(s, id, now);
    if id in s.info {
      GoodStamps(s, s.info[id].data.service, false, now);
    }
  }

  lemma {:induction false} ResolveFromStamps(s: State, todo: set<int>, now: int)
    requires Linked(s) && StampsOk(s) && now > 0
    ensures StampsOk(ResolveFrom(s, todo, now))
    decreases |todo|
  {
    if todo != {} {
      ResolveOneStamps(s, Least(todo), now);
      ResolveFromStamps(ResolveOne(s, Least(todo), now), todo - {Least(todo)}, now);
    }
  }

  lemma AddStamps(s: State, a: Address, source: NetAddr, nTimePenalty: int, now: int, rnd: nat)
    requires Linked(s) && StampsOk(s)
    ensures StampsOk(Add(s, a, source, nTimePenalty, now, rnd).0)
  {
    hide RandomOk, NewOk, TriedOk, RefsOk;
    var ip := a.service.ip;
    var penalty := if ip == source then 0 else nTimePenalty;
    if ip in s.addr {
      var t := WithData(s, s.addr[ip], Announced(s.info[s.addr[ip]].data, a, penalty, now));
      if !Declined(t.info[s.addr[ip]], a, rnd) {
        ReferDescends(t, s.addr[ip], source, now);
      }
    } else {
      ReferDescends(Create(s, Penalised(a, penalty), source), s.nIdCount, source, now);
    }
  }

  /** With a positive clock every operation also keeps the conditions of Check_ on time stamps. */
  lemma StepStamps(s: State, op: Op)
    requires Safe(s) && StampsOk(s) && ClockOk(op)
    ensures StampsOk(StepUnchecked(s, op))
  {
    hide AddrOk, IdsOk, NewOk, TriedOk, RefsOk, Good, Add, ResolveFrom, GetAddrFrom;
    match op
    case AddOp(a, source, penalty, now, rnd) => AddStamps(s, a, source, penalty, now, rnd);
    case GoodOp(a, testBeforeEvict, now) => GoodStamps(s, a, testBeforeEvict, now);
    case AttemptOp(a, fCountFailure, now) =>
    case ConnectedOp(a, now) =>
    case SetServicesOp(a, nServices) =>
    case GetAddrOp(now, draw) => GetAddrReshuffles(s, 0, [], GetAddrLimit(|s.random|), now, draw);
    case ResolveCollisionsOp(now) => ResolveFromStamps(s, s.collisions, now);
    case SelectTriedCollisionOp(rnd) =>
  }

  lemma {:induction false} RunStamps(s: State, ops: seq<Op>)
    requires Safe(s) && StampsOk(s) && forall i :: 0 <= i < |ops| ==> ClockOk(ops[i])
    ensures StampsOk(Run(s, ops))
    decreases |ops|
  {
    hide Safe, StampsOk, ClockOk, StepUnchecked;
    if ops != [] {
      StepStamps(s, ops[0]);
      RunStamps(Step(s, ops[0]), ops[1..]);
    }
  }
}
