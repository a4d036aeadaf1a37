/** The state of the address manager as a value, and the meaning of its operations on that value. */
module AddrManState {

  const TRIED_BUCKET_COUNT := 256
  const NEW_BUCKET_COUNT := 1024
  const BUCKET_SIZE := 64
  const TRIED_BUCKETS_PER_GROUP := 8
  const NEW_BUCKETS_PER_SOURCE_GROUP := 64
  const NEW_BUCKETS_PER_ADDRESS := 8
  const HORIZON_DAYS := 30
  const RETRIES := 3
  const MAX_FAILURES := 10
  const MIN_FAIL_DAYS := 7
  const REPLACEMENT_HOURS := 4
  const GETADDR_MAX_PCT := 23
  const GETADDR_MAX := 2500
  const SET_TRIED_COLLISION_SIZE := 10

  type Key = nat
  type NetAddr = nat

  /** Service bits, as the set of the bits that are set. */
  type ServiceFlags = set<nat>

  datatype Service = Service(ip: NetAddr, port: nat)

  /** An announced address: a service with the time it was last seen and its service bits. */
  datatype Address = Address(service: Service, nServices: ServiceFlags, nTime: int)

  /** What the bucket functions feed to the hash; one constructor for each distinct use. */
  datatype HashInput =
    | TriedKeyHash(key: Key, addr: Service)
    | TriedGroupHash(key: Key, group: nat, choice: nat)
    | NewGroupHash(key: Key, group: nat, sourceGroup: nat)
    | NewSourceHash(key: Key, sourceGroup: nat, choice: nat)
    | PositionHash(key: Key, fNew: bool, bucket: nat, addr: Service)

  /** Everything the manager takes from other code: the 64-bit hash, and the classification of addresses. */
  datatype Net = Net(hash: HashInput -> nat, group: NetAddr -> nat, routable: NetAddr -> bool, valid: NetAddr -> bool)

  /** What is known about an address. */
  datatype Data = Data(
    service: Service, nServices: ServiceFlags, nTime: int, source: NetAddr,
    nLastTry: int, nLastCountAttempt: int, nLastSuccess: int, nAttempts: int)

  /** An entry: what is known about its address, and where the indexes have it. */
  datatype Info = Info(data: Data, nRefCount: int, fInTried: bool, nRandomPos: int)

  type Slot = (int, int)
  type Table = map<Slot, int>

  datatype State = State(
    k: Placing, nIdCount: int,
    info: map<int, Info>, addr: map<NetAddr, int>, random: seq<int>,
    nTried: int, triedTable: Table, nNew: int, newTable: Table,
    nLastGood: int, collisions: set<int>)

  // ---------- bucket functions ----------

  function TriedBucket(net: Net, key: Key, addr: Service): (b: int)
    ensures 0 <= b < TRIED_BUCKET_COUNT
  {
    var hash1 := net.hash(TriedKeyHash(key, addr));
    var hash2 := net.hash(TriedGroupHash(key, net.group(addr.ip), hash1 % TRIED_BUCKETS_PER_GROUP));
    hash2 % TRIED_BUCKET_COUNT
  }

  function NewBucket(net: Net, key: Key, addr: Service, source: NetAddr): (b: int)
    ensures 0 <= b < NEW_BUCKET_COUNT
  {
    var hash1 := net.hash(NewGroupHash(key, net.group(addr.ip), net.group(source)));
    var hash2 := net.hash(NewSourceHash(key, net.group(source), hash1 % NEW_BUCKETS_PER_SOURCE_GROUP));
    hash2 % NEW_BUCKET_COUNT
  }

  function BucketPosition(net: Net, key: Key, fNew: bool, bucket: nat, addr: Service): (p: int)
    ensures 0 <= p < BUCKET_SIZE
  {
    net.hash(PositionHash(key, fNew, bucket, addr)) % BUCKET_SIZE
  }

  /** The secret that fixes the place of every service. */
  datatype Placing = Placing(net: Net, key: Key)

  /** The only place in the tried table where this service may be stored. */
  function TriedSlot(k: Placing, addr: Service): Slot {
    var b := TriedBucket(k.net, k.key, addr);
    (b, BucketPosition(k.net, k.key, false, b, addr))
  }

  /** The place for this service in a given bucket of the new table. */
  function NewSlotIn(k: Placing, addr: Service, bucket: int): Slot
    requires bucket >= 0
  {
    (bucket, BucketPosition(k.net, k.key, true, bucket, addr))
  }

  /** The place in the new table chosen for this service when a given source announces it. */
  function NewSlot(k: Placing, addr: Service, source: NetAddr): Slot {
    NewSlotIn(k, addr, NewBucket(k.net, k.key, addr, source))
  }

  predicate IsTerrible(i: Data, now: int) {
    if i.nLastTry != 0 && i.nLastTry >= now - 60 then false
    else if i.nTime > now + 10 * 60 then true
    else if i.nTime == 0 || now - i.nTime > HORIZON_DAYS * 24 * 60 * 60 then true
    else if i.nLastSuccess == 0 && i.nAttempts >= RETRIES then true
    else now - i.nLastSuccess > MIN_FAIL_DAYS * 24 * 60 * 60 && i.nAttempts >= MAX_FAILURES
  }

  // ---------- the consistency condition ----------

  type Infos = map<int, Info>

  predicate InGrid(sl: Slot, buckets: nat) {
    0 <= sl.0 < buckets && 0 <= sl.1 < BUCKET_SIZE
  }

  /** A table has exactly the slots of its grid. */
  ghost predicate IsTable(t: Table, buckets: nat) {
    forall b, p :: (b, p) in t <==> InGrid((b, p), buckets)
  }

  /** vRandom lists every id exactly once, and nRandomPos is its inverse. */
  ghost predicate RandomOk(info: Infos, random: seq<int>) {
    && (forall id :: id in info ==> 0 <= info[id].nRandomPos < |random| && random[info[id].nRandomPos] == id)
    && (forall k :: 0 <= k < |random| ==> random[k] in info && info[random[k]].nRandomPos == k)
  }

  /** mapAddr is the inverse of mapInfo. */
  ghost predicate AddrOk(info: Infos, addr: map<NetAddr, int>) {
    && (forall id :: id in info ==> info[id].data.service.ip in addr && addr[info[id].data.service.ip] == id)
    && (forall ip :: ip in addr ==> addr[ip] in info && info[addr[ip]].data.service.ip == ip)
  }

  ghost predicate IdsOk(info: Infos, nIdCount: int) {
    0 <= nIdCount && forall id :: id in info ==> 0 <= id < nIdCount
  }

  /** An occupied new slot holds an entry that is not tried, at the place its hash determines. */
  ghost predicate NewSlotOk(k: Placing, info: Infos, sl: Slot, id: int) {
    id in info && !info[id].fInTried && 0 <= sl.0 && sl == NewSlotIn(k, info[id].data.service, sl.0)
  }

  ghost predicate NewOk(k: Placing, info: Infos, newTable: Table) {
    && IsTable(newTable, NEW_BUCKET_COUNT)
    && forall sl :: sl in newTable && newTable[sl] != -1 ==> NewSlotOk(k, info, sl, newTable[sl])
  }

  /** An occupied tried slot holds a tried entry at the place its hash determines. */
  ghost predicate TriedSlotOk(k: Placing, info: Infos, sl: Slot, id: int) {
    id in info && info[id].fInTried && sl == TriedSlot(k, info[id].data.service)
  }

  /** Occupied slots are right, and every tried entry has its slot. */
  ghost predicate TriedOk(k: Placing, info: Infos, triedTable: Table) {
    && IsTable(triedTable, TRIED_BUCKET_COUNT)
    && (forall sl :: sl in triedTable && triedTable[sl] != -1 ==> TriedSlotOk(k, info, sl, triedTable[sl]))
    && (forall id :: id in info && info[id].fInTried ==>
          TriedSlot(k, info[id].data.service) in triedTable && triedTable[TriedSlot(k, info[id].data.service)] == id)
  }

  /** The slots of the new table that hold an id. */
  function RefSlots(newTable: Table, id: int): set<Slot> {
    set sl | sl in newTable && newTable[sl] == id
  }

  ghost predicate RefsOk(info: Infos, newTable: Table) {
    forall id :: id in info ==> info[id].nRefCount == |RefSlots(newTable, id)|
  }

  /** All structural links; the counters and the limits on reference counts are separate. */
  ghost predicate Linked(s: State) {
    && RandomOk(s.info, s.random)
    && AddrOk(s.info, s.addr)
    && IdsOk(s.info, s.nIdCount)
    && NewOk(s.k, s.info, s.newTable)
    && TriedOk(s.k, s.info, s.triedTable)
    && RefsOk(s.info, s.newTable)
  }

  function NewIds(info: Infos): set<int> {
    set id | id in info && !info[id].fInTried
  }

  function TriedIds(info: Infos): set<int> {
    set id | id in info && info[id].fInTried
  }

  /**
   * The counters are exact, except that the entries in `limbo` (being moved between tables) are not
   * counted as new; entries in `loose` are allowed to have no reference yet.
   */
  ghost predicate Counted(s: State, limbo: set<int>, loose: set<int>) {
    && limbo <= loose
    && limbo <= NewIds(s.info)
    && (forall id :: id in limbo ==> id in s.info && s.info[id].nRefCount == 0)
    && s.nNew == |NewIds(s.info) - limbo|
    && s.nTried == |TriedIds(s.info)|
    && (forall id :: id in s.info ==> s.info[id].nRefCount <= NEW_BUCKETS_PER_ADDRESS)
    && (forall id :: id in s.info && !s.info[id].fInTried && id !in loose ==> s.info[id].nRefCount >= 1)
  }

  /** The structural conditions of Check_. */
  ghost predicate Consistent(s: State) {
    Linked(s) && Counted(s, {}, {})
  }
}
