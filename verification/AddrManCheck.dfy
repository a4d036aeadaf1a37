/** The executable check of the address manager, against the consistency condition. */
module AddrManCheck {
  import opened AddrManState
  import opened AddrManOps
  import opened AddrManRuns
  import opened AddrManSave
  import opened AddrManClass

  // ---------- what the check tests ----------

  /** An index lookup that finds zero for an unknown address. */
  function Lookup(addr: map<NetAddr, int>, ip: NetAddr): int { if ip in addr then addr[ip] else 0 }

  /** The conditions on one entry. */
  predicate EntryOk(info: Infos, addr: map<NetAddr, int>, random: seq<int>, id: int)
    requires id in info
  {
    var i := info[id];
    && (if i.fInTried then i.data.nLastSuccess != 0 && i.nRefCount == 0
        else 1 <= i.nRefCount <= NEW_BUCKETS_PER_ADDRESS)
    && Lookup(addr, i.data.service.ip) == id
    && 0 <= i.nRandomPos < |random| && random[i.nRandomPos] == id
    && i.data.nLastTry >= 0 && i.data.nLastSuccess >= 0
  }

  /** Occupied tried slots are right, and every tried entry is in one. */
  ghost predicate TriedChecked(k: Placing, info: Infos, table: Table) {
    && (forall sl :: sl in table && table[sl] != -1 ==> TriedSlotOk(k, info, sl, table[sl]))
    && forall id :: id in info && info[id].fInTried ==> exists sl :: sl in table && table[sl] == id
  }

  /** Occupied new slots are right, and new entries have as many as they have references. */
  ghost predicate NewChecked(k: Placing, info: Infos, table: Table) {
    && (forall sl :: sl in table && table[sl] != -1 ==> NewSlotOk(k, info, sl, table[sl]))
    && forall id :: id in info && !info[id].fInTried ==> info[id].nRefCount == |RefSlots(table, id)|
  }

  /** All conditions that the check tests. */
  ghost predicate Checked(s: State) {
    && |s.random| == s.nTried + s.nNew
    && (forall id :: id in s.info ==> EntryOk(s.info, s.addr, s.random, id))
    && s.nTried == |TriedIds(s.info)| && s.nNew == |NewIds(s.info)|
    && TriedChecked(s.k, s.info, s.triedTable) && NewChecked(s.k, s.info, s.newTable)
    && s.k.key != 0
  }

  // ---------- the check and the consistency condition ----------

  lemma {:induction false} Injected(info: Infos, ids: set<int>, random: seq<int>)
    requires forall id :: id in ids ==>
      id in info && 0 <= info[id].nRandomPos < |random| && random[info[id].nRandomPos] == id
    ensures |Positions(info, ids)| == |ids|
    decreases |ids|
  {
    NonEmpty(ids);
    if ids != {} {
      var id :| id in ids;
      Injected(info, ids - {id}, random);
      assert Positions(info, ids) == Positions(info, ids - {id}) + {info[id].nRandomPos};
    }
  }

  ghost function Positions(info: Infos, ids: set<int>): set<int>
    requires forall id :: id in ids ==> id in info
  {
    set id | id in ids :: info[id].nRandomPos
  }

  ghost function Range(n: nat): (r: set<int>)
    ensures |r| == n && forall k :: k in r <==> 0 <= k < n
  {
    if n == 0 then {} else Range(n - 1) + {n - 1}
  }

  lemma SameSize(a: set<int>, b: set<int>)
    requires a <= b && |a| == |b|
    ensures a == b
  {
    assert b == a + (b - a);
    assert |b| == |a| + |b - a|;
  }

  /** As many entries as places, each at its own place: every place is taken. */
  lemma AllPlaces(info: Infos, random: seq<int>)
    requires |info.Keys| == |random|
    requires forall id :: id in info ==> 0 <= info[id].nRandomPos < |random| && random[info[id].nRandomPos] == id
    ensures RandomOk(info, random)
  {
    var ids := info.Keys;
    Injected(info, ids, random);
    assert Positions(info, ids) <= Range(|random|);
    SameSize(Positions(info, ids), Range(|random|));
    forall k | 0 <= k < |random| ensures random[k] in info && info[random[k]].nRandomPos == k {
      assert k in Range(|random|);
      var id :| id in ids && info[id].nRandomPos == k;
    }
  }

  lemma EntryCount(info: Infos)
    ensures |info.Keys| == |TriedIds(info)| + |NewIds(info)|
  {
    assert info.Keys == TriedIds(info) + NewIds(info);
    assert TriedIds(info) !! NewIds(info);
  }

  lemma {:induction false} RandomCount(info: Infos, random: seq<int>)
    requires RandomOk(info, random)
    ensures |random| == |info.Keys|
  {
    Injected(info, info.Keys, random);
    assert Positions(info, info.Keys) == Range(|random|) by {
      forall k | k in Range(|random|) ensures k in Positions(info, info.Keys) { assert random[k] in info.Keys; }
    }
  }

  /** Every indexed address is that of its entry. */
  ghost predicate NoStale(info: Infos, addr: map<NetAddr, int>) {
    forall ip :: ip in addr ==> addr[ip] in info && info[addr[ip]].data.service.ip == ip
  }

  /** Entry zero, if there is one, is indexed; the check cannot tell it from an unknown address. */
  predicate ZeroIndexed(info: Infos, addr: map<NetAddr, int>) { 0 in info ==> info[0].data.service.ip in addr }

  /**
   * With tables of the right shape, ids below the counter and no stale addresses, a manager that passes the check is
   * consistent exactly when its entry zero is indexed; and a consistent one passes.
   */
  lemma CheckExact(s: State)
    requires IsTable(s.triedTable, TRIED_BUCKET_COUNT) && IsTable(s.newTable, NEW_BUCKET_COUNT)
    requires NoStale(s.info, s.addr) && IdsOk(s.info, s.nIdCount)
    ensures Checked(s) && ZeroIndexed(s.info, s.addr) <==> Consistent(s) && StampsOk(s) && s.k.key != 0
  {
    if Checked(s) && ZeroIndexed(s.info, s.addr) { CheckedConsistent(s); }
    if Consistent(s) && StampsOk(s) && s.k.key != 0 { ConsistentChecked(s); }
  }

  lemma CheckedAddresses(s: State)
    requires Checked(s) && NoStale(s.info, s.addr) && ZeroIndexed(s.info, s.addr)
    ensures AddrOk(s.info, s.addr)
  {
    forall id | id in s.info ensures s.info[id].data.service.ip in s.addr && s.addr[s.info[id].data.service.ip] == id {
      assert EntryOk(s.info, s.addr, s.random, id);
    }
  }

  lemma CheckedConsistent(s: State)
    requires IsTable(s.triedTable, TRIED_BUCKET_COUNT) && IsTable(s.newTable, NEW_BUCKET_COUNT)
    requires NoStale(s.info, s.addr) && ZeroIndexed(s.info, s.addr) && IdsOk(s.info, s.nIdCount) && Checked(s)
    ensures Consistent(s) && StampsOk(s)
  {
    hide Checked, RandomOk, AddrOk, TriedOk, RefsOk, Counted;
    CheckedRandom(s);
    CheckedAddresses(s);
    CheckedSlots(s);
    CheckedRefs(s);
    CheckedCounts(s);
  }

  lemma CheckedSlots(s: State)
    requires IsTable(s.triedTable, TRIED_BUCKET_COUNT) && IsTable(s.newTable, NEW_BUCKET_COUNT)
    requires IdsOk(s.info, s.nIdCount) && Checked(s)
    ensures NewOk(s.k, s.info, s.newTable) && TriedOk(s.k, s.info, s.triedTable)
  {
    CheckedTried(s.k, s.info, s.triedTable);
  }

  /** The check does not notice when the address of entry zero is missing from the index. */
  lemma ZeroUnnoticed(s: State)
    requires Consistent(s) && StampsOk(s) && s.k.key != 0 && 0 in s.info
    ensures var t := s.(addr := s.addr - {s.info[0].data.service.ip}); Checked(t) && !Consistent(t)
  {
    var t := s.(addr := s.addr - {s.info[0].data.service.ip});
    ConsistentChecked(s);
    forall id | id in t.info ensures EntryOk(t.info, t.addr, t.random, id) {
      assert EntryOk(s.info, s.addr, s.random, id);
    }
    assert !AddrOk(t.info, t.addr);
  }

  lemma CheckedRandom(s: State)
    requires Checked(s)
    ensures RandomOk(s.info, s.random)
  {
    EntryCount(s.info);
    forall id | id in s.info ensures 0 <= s.info[id].nRandomPos < |s.random| && s.random[s.info[id].nRandomPos] == id {
      assert EntryOk(s.info, s.addr, s.random, id);
    }
    AllPlaces(s.info, s.random);
  }

  lemma CheckedCounts(s: State)
    requires Checked(s)
    ensures Counted(s, {}, {}) && StampsOk(s)
  {
    assert NewIds(s.info) - {} == NewIds(s.info);
    forall id | id in s.info
      ensures StampOk(s.info[id]) && s.info[id].nRefCount <= NEW_BUCKETS_PER_ADDRESS
      ensures !s.info[id].fInTried ==> s.info[id].nRefCount >= 1
    {
      assert EntryOk(s.info, s.addr, s.random, id);
    }
  }

  lemma CheckedTried(k: Placing, info: Infos, table: Table)
    requires IsTable(table, TRIED_BUCKET_COUNT) && TriedChecked(k, info, table) && forall id :: id in info ==> id >= 0
    ensures TriedOk(k, info, table)
  {
    forall id | id in info && info[id].fInTried
      ensures TriedSlot(k, info[id].data.service) in table && table[TriedSlot(k, info[id].data.service)] == id
    {
      var sl :| sl in table && table[sl] == id;
    }
  }

  lemma CheckedRefs(s: State)
    requires Checked(s) && IdsOk(s.info, s.nIdCount)
    ensures RefsOk(s.info, s.newTable)
  {
    forall id | id in s.info ensures s.info[id].nRefCount == |RefSlots(s.newTable, id)| {
      assert EntryOk(s.info, s.addr, s.random, id);
      if s.info[id].fInTried { NoTriedRefs(s, id); }
    }
  }

  lemma NoTriedRefs(s: State, id: int)
    requires NewChecked(s.k, s.info, s.newTable) && id in s.info && s.info[id].fInTried && id != -1
    ensures RefSlots(s.newTable, id) == {}
  {
  }

  lemma ConsistentChecked(s: State)
    requires Consistent(s) && StampsOk(s) && s.k.key != 0
    ensures Checked(s)
  {
    EntryCount(s.info);
    RandomCount(s.info, s.random);
    assert NewIds(s.info) - {} == NewIds(s.info);
    forall id | id in s.info ensures EntryOk(s.info, s.addr, s.random, id) {
      assert StampOk(s.info[id]);
      if s.info[id].fInTried { NewTableHasNoTried(s, id); }
    }
  }

  /** With a key and positive clock readings, every run from a fresh manager ends in a state that passes the check. */
  lemma RunsPassCheck(k: Placing, ops: seq<Op>)
    requires k.key != 0 && forall i :: 0 <= i < |ops| ==> ClockOk(ops[i])
    ensures Safe(Fresh(k)) && Checked(Run(Fresh(k), ops))
  {
    hide Checked, Consistent, Fresh;
    RunsAreSafe(k, ops);
    FreshStamps(k);
    RunStamps(Fresh(k), ops);
    FreshKey(k);
    RunKey(Fresh(k), ops);
    ConsistentChecked(Run(Fresh(k), ops));
  }

  lemma FreshStamps(k: Placing)
    ensures StampsOk(Fresh(k))
  {
  }

  lemma FreshKey(k: Placing)
    ensures Fresh(k).k == k
  {
  }

  lemma RunKey(s: State, ops: seq<Op>)
    requires Safe(s)
    ensures Run(s, ops).k == s.k
  {
    RunEvolves(s, ops);
  }

  // ---------- the check ----------

  /** Checks one entry; an unknown address enters the index as zero. */
  method CheckEntry(m: AddrMan, n: int) returns (code: int)
    requires n in m.mapInfo
    modifies m`mapAddr
    ensures forall ip :: Lookup(m.mapAddr, ip) == Lookup(old(m.mapAddr), ip)
    ensures code == 0 <==> EntryOk(m.mapInfo, old(m.mapAddr), m.vRandom, n)
  {
    var info := m.mapInfo[n];
    if info.fInTried {
      if info.data.nLastSuccess == 0 { return -1; }
      if info.nRefCount != 0 { return -2; }
    } else {
      if info.nRefCount < 0 || info.nRefCount > NEW_BUCKETS_PER_ADDRESS { return -3; }
      if info.nRefCount == 0 { return -4; }
    }
    var ip := info.data.service.ip;
    if ip !in m.mapAddr { m.mapAddr := m.mapAddr[ip := 0]; }
    if m.mapAddr[ip] != n { return -5; }
    if info.nRandomPos < 0 || info.nRandomPos >= |m.vRandom| || m.vRandom[info.nRandomPos] != n { return -14; }
    if info.data.nLastTry < 0 { return -6; }
    if info.data.nLastSuccess < 0 { return -8; }
    return 0;
  }

  /** Checks the entries and collects the ids of both tables. */
  method CheckEntries(m: AddrMan) returns (code: int, setTried: set<int>, mapNew: map<int, int>)
    modifies m`mapAddr
    ensures forall ip :: Lookup(m.mapAddr, ip) == Lookup(old(m.mapAddr), ip)
    ensures code == 0 <==> forall id :: id in m.mapInfo ==> EntryOk(m.mapInfo, old(m.mapAddr), m.vRandom, id)
    ensures code == 0 ==> setTried == TriedIds(m.mapInfo) && mapNew.Keys == NewIds(m.mapInfo)
    ensures code == 0 ==> forall id :: id in mapNew ==> mapNew[id] == m.mapInfo[id].nRefCount
  {
    setTried, mapNew := {}, map[];
    var todo := m.mapInfo.Keys;
    ghost var addr := m.mapAddr;
    while todo != {}
      invariant todo <= m.mapInfo.Keys && forall ip :: Lookup(m.mapAddr, ip) == Lookup(addr, ip)
      invariant forall id :: id in m.mapInfo && id !in todo ==> EntryOk(m.mapInfo, addr, m.vRandom, id)
      invariant setTried == TriedIds(m.mapInfo) - todo && mapNew.Keys == NewIds(m.mapInfo) - todo
      invariant forall id :: id in mapNew ==> mapNew[id] == m.mapInfo[id].nRefCount
      decreases |todo|
    {
      LeastExists(todo);
      var n :| n in todo && IsLeast(todo, n);
      SameLookup(m.mapInfo, m.mapAddr, addr, m.vRandom, n);
      code := CheckEntry(m, n);
      if code != 0 { return; }
      if m.mapInfo[n].fInTried {
        setTried := setTried + {n};
      } else {
        mapNew := mapNew[n := m.mapInfo[n].nRefCount];
      }
      todo := todo - {n};
    }
    code := 0;
  }

  lemma SameLookup(info: Infos, addr: map<NetAddr, int>, addr': map<NetAddr, int>, random: seq<int>, id: int)
    requires id in info && forall ip :: Lookup(addr, ip) == Lookup(addr', ip)
    ensures EntryOk(info, addr, random, id) == EntryOk(info, addr', random, id)
  {
  }

  /** The slots before (b, i) are right, and the ids left are those not met in them. */
  ghost predicate TriedUpTo(k: Placing, info: Infos, table: Table, left: set<int>, b: int, i: int) {
    && (forall sl :: sl in table && Before(sl, b, i) && table[sl] != -1 ==> TriedSlotOk(k, info, sl, table[sl]))
    && forall id :: id in left <==>
         id in info && info[id].fInTried && forall sl :: sl in table && Before(sl, b, i) ==> table[sl] != id
  }

  lemma TriedNext(k: Placing, info: Infos, table: Table, left: set<int>, b: int, i: int)
    requires TriedUpTo(k, info, table, left, b, i) && (b, i) in table
    requires table[(b, i)] != -1 ==> TriedSlotOk(k, info, (b, i), table[(b, i)])
    requires forall id :: id in info ==> id != -1
    ensures TriedUpTo(k, info, table, left - {table[(b, i)]}, b, i + 1)
  {
    forall sl: Slot ensures Before(sl, b, i + 1) <==> Before(sl, b, i) || sl == (b, i) {
    }
  }

  lemma TriedRow(k: Placing, info: Infos, table: Table, left: set<int>, b: int)
    requires IsTable(table, TRIED_BUCKET_COUNT) && TriedUpTo(k, info, table, left, b, BUCKET_SIZE)
    ensures TriedUpTo(k, info, table, left, b + 1, 0)
  {
    forall sl | sl in table ensures Before(sl, b, BUCKET_SIZE) == Before(sl, b + 1, 0) { assert (sl.0, sl.1) in table; }
  }

  /** In a right slot, an id is met for the first time. */
  lemma TriedOnce(k: Placing, info: Infos, table: Table, left: set<int>, b: int, i: int)
    requires TriedUpTo(k, info, table, left, b, i) && (b, i) in table && TriedSlotOk(k, info, (b, i), table[(b, i)])
    requires table[(b, i)] != -1
    ensures table[(b, i)] in left
  {
    forall sl | sl in table && Before(sl, b, i) ensures table[sl] != table[(b, i)] {
      assert table[sl] == -1 || TriedSlotOk(k, info, sl, table[sl]);
    }
  }

  lemma AllBefore(table: Table, buckets: nat)
    requires IsTable(table, buckets)
    ensures forall sl :: sl in table ==> Before(sl, buckets, 0)
  {
    forall sl | sl in table ensures Before(sl, buckets, 0) { assert InGrid((sl.0, sl.1), buckets); }
  }

  /** Checks the tried table; the rest of setTried are the ids that are not in it. */
  method CheckTried(m: AddrMan, tried: set<int>) returns (code: int, setTried: set<int>)
    requires m.Shaped() && IdsOk(m.mapInfo, m.nIdCount) && tried == TriedIds(m.mapInfo)
    ensures code == 0 && setTried == {} <==> TriedChecked(Placing(m.net, m.nKey), m.mapInfo, m.triedTable)
  {
    hide TriedBucket, BucketPosition;
    setTried := tried;
    ghost var k, table := Placing(m.net, m.nKey), m.triedTable;
    NoneBefore(table, TRIED_BUCKET_COUNT);
    for n := 0 to TRIED_BUCKET_COUNT
      invariant TriedUpTo(k, m.mapInfo, table, setTried, n, 0)
    {
      for i := 0 to BUCKET_SIZE
        invariant TriedUpTo(k, m.mapInfo, table, setTried, n, i)
      {
        assert table[(n, i)] == m.vvTried[n, i];
        var id := m.vvTried[n, i];
        if id != -1 {
          if id in m.mapInfo && TriedSlot(k, m.mapInfo[id].data.service) == (n, i) && m.mapInfo[id].fInTried {
            TriedOnce(k, m.mapInfo, table, setTried, n, i);
          }
          if id !in setTried { return -11, setTried; }
          if TriedBucket(m.net, m.nKey, m.mapInfo[id].data.service) != n { return -17, setTried; }
          if BucketPosition(m.net, m.nKey, false, n, m.mapInfo[id].data.service) != i { return -18, setTried; }
        }
        TriedNext(k, m.mapInfo, table, setTried, n, i);
        if id != -1 { setTried := setTried - {id}; }
        assert -1 !in setTried;
      }
      TriedRow(k, m.mapInfo, table, setTried, n);
    }
    code := 0;
    TriedDone(k, m.mapInfo, table, setTried);
  }

  lemma TriedDone(k: Placing, info: Infos, table: Table, left: set<int>)
    requires IsTable(table, TRIED_BUCKET_COUNT) && TriedUpTo(k, info, table, left, TRIED_BUCKET_COUNT, 0)
    ensures left == {} <==> TriedChecked(k, info, table)
  {
    AllBefore(table, TRIED_BUCKET_COUNT);
    NonEmpty(left);
  }

  // ---------- the new table ----------

  /** The references to an id in the slots before (b, i). */
  ghost function Seen(table: Table, id: int, b: int, i: int): set<Slot> {
    set sl | sl in table && table[sl] == id && Before(sl, b, i)
  }

  /** The slots before (b, i) are right, and `left` holds the references that are still to be met. */
  ghost predicate NewUpTo(k: Placing, info: Infos, table: Table, left: map<int, int>, b: int, i: int) {
    && (forall sl :: sl in table && Before(sl, b, i) && table[sl] != -1 ==> NewSlotOk(k, info, sl, table[sl]))
    && (forall id :: id in left ==> id in info && !info[id].fInTried && left[id] >= 1)
    && forall id :: id in info && !info[id].fInTried ==>
         info[id].nRefCount == |Seen(table, id, b, i)| + (if id in left then left[id] else 0)
  }

  lemma SeenNext(table: Table, b: int, i: int)
    requires (b, i) in table
    ensures |Seen(table, table[(b, i)], b, i + 1)| == |Seen(table, table[(b, i)], b, i)| + 1
    ensures forall id :: id != table[(b, i)] ==> Seen(table, id, b, i + 1) == Seen(table, id, b, i)
  {
    assert Seen(table, table[(b, i)], b, i + 1) == Seen(table, table[(b, i)], b, i) + {(b, i)};
  }

  /** Takes one reference off. */
  function TakeOff(left: map<int, int>, id: int): map<int, int>
    requires id in left
  {
    if left[id] == 1 then left - {id} else left[id := left[id] - 1]
  }

  lemma NewNext(k: Placing, info: Infos, table: Table, left: map<int, int>, b: int, i: int)
    requires NewUpTo(k, info, table, left, b, i) && (b, i) in table && -1 !in info
    requires table[(b, i)] != -1 ==> NewSlotOk(k, info, (b, i), table[(b, i)]) && table[(b, i)] in left
    ensures NewUpTo(k, info, table, if table[(b, i)] == -1 then left else TakeOff(left, table[(b, i)]), b, i + 1)
  {
    SeenNext(table, b, i);
    forall sl: Slot ensures Before(sl, b, i + 1) <==> Before(sl, b, i) || sl == (b, i) {
    }
  }

  lemma NewRow(k: Placing, info: Infos, table: Table, left: map<int, int>, b: int)
    requires IsTable(table, NEW_BUCKET_COUNT) && NewUpTo(k, info, table, left, b, BUCKET_SIZE)
    ensures NewUpTo(k, info, table, left, b + 1, 0)
  {
    forall sl | sl in table ensures Before(sl, b, BUCKET_SIZE) == Before(sl, b + 1, 0) { assert (sl.0, sl.1) in table; }
    forall id ensures Seen(table, id, b, BUCKET_SIZE) == Seen(table, id, b + 1, 0) {
    }
  }

  lemma SeenPart(table: Table, id: int, b: int, i: int)
    requires (b, i) in table && table[(b, i)] == id
    ensures |Seen(table, id, b, i)| < |RefSlots(table, id)|
  {
    assert (b, i) in RefSlots(table, id);
    Fewer(Seen(table, id, b, i), RefSlots(table, id), (b, i));
  }

  lemma NewStart(k: Placing, info: Infos, table: Table, counts: map<int, int>)
    requires IsTable(table, NEW_BUCKET_COUNT) && counts.Keys == NewIds(info)
    requires forall id :: id in counts ==> counts[id] == info[id].nRefCount >= 1
    ensures NewUpTo(k, info, table, counts, 0, 0)
  {
    NoneBefore(table, NEW_BUCKET_COUNT);
    assert forall id :: Seen(table, id, 0, 0) == {};
  }

  /** An id without references left cannot be in one more slot. */
  lemma Unlisted(k: Placing, info: Infos, table: Table, left: map<int, int>, b: int, i: int)
    requires NewUpTo(k, info, table, left, b, i)
    requires (b, i) in table && table[(b, i)] != -1 && table[(b, i)] !in left
    ensures !NewChecked(k, info, table)
  {
    SeenPart(table, table[(b, i)], b, i);
  }

  /** An id with references left can be in the slot if its position is right. */
  lemma StillListed(k: Placing, info: Infos, table: Table, left: map<int, int>, b: int, i: int)
    requires NewUpTo(k, info, table, left, b, i)
    requires 0 <= b && (b, i) in table && table[(b, i)] != -1 && table[(b, i)] in left
    ensures var id := table[(b, i)];
      && id in info
      && if BucketPosition(k.net, k.key, true, b, info[id].data.service) == i then NewSlotOk(k, info, (b, i), id)
         else !NewChecked(k, info, table)
  {
    hide BucketPosition;
  }

  /** Checks the new table; the rest of mapNew are references that are not in it. */
  method CheckNew(m: AddrMan, counts: map<int, int>) returns (code: int, mapNew: map<int, int>)
    requires m.Shaped() && IdsOk(m.mapInfo, m.nIdCount) && counts.Keys == NewIds(m.mapInfo)
    requires forall id :: id in counts ==> counts[id] == m.mapInfo[id].nRefCount >= 1
    ensures code == 0 && mapNew == map[] <==> NewChecked(Placing(m.net, m.nKey), m.mapInfo, m.newTable)
  {
    hide NewUpTo, NewChecked, NewSlotOk, BucketPosition;
    mapNew := counts;
    ghost var k, table := Placing(m.net, m.nKey), m.newTable;
    NewStart(k, m.mapInfo, table, counts);
    for n := 0 to NEW_BUCKET_COUNT
      invariant NewUpTo(k, m.mapInfo, table, mapNew, n, 0)
    {
      for i := 0 to BUCKET_SIZE
        invariant NewUpTo(k, m.mapInfo, table, mapNew, n, i)
      {
        assert table[(n, i)] == m.vvNew[n, i];
        var id := m.vvNew[n, i];
        if id != -1 {
          if id !in mapNew {
            Unlisted(k, m.mapInfo, table, mapNew, n, i);
            return -12, mapNew;
          }
          StillListed(k, m.mapInfo, table, mapNew, n, i);
          if BucketPosition(m.net, m.nKey, true, n, m.mapInfo[id].data.service) != i { return -19, mapNew; }
        }
        NewNext(k, m.mapInfo, table, mapNew, n, i);
        if id != -1 {
          ghost var left := mapNew;
          mapNew := mapNew[id := mapNew[id] - 1];
          if mapNew[id] == 0 { mapNew := mapNew - {id}; }
          assert mapNew == TakeOff(left, id);
        }
      }
      NewRow(k, m.mapInfo, table, mapNew, n);
    }
    code := 0;
    NewDone(k, m.mapInfo, table, mapNew);
  }

  lemma NewDone(k: Placing, info: Infos, table: Table, left: map<int, int>)
    requires IsTable(table, NEW_BUCKET_COUNT) && NewUpTo(k, info, table, left, NEW_BUCKET_COUNT, 0)
    ensures left == map[] <==> NewChecked(k, info, table)
  {
    AllBefore(table, NEW_BUCKET_COUNT);
    forall id ensures Seen(table, id, NEW_BUCKET_COUNT, 0) == RefSlots(table, id) {
    }
    NonEmpty(left.Keys);
  }

  /** The check: zero exactly when all its conditions hold. */
  method Check(m: AddrMan) returns (code: int)
    requires m.Shaped() && IdsOk(m.mapInfo, m.nIdCount)
    modifies m`mapAddr
    ensures code == 0 <==> Checked(old(m.Snap()))
    ensures forall ip :: Lookup(m.mapAddr, ip) == Lookup(old(m.mapAddr), ip)
  {
    if |m.vRandom| != m.nTried + m.nNew { return -7; }
    var setTried, mapNew;
    code, setTried, mapNew := CheckEntries(m);
    if code != 0 { return; }
    if |setTried| != m.nTried { return -9; }
    if |mapNew| != m.nNew { return -10; }
    assert |mapNew| == |mapNew.Keys|;
    var triedCode, newCode;
    triedCode, setTried := CheckTried(m, setTried);
    if triedCode != 0 { return triedCode; }
    assert forall id :: id in mapNew ==> EntryOk(m.mapInfo, old(m.mapAddr), m.vRandom, id);
    newCode, mapNew := CheckNew(m, mapNew);
    if newCode != 0 { return newCode; }
    if setTried != {} { return -13; }
    if mapNew != map[] { return -15; }
    if m.nKey == 0 { return -16; }
    return 0;
  }
}
