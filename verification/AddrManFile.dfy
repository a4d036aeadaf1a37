/** Serialization of the address manager, step by step. */
module AddrManFile {
  import opened Basics
  import opened AddrManState
  import opened AddrManOps
  import opened AddrManRuns
  import opened AddrManLoad
  import opened AddrManSave
  import opened AddrManClass
  import opened BitOps

  // ---------- loading ----------

  /** Reads entry n. */
  method ReadEntry(m: AddrMan, n: nat, d: Data)
    modifies m`mapInfo, m`mapAddr, m`vRandom
    ensures m.Snap() == Restored(old(m.Snap()).(nIdCount := n), d).(nIdCount := m.nIdCount, nNew := m.nNew)
  {
    m.mapInfo := m.mapInfo[n := Info(Persisted(d), 0, false, -1)];
    m.mapAddr := m.mapAddr[d.service.ip := n];
    m.mapInfo := m.mapInfo[n := m.mapInfo[n].(nRandomPos := |m.vRandom|)];
    m.vRandom := m.vRandom + [n];
    assert m.mapInfo == old(m.mapInfo)[n := m.mapInfo[n]];
  }

  /** Reads entry n of the new table. */
  method ReadNew(m: AddrMan, n: nat, d: Data, usable: bool)
    requires m.Shaped()
    modifies m, m.vvNew
    ensures m.Shaped()
    ensures m.Snap()
         == RestoredNew(old(m.Snap()).(nIdCount := n), d, usable).(nIdCount := old(m.nIdCount), nNew := old(m.nNew))
  {
    ReadEntry(m, n, d);
    if !usable {
      var b := NewBucket(m.net, m.nKey, d.service, d.source);
      var p := BucketPosition(m.net, m.nKey, true, b, d.service);
      if m.vvNew[b, p] == -1 {
        m.SetNew(b, p, n);
        m.mapInfo := m.mapInfo[n := m.mapInfo[n].(nRefCount := m.mapInfo[n].nRefCount + 1)];
      }
    }
  }

  /** Reads an entry of the tried table; it is lost when its slot is taken. */
  method ReadTried(m: AddrMan, d: Data) returns (lost: bool)
    requires m.Shaped()
    modifies m, m.vvTried
    ensures m.Shaped() && m.Snap() == RestoredTried(old(m.Snap()), d).(nTried := old(m.nTried))
    ensures lost == !Free(old(m.triedTable), TriedSlot(Placing(m.net, old(m.nKey)), d.service))
  {
    hide AddrManLoad.Persisted;
    var b := TriedBucket(m.net, m.nKey, d.service);
    var p := BucketPosition(m.net, m.nKey, false, b, d.service);
    lost := m.vvTried[b, p] != -1;
    if !lost {
      m.mapInfo := m.mapInfo[m.nIdCount := Info(Persisted(d), 0, true, |m.vRandom|)];
      m.mapAddr := m.mapAddr[d.service.ip := m.nIdCount];
      m.vRandom := m.vRandom + [m.nIdCount];
      m.SetTried(b, p, m.nIdCount);
      m.nIdCount := m.nIdCount + 1;
    }
  }

  /** Takes an index from a bucket list. */
  method ReadIndex(m: AddrMan, bucket: nat, index: int, usable: bool)
    requires m.Shaped() && forall i :: 0 <= i < m.nNew ==> i in m.mapInfo
    requires usable ==> bucket < NEW_BUCKET_COUNT
    modifies m, m.vvNew
    ensures m.Shaped()
    ensures m.Snap() == if usable then Bucketed(old(m.Snap()), old(m.nNew), bucket, index) else old(m.Snap())
  {
    if 0 <= index < m.nNew {
      var p := BucketPosition(m.net, m.nKey, true, bucket, m.mapInfo[index].data.service);
      if usable && m.vvNew[bucket, p] == -1 && m.mapInfo[index].nRefCount < NEW_BUCKETS_PER_ADDRESS {
        m.mapInfo := m.mapInfo[index := m.mapInfo[index].(nRefCount := m.mapInfo[index].nRefCount + 1)];
        m.SetNew(bucket, p, index);
      }
    }
  }

  /** Deletes the entries that nothing refers to. */
  method PruneEntries(m: AddrMan)
    requires m.Shaped() && RandomOk(m.mapInfo, m.vRandom)
    modifies m
    ensures m.Shaped() && m.Snap() == Prune(old(m.Snap()), old(m.mapInfo).Keys)
  {
    var todo := m.mapInfo.Keys;
    ghost var end := Prune(m.Snap(), todo);
    while todo != {}
      invariant m.Shaped() && RandomOk(m.mapInfo, m.vRandom) && todo <= m.mapInfo.Keys
      invariant Prune(m.Snap(), todo) == end
      decreases |todo|
    {
      LeastExists(todo);
      var id :| id in todo && IsLeast(todo, id);
      assert id == Least(todo);
      todo := todo - {id};
      if !m.mapInfo[id].fInTried && m.mapInfo[id].nRefCount == 0 {
        DeleteFrame(m.Snap(), id);
        DeletedRandom(m.Snap(), id);
        m.Delete(id);
      }
    }
  }

  /** Restoring an entry does not look at the counts. */
  lemma RestoredNewCounts(s: State, d: Data, usable: bool, nNew: int, nTried: int)
    ensures RestoredNew(s.(nNew := nNew, nTried := nTried), d, usable)
         == RestoredNew(s, d, usable).(nNew := nNew + 1, nTried := nTried)
  {
  }

  lemma RestoredTriedCounts(s: State, d: Data, nTried: int)
    ensures var t := RestoredTried(s, d);
      && RestoredTried(s.(nTried := nTried), d) == t.(nTried := nTried + t.nTried - s.nTried)
      && t.nTried == s.nTried + if Free(s.triedTable, TriedSlot(s.k, d.service)) then 1 else 0
  {
  }

  lemma {:induction false} RestoreNewMore(s: State, ds: seq<Data>, usable: bool, n: nat)
    requires n < |ds|
    ensures RestoreNew(s, ds[..n + 1], usable) == RestoredNew(RestoreNew(s, ds[..n], usable), ds[n], usable)
    decreases n
  {
    if n > 0 {
      assert ds[..n + 1][1..] == ds[1..][..n] && ds[..n][1..] == ds[1..][..n - 1];
      RestoreNewMore(RestoredNew(s, ds[0], usable), ds[1..], usable, n - 1);
    } else {
      assert ds[..1][1..] == [] && ds[..0] == [];
    }
  }

  lemma {:induction false} RestoreTriedMore(s: State, ds: seq<Data>, n: nat)
    requires n < |ds|
    ensures RestoreTried(s, ds[..n + 1]) == RestoredTried(RestoreTried(s, ds[..n]), ds[n])
    decreases n
  {
    if n > 0 {
      assert ds[..n + 1][1..] == ds[1..][..n] && ds[..n][1..] == ds[1..][..n - 1];
      RestoreTriedMore(RestoredTried(s, ds[0]), ds[1..], n - 1);
    } else {
      assert ds[..1][1..] == [] && ds[..0] == [];
    }
  }

  lemma {:induction false} RestoreNewIds(s: State, ds: seq<Data>, usable: bool)
    ensures var t := RestoreNew(s, ds, usable);
      && t.nIdCount == s.nIdCount + |ds| && t.nNew == s.nNew + |ds| && t.nTried == s.nTried
      && t.triedTable == s.triedTable
      && t.k == s.k && s.info.Keys <= t.info.Keys
      && forall id :: s.nIdCount <= id < t.nIdCount ==> id in t.info
    decreases |ds|
  {
    if ds != [] { RestoreNewIds(RestoredNew(s, ds[0], usable), ds[1..], usable); }
  }

  /** Reads the entries of the new table. */
  method ReadNewEntries(m: AddrMan, ds: seq<Data>, usable: bool, ghost blank: State)
    requires m.Shaped() && blank.nIdCount == 0 && blank == m.Snap().(nNew := 0, nTried := 0)
    modifies m, m.vvNew
    ensures m.Shaped()
    ensures m.Snap()
         == RestoreNew(blank, ds, usable).(nIdCount := old(m.nNew), nNew := old(m.nNew), nTried := old(m.nTried))
  {
    hide RestoredNew, AddrMan.Shaped;
    ghost var nNew, nTried := m.nNew, m.nTried;
    assert ds[..0] == [];
    for n := 0 to |ds|
      invariant m.Shaped()
      invariant m.Snap() == RestoreNew(blank, ds[..n], usable).(nIdCount := 0, nNew := nNew, nTried := nTried)
    {
      RestoreNewMore(blank, ds, usable, n);
      RestoreNewIds(blank, ds[..n], usable);
      RestoredNewCounts(RestoreNew(blank, ds[..n], usable), ds[n], usable, nNew, nTried);
      ReadNew(m, n, ds[n], usable);
    }
    assert ds[..|ds|] == ds;
    RestoreNewIds(blank, ds, usable);
    m.nIdCount := m.nNew;
  }

  /** Reads the entries of the tried table. */
  method ReadTriedEntries(m: AddrMan, ds: seq<Data>, ghost s: State)
    requires m.Shaped() && s.nTried == 0 && m.Snap() == s.(nTried := m.nTried)
    modifies m, m.vvTried
    ensures m.Shaped()
    ensures m.Snap() == RestoreTried(s, ds).(nTried := RestoreTried(s, ds).nTried + old(m.nTried) - |ds|)
  {
    hide RestoredTried, AddrMan.Shaped;
    ghost var nTried := m.nTried;
    var nLost := 0;
    assert ds[..0] == [];
    for n := 0 to |ds|
      invariant m.Shaped() && 0 <= nLost <= n
      invariant m.Snap() == RestoreTried(s, ds[..n]).(nTried := nTried)
      invariant RestoreTried(s, ds[..n]).nTried == n - nLost
    {
      RestoreTriedMore(s, ds, n);
      RestoredTriedCounts(RestoreTried(s, ds[..n]), ds[n], nTried);
      var lost := ReadTried(m, ds[n]);
      if lost { nLost := nLost + 1; }
    }
    assert ds[..|ds|] == ds;
    m.nTried := m.nTried - nLost;
  }

  lemma {:induction false} FillMore(s: State, nNew: int, bucket: nat, indexes: seq<int>, n: nat)
    requires n < |indexes|
    ensures FillBucket(s, nNew, bucket, indexes[..n + 1])
         == Bucketed(FillBucket(s, nNew, bucket, indexes[..n]), nNew, bucket, indexes[n])
    decreases n
  {
    if n > 0 {
      assert indexes[..n + 1][1..] == indexes[1..][..n] && indexes[..n][1..] == indexes[1..][..n - 1];
      FillMore(Bucketed(s, nNew, bucket, indexes[0]), nNew, bucket, indexes[1..], n - 1);
    } else {
      assert indexes[..1][1..] == [] && indexes[..0] == [];
    }
  }

  lemma {:induction false} FillKeeps(s: State, nNew: int, bucket: nat, indexes: seq<int>)
    ensures var t := FillBucket(s, nNew, bucket, indexes); t.info.Keys == s.info.Keys && t.nNew == s.nNew
    decreases |indexes|
  {
    if indexes != [] { FillKeeps(Bucketed(s, nNew, bucket, indexes[0]), nNew, bucket, indexes[1..]); }
  }

  /** Reads the list of one bucket. */
  method ReadBucket(m: AddrMan, bucket: nat, indexes: seq<int>, usable: bool)
    requires m.Shaped() && forall i :: 0 <= i < m.nNew ==> i in m.mapInfo
    requires usable ==> bucket < NEW_BUCKET_COUNT
    modifies m, m.vvNew
    ensures m.Shaped()
    ensures m.Snap() == if usable then FillBucket(old(m.Snap()), old(m.nNew), bucket, indexes) else old(m.Snap())
  {
    ghost var s, nNew := m.Snap(), m.nNew;
    assert indexes[..0] == [];
    for n := 0 to |indexes|
      invariant m.Shaped() && m.Snap() == if usable then FillBucket(s, nNew, bucket, indexes[..n]) else s
    {
      FillMore(s, nNew, bucket, indexes, n);
      FillKeeps(s, nNew, bucket, indexes[..n]);
      ReadIndex(m, bucket, indexes[n], usable);
    }
    assert indexes[..|indexes|] == indexes;
  }

  lemma {:induction false} FillBucketsMore(s: State, nNew: int, bucket: nat, buckets: seq<seq<int>>, n: nat)
    requires n < |buckets|
    ensures FillBuckets(s, nNew, bucket, buckets[..n + 1])
         == FillBucket(FillBuckets(s, nNew, bucket, buckets[..n]), nNew, bucket + n, buckets[n])
    decreases n
  {
    if n > 0 {
      assert buckets[..n + 1][1..] == buckets[1..][..n] && buckets[..n][1..] == buckets[1..][..n - 1];
      FillBucketsMore(FillBucket(s, nNew, bucket, buckets[0]), nNew, bucket + 1, buckets[1..], n - 1);
    } else {
      assert buckets[..1][1..] == [] && buckets[..0] == [];
    }
  }

  lemma {:induction false} FillBucketsKeep(s: State, nNew: int, bucket: nat, buckets: seq<seq<int>>)
    ensures var t := FillBuckets(s, nNew, bucket, buckets); t.info.Keys == s.info.Keys && t.nNew == s.nNew
    decreases |buckets|
  {
    if buckets != [] {
      FillKeeps(s, nNew, bucket, buckets[0]);
      FillBucketsKeep(FillBucket(s, nNew, bucket, buckets[0]), nNew, bucket + 1, buckets[1..]);
    }
  }

  /** Reads the bucket lists. */
  method ReadBuckets(m: AddrMan, buckets: seq<seq<int>>, usable: bool)
    requires m.Shaped() && forall i :: 0 <= i < m.nNew ==> i in m.mapInfo
    requires usable ==> |buckets| <= NEW_BUCKET_COUNT
    modifies m, m.vvNew
    ensures m.Shaped()
    ensures m.Snap() == if usable then FillBuckets(old(m.Snap()), old(m.nNew), 0, buckets) else old(m.Snap())
  {
    ghost var s, nNew := m.Snap(), m.nNew;
    assert buckets[..0] == [];
    for n := 0 to |buckets|
      invariant m.Shaped() && m.Snap() == if usable then FillBuckets(s, nNew, 0, buckets[..n]) else s
    {
      FillBucketsMore(s, nNew, 0, buckets, n);
      FillBucketsKeep(s, nNew, 0, buckets[..n]);
      ReadBucket(m, n, buckets[n], usable);
    }
    assert buckets[..|buckets|] == buckets;
  }

  lemma FreshBlank(k: Placing, collisions: set<int>)
    ensures AddrManLoad.Blank(Fresh(k).(collisions := collisions))
  {
  }

  /** What a file is turned into. */
  ghost function Loaded(k: Placing, collisions: set<int>, f: File): State
    requires Complete(f)
  {
    var blank := Fresh(k).(collisions := collisions);
    FreshBlank(k, collisions);
    RebuiltRandom(blank, f);
    Prune(Rebuilt(blank, f), Rebuilt(blank, f).info.Keys)
  }

  /** Reads the entries and the bucket lists into an empty manager; fails when the file ends before that. */
  method ReadAll(m: AddrMan, f: File, nUBuckets: int, ghost blank: State) returns (ok: bool)
    requires m.Shaped() && Readable(f) && nUBuckets == BucketsOf(f) && AddrManLoad.Blank(blank)
    requires m.Snap() == blank.(nNew := f.nNew, nTried := f.nTried)
    modifies m, m.vvTried, m.vvNew
    ensures ok == Complete(f)
    ensures ok ==> m.Shaped() && m.Snap() == Rebuilt(blank, f)
  {
    hide RestoreNew, RestoreTried, FillBuckets, AddrMan.Shaped, BucketsOf;
    var usable := f.version == 1 && nUBuckets == NEW_BUCKET_COUNT;
    ghost var r := RestoreNew(blank, f.newEntries, usable);
    ghost var a := r.(nIdCount := f.nNew, nNew := f.nNew);
    ghost var t := RestoreTried(a, f.triedEntries);
    RestoreNewIds(blank, f.newEntries, usable);
    RestoreTriedKeeps(a, f.triedEntries);
    ReadNewEntries(m, f.newEntries, usable, blank);
    if |f.newEntries| < f.nNew { return false; }
    ReadTriedEntries(m, f.triedEntries, a);
    if |f.triedEntries| < f.nTried { return false; }
    assert m.Snap() == t.(nTried := t.nTried + Min(0, f.nTried));
    ReadBuckets(m, f.buckets, usable);
    if |f.buckets| < nUBuckets { return false; }
    ok := true;
  }

  lemma {:induction false} RestoreTriedKeeps(s: State, ds: seq<Data>)
    ensures var t := RestoreTried(s, ds); s.info.Keys <= t.info.Keys && t.nNew == s.nNew
    decreases |ds|
  {
    if ds != [] { RestoreTriedKeeps(RestoredTried(s, ds[0]), ds[1..]); }
  }

  /** Replaces the contents of a manager by those of a file; fails when the file is refused or ends too early. */
  method Unserialize(m: AddrMan, f: File, randomKey: Key) returns (ok: bool)
    requires m.Shaped() && Readable(f)
    modifies m, m.vvTried, m.vvNew
    ensures ok == (!Refused(f) && Complete(f))
    ensures ok ==> m.Shaped() && m.Snap() == Loaded(Placing(m.net, f.key), old(m.triedCollisions), f)
  {
    hide Rebuilt, Readable, Complete;
    m.Clear(randomKey);
    ghost var blank := Fresh(Placing(m.net, f.key)).(collisions := m.triedCollisions);
    FreshBlank(Placing(m.net, f.key), m.triedCollisions);
    if f.keySize != 32 { return false; }
    m.nKey, m.nNew, m.nTried := f.key, f.nNew, f.nTried;
    var nUBuckets := if f.version != 0 then Marked(f.nUBuckets) else f.nUBuckets;
    if m.nNew > NEW_BUCKET_COUNT * BUCKET_SIZE { return false; }
    if m.nTried > TRIED_BUCKET_COUNT * BUCKET_SIZE { return false; }
    ok := ReadAll(m, f, nUBuckets, blank);
    if !ok { return; }
    RebuiltRandom(blank, f);
    PruneEntries(m);
  }

  // ---------- saving ----------

  /** ids lists, in order, the entries of one table among those that are not in `todo`. */
  ghost predicate Walked(info: Infos, todo: set<int>, ids: seq<int>, fInTried: bool) {
    && Ascending(ids) && todo <= info.Keys
    && (forall x, y :: x in info && x !in todo && y in todo ==> x < y)
    && (forall id :: id in info && id !in todo && info[id].fInTried == fInTried ==> id in ids)
    && (forall i :: 0 <= i < |ids| ==> ids[i] in info && ids[i] !in todo && info[ids[i]].fInTried == fInTried)
  }

  lemma AscendingMore(ids: seq<int>, id: int)
    requires Ascending(ids) && forall i :: 0 <= i < |ids| ==> ids[i] < id
    ensures Ascending(ids + [id])
  {
  }

  lemma WalkedMore(info: Infos, todo: set<int>, ids: seq<int>, fInTried: bool, id: int)
    requires Walked(info, todo, ids, fInTried) && IsLeast(todo, id) && id in todo
    ensures Walked(info, todo - {id}, if info[id].fInTried == fInTried then ids + [id] else ids, fInTried)
  {
    hide Ascending;
    AscendingMore(ids, id);
    var after := ids + [id];
    assert after[|ids|] == id && forall x :: x in ids ==> x in after;
    assert forall i :: 0 <= i < |after| ==> after[i] == if i < |ids| then ids[i] else id;
  }

  lemma WalkedAll(info: Infos, ids: seq<int>, fInTried: bool)
    requires Walked(info, {}, ids, fInTried)
    ensures Lists(info, ids, fInTried)
  {
  }

  lemma WalkedNotAll(info: Infos, todo: set<int>, ids: seq<int>, fInTried: bool, all: set<int>, id: int)
    requires Walked(info, todo, ids, fInTried) && id in todo && info[id].fInTried == fInTried
    requires forall x :: x in all <==> x in info && info[x].fInTried == fInTried
    ensures |ids| < |all|
  {
    ElementCount(ids);
    var e := set x | x in ids;
    forall x | x in e ensures x in all && x != id {
      var i :| 0 <= i < |ids| && ids[i] == x;
    }
    Fewer(e, all, id);
  }

  lemma NotAllNew(s: State, todo: set<int>, ids: seq<int>, id: int)
    requires Consistent(s) && Walked(s.info, todo, ids, false) && id in todo && !s.info[id].fInTried
    ensures |ids| < s.nNew
  {
    WalkedNotAll(s.info, todo, ids, false, NewIds(s.info), id);
    assert NewIds(s.info) - {} == NewIds(s.info);
  }

  /** Writes the entries of the new table and numbers them. */
  method WriteNew(m: AddrMan) returns (entries: seq<Data>, mapUnkIds: map<int, int>, ghost ns: seq<int>)
    requires Consistent(m.Snap())
    ensures Lists(m.mapInfo, ns, false) && Ascending(ns) && entries == Entries(m.mapInfo, ns)
    ensures forall i :: 0 <= i < |ns| ==> ns[i] in mapUnkIds && mapUnkIds[ns[i]] == i
  {
    hide Consistent, Lists;
    entries, mapUnkIds, ns := [], map[], [];
    var nIds, todo := 0, m.mapInfo.Keys;
    while todo != {}
      invariant Walked(m.mapInfo, todo, ns, false) && nIds == |ns| == |entries|
      invariant forall i :: 0 <= i < |ns| ==> entries[i] == Persisted(m.mapInfo[ns[i]].data)
      invariant forall i :: 0 <= i < |ns| ==> ns[i] in mapUnkIds && mapUnkIds[ns[i]] == i
      decreases |todo|
    {
      LeastExists(todo);
      var id :| id in todo && IsLeast(todo, id);
      var info := m.mapInfo[id];
      EitherTable(m.Snap(), id);
      WalkedMore(m.mapInfo, todo, ns, false, id);
      mapUnkIds := mapUnkIds[id := nIds];
      if info.nRefCount != 0 {
        NotAllNew(m.Snap(), todo, ns, id);
        assert nIds != m.nNew;
        entries := entries + [Persisted(info.data)];
        ns := ns + [id];
        nIds := nIds + 1;
      }
      todo := todo - {id};
    }
    WalkedAll(m.mapInfo, ns, false);
  }

  lemma EitherTable(s: State, id: int)
    requires Consistent(s) && id in s.info
    ensures s.info[id].nRefCount != 0 <==> !s.info[id].fInTried
  {
    if s.info[id].fInTried { NewTableHasNoTried(s, id); }
  }

  /** Writes the entries of the tried table. */
  method WriteTried(m: AddrMan) returns (entries: seq<Data>, ghost ts: seq<int>)
    requires Consistent(m.Snap())
    ensures Lists(m.mapInfo, ts, true) && Ascending(ts) && entries == Entries(m.mapInfo, ts)
  {
    hide Linked, Lists;
    entries, ts := [], [];
    var nIds, todo := 0, m.mapInfo.Keys;
    while todo != {}
      invariant Walked(m.mapInfo, todo, ts, true) && nIds == |ts| == |entries|
      invariant forall i :: 0 <= i < |ts| ==> entries[i] == Persisted(m.mapInfo[ts[i]].data)
      decreases |todo|
    {
      LeastExists(todo);
      var id :| id in todo && IsLeast(todo, id);
      WalkedMore(m.mapInfo, todo, ts, true, id);
      if m.mapInfo[id].fInTried {
        WalkedNotAll(m.mapInfo, todo, ts, true, TriedIds(m.mapInfo), id);
        assert nIds != m.nTried;
        entries := entries + [Persisted(m.mapInfo[id].data)];
        ts := ts + [id];
        nIds := nIds + 1;
      }
      todo := todo - {id};
    }
    WalkedAll(m.mapInfo, ts, true);
  }

  lemma SlotNumbered(s: State, ns: seq<int>, mapUnkIds: map<int, int>, sl: Slot)
    requires Linked(s) && Lists(s.info, ns, false) && sl in s.newTable && s.newTable[sl] != -1
    requires forall i :: 0 <= i < |ns| ==> ns[i] in mapUnkIds && mapUnkIds[ns[i]] == i
    ensures s.newTable[sl] in mapUnkIds && mapUnkIds[s.newTable[sl]] == NewIndex(ns, s.newTable[sl])
  {
    var id := s.newTable[sl];
    assert NewSlotOk(s.k, s.info, sl, id) && id in ns;
    assert ns[IndexOf(ns, id)] == id;
  }

  /** Writes the list of one bucket. */
  method WriteBucket(m: AddrMan, bucket: nat, mapUnkIds: map<int, int>, ghost ns: seq<int>) returns (list: seq<int>)
    requires m.Shaped() && Linked(m.Snap()) && bucket < NEW_BUCKET_COUNT && Lists(m.mapInfo, ns, false)
    requires forall i :: 0 <= i < |ns| ==> ns[i] in mapUnkIds && mapUnkIds[ns[i]] == i
    ensures list == SavedBucket(m.newTable, ns, bucket, 0)
  {
    list := [];
    for i := 0 to BUCKET_SIZE
      invariant list + SavedBucket(m.newTable, ns, bucket, i) == SavedBucket(m.newTable, ns, bucket, 0)
    {
      assert m.newTable[(bucket, i)] == m.vvNew[bucket, i];
      if m.vvNew[bucket, i] != -1 {
        SlotNumbered(m.Snap(), ns, mapUnkIds, (bucket, i));
        Regroup(list, mapUnkIds[m.vvNew[bucket, i]], SavedBucket(m.newTable, ns, bucket, i + 1));
        list := list + [mapUnkIds[m.vvNew[bucket, i]]];
      }
    }
    assert list + [] == list;
  }

  /** The file of a manager. */
  method Serialize(m: AddrMan) returns (f: File, ghost ns: seq<int>, ghost ts: seq<int>)
    requires m.Shaped() && Consistent(m.Snap())
    ensures m.nNew >= 0 && m.nTried >= 0
    ensures Orders(m.Snap(), ns, ts) && Ascending(ns) && Ascending(ts) && f == SavedAs(m.Snap(), ns, ts)
  {
    hide Linked, Lists, Ascending, SavedBucket;
    var newEntries, mapUnkIds, triedEntries;
    newEntries, mapUnkIds, ns := WriteNew(m);
    triedEntries, ts := WriteTried(m);
    var buckets: seq<seq<int>> := [];
    for bucket := 0 to NEW_BUCKET_COUNT
      invariant buckets + SavedBuckets(m.newTable, ns, bucket) == SavedBuckets(m.newTable, ns, 0)
    {
      var list := WriteBucket(m, bucket, mapUnkIds, ns);
      Regroup(buckets, list, SavedBuckets(m.newTable, ns, bucket + 1));
      buckets := buckets + [list];
    }
    assert buckets + [] == buckets;
    f := File(1, 32, m.nKey, m.nNew, m.nTried, Xor(NEW_BUCKET_COUNT, BUCKETS_MARK), newEntries, triedEntries, buckets);
  }
}
