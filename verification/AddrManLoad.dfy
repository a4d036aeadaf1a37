/** Rebuilding the address manager from a file. */
module AddrManLoad {
  import opened Basics
  import opened AddrManState
  import opened AddrManOps
  import opened AddrManRuns
  import opened BitOps

  const BUCKETS_MARK := 0x4000_0000

  /**
   * The values in a saved file, in the order in which they are written: the entries of the new table, those of the
   * tried table, and for each bucket of the new table the indexes of its entries. An entry is saved without the
   * times of the last attempts. The counts may be any numbers, and the file may end anywhere behind them.
   */
  datatype File = File(version: nat, keySize: nat, key: Key, nNew: int, nTried: int, nUBuckets: int,
                       newEntries: seq<Data>, triedEntries: seq<Data>, buckets: seq<seq<int>>)

  /** Exclusive or of a 32-bit number and the mark. */
  function Marked(n: int): int {
    if n >= 0 then Xor(n, BUCKETS_MARK) else if n >= -BUCKETS_MARK then n - BUCKETS_MARK else n + BUCKETS_MARK
  }

  /** The number of buckets the file was written for. */
  function BucketsOf(f: File): int { if f.version != 0 then Marked(f.nUBuckets) else f.nUBuckets }

  /** The lists are as long as the counts at the beginning of the file say; a negative count says that it is empty. */
  predicate Complete(f: File) {
    && |f.newEntries| == Max(0, f.nNew) && |f.triedEntries| == Max(0, f.nTried)
    && |f.buckets| == Max(0, BucketsOf(f))
  }

  /** So they are up to where the file ends. */
  predicate Readable(f: File) {
    && |f.newEntries| <= Max(0, f.nNew) && |f.triedEntries| <= Max(0, f.nTried) && |f.buckets| <= Max(0, BucketsOf(f))
    && (|f.newEntries| < f.nNew ==> f.triedEntries == [] && f.buckets == [])
    && (|f.triedEntries| < f.nTried ==> f.buckets == [])
  }

  /** The bucket lists can be used. */
  predicate Usable(f: File) { f.version == 1 && BucketsOf(f) == NEW_BUCKET_COUNT }

  predicate Refused(f: File) {
    || f.keySize != 32
    || f.nNew > NEW_BUCKET_COUNT * BUCKET_SIZE
    || f.nTried > TRIED_BUCKET_COUNT * BUCKET_SIZE
  }

  function Persisted(d: Data): Data { d.(nLastTry := 0, nLastCountAttempt := 0) }

  // ---------- the steps ----------

  /** A restored entry, in no table yet. */
  function Restored(s: State, d: Data): State {
    var id := s.nIdCount;
    s.(nIdCount := id + 1, info := s.info[id := Info(Persisted(d), 0, false, |s.random|)],
       addr := s.addr[d.service.ip := id], random := s.random + [id], nNew := s.nNew + 1)
  }

  /** An entry with one more reference, from a slot of the new table. */
  function Referred(s: State, sl: Slot, id: int): State
    requires id in s.info
  {
    s.(newTable := s.newTable[sl := id], info := s.info[id := s.info[id].(nRefCount := s.info[id].nRefCount + 1)])
  }

  predicate Free(t: Table, sl: Slot) { sl in t && t[sl] == -1 }

  /** A restored entry; when the bucket lists cannot be used it takes the slot of its source, if that is free. */
  function RestoredNew(s: State, d: Data, usable: bool): State {
    var id, t, sl := s.nIdCount, Restored(s, d), NewSlot(s.k, d.service, d.source);
    if !usable && Free(t.newTable, sl) then Referred(t, sl, id) else t
  }

  function RestoredTried(s: State, d: Data): State {
    var id, sl := s.nIdCount, TriedSlot(s.k, d.service);
    if Free(s.triedTable, sl) then
      s.(nIdCount := id + 1, info := s.info[id := Info(Persisted(d), 0, true, |s.random|)],
         addr := s.addr[d.service.ip := id], random := s.random + [id],
         triedTable := s.triedTable[sl := id], nTried := s.nTried + 1)
    else s
  }

  /** Whether the entry with an index from a bucket list goes into that bucket. */
  predicate Accepts(s: State, nNew: int, bucket: nat, index: int) {
    && 0 <= index < nNew && index in s.info
    && Free(s.newTable, NewSlotIn(s.k, s.info[index].data.service, bucket))
    && s.info[index].nRefCount < NEW_BUCKETS_PER_ADDRESS
  }

  function Bucketed(s: State, nNew: int, bucket: nat, index: int): State {
    if Accepts(s, nNew, bucket, index) then Referred(s, NewSlotIn(s.k, s.info[index].data.service, bucket), index)
    else s
  }

  predicate Loose(info: Infos, id: int) { id in info && !info[id].fInTried && info[id].nRefCount == 0 }

  // ---------- all of the steps ----------

  function RestoreNew(s: State, ds: seq<Data>, usable: bool): State
    decreases |ds|
  {
    if ds == [] then s else RestoreNew(RestoredNew(s, ds[0], usable), ds[1..], usable)
  }

  function RestoreTried(s: State, ds: seq<Data>): State
    decreases |ds|
  {
    if ds == [] then s else RestoreTried(RestoredTried(s, ds[0]), ds[1..])
  }

  function FillBucket(s: State, nNew: int, bucket: nat, indexes: seq<int>): State
    decreases |indexes|
  {
    if indexes == [] then s else FillBucket(Bucketed(s, nNew, bucket, indexes[0]), nNew, bucket, indexes[1..])
  }

  /** Fills the buckets from number `bucket` on. */
  function FillBuckets(s: State, nNew: int, bucket: nat, buckets: seq<seq<int>>): State
    decreases |buckets|
  {
    if buckets == [] then s
    else FillBuckets(FillBucket(s, nNew, bucket, buckets[0]), nNew, bucket + 1, buckets[1..])
  }

  /** Deletes those entries of `todo`, in the order of their ids, that nothing refers to. */
  ghost function Prune(s: State, todo: set<int>): State
    requires RandomOk(s.info, s.random) && todo <= s.info.Keys
    decreases |todo|
  {
    if todo == {} then s
    else
      var id := Least(todo);
      if Loose(s.info, id) then
        DeleteFrame(s, id);
        DeletedRandom(s, id);
        Prune(Delete(s, id), todo - {id})
      else Prune(s, todo - {id})
  }

  lemma DeletedRandom(s: State, id: int)
    requires RandomOk(s.info, s.random) && id in s.info
    ensures RandomOk(Delete(s, id).info, Delete(s, id).random)
  {
    hide SwapRandom;
    SwapRandomReshuffles(s, s.info[id].nRandomPos, |s.random| - 1);
  }

  /** The entries and the tables, before entries without a reference are pruned; a negative count stays what it is. */
  function Rebuilt(blank: State, f: File): State {
    var a := RestoreNew(blank, f.newEntries, Usable(f)).(nIdCount := f.nNew, nNew := f.nNew);
    var t := RestoreTried(a, f.triedEntries);
    var b := t.(nTried := t.nTried + Min(0, f.nTried));
    if Usable(f) then FillBuckets(b, f.nNew, 0, f.buckets) else b
  }

  // ---------- consistency, but for the index of addresses ----------

  /** All links but those from addresses. */
  ghost predicate Placed(s: State) {
    && RandomOk(s.info, s.random)
    && IdsOk(s.info, s.nIdCount)
    && NewOk(s.k, s.info, s.newTable)
    && TriedOk(s.k, s.info, s.triedTable)
    && RefsOk(s.info, s.newTable)
  }

  /** Consistent, except that addresses may repeat and new entries may still be without references. */
  ghost predicate Loading(s: State) { Placed(s) && Counted(s, {}, NewIds(s.info)) }

  lemma NoSlotsYet(s: State)
    requires Placed(s)
    ensures s.nIdCount !in s.info && RefSlots(s.newTable, s.nIdCount) == {}
    ensures forall sl :: sl in s.triedTable ==> s.triedTable[sl] != s.nIdCount
  {
    hide RandomOk, RefsOk;
  }

  lemma PlacedHasNoTried(s: State, id: int)
    requires Placed(s) && id in s.info && s.info[id].fInTried
    ensures s.info[id].nRefCount == 0
  {
    hide RandomOk, TriedOk;
    assert forall sl :: sl in s.newTable ==> s.newTable[sl] != id;
    assert RefSlots(s.newTable, id) == {};
  }

  lemma OneMoreRandom(info: Infos, random: seq<int>, id: int, i: Info)
    requires RandomOk(info, random) && id !in info && i.nRandomPos == |random|
    ensures RandomOk(info[id := i], random + [id])
  {
  }

  lemma RestoredPlaced(s: State, d: Data)
    requires Placed(s)
    ensures Placed(Restored(s, d))
  {
    hide RandomOk;
    NoSlotsYet(s);
    OneMoreRandom(s.info, s.random, s.nIdCount, Info(Persisted(d), 0, false, |s.random|));
  }

  lemma RestoredLoading(s: State, d: Data)
    requires Loading(s)
    ensures Loading(Restored(s, d))
  {
    hide RandomOk, NewOk, TriedOk, RefsOk, NewIds, TriedIds;
    var t, id := Restored(s, d), s.nIdCount;
    RestoredPlaced(s, d);
    NoSlotsYet(s);
    IdsWithNew(s.info, id, t.info[id]);
    NewKnown(s);
    assert NewIds(t.info) - {} == NewIds(t.info) && NewIds(s.info) - {} == NewIds(s.info);
  }

  lemma ReferredPlaced(s: State, sl: Slot, id: int)
    requires Placed(s) && Free(s.newTable, sl) && NewSlotOk(s.k, s.info, sl, id)
    ensures Placed(Referred(s, sl, id))
  {
    RefSlotsUpdate(s.newTable, sl, id);
  }

  lemma ReferredLoading(s: State, sl: Slot, id: int)
    requires Loading(s) && Free(s.newTable, sl) && NewSlotOk(s.k, s.info, sl, id)
    requires s.info[id].nRefCount < NEW_BUCKETS_PER_ADDRESS
    ensures Loading(Referred(s, sl, id))
  {
    hide RandomOk, NewOk, TriedOk, RefsOk, IdsOk;
    var t := Referred(s, sl, id);
    ReferredPlaced(s, sl, id);
    assert NewIds(t.info) == NewIds(s.info) && TriedIds(t.info) == TriedIds(s.info);
  }

  lemma RestoredTriedPlaced(s: State, d: Data)
    requires Placed(s)
    ensures Placed(RestoredTried(s, d))
  {
    hide RandomOk;
    NoSlotsYet(s);
    OneMoreRandom(s.info, s.random, s.nIdCount, Info(Persisted(d), 0, true, |s.random|));
  }

  lemma RestoredTriedLoading(s: State, d: Data)
    requires Loading(s)
    ensures Loading(RestoredTried(s, d))
  {
    hide RandomOk, NewOk, TriedOk, RefsOk;
    var t, id := RestoredTried(s, d), s.nIdCount;
    RestoredTriedPlaced(s, d);
    if t != s {
      assert NewIds(t.info) == NewIds(s.info);
      assert TriedIds(t.info) == TriedIds(s.info) + {id};
    }
  }

  /** After the new entries: they have the first ids, and none is tried. */
  ghost predicate OnlyNew(s: State) { forall id :: id in s.info ==> !s.info[id].fInTried }

  lemma RestoredNewLoading(s: State, d: Data, usable: bool)
    requires Loading(s) && OnlyNew(s)
    ensures var t := RestoredNew(s, d, usable);
      Loading(t) && OnlyNew(t) && t.nIdCount == s.nIdCount + 1 && t.nNew == s.nNew + 1 && t.k == s.k
  {
    hide Placed, Counted;
    var t, sl := Restored(s, d), NewSlot(s.k, d.service, d.source);
    RestoredLoading(s, d);
    if !usable && Free(t.newTable, sl) { ReferredLoading(t, sl, s.nIdCount); }
  }

  lemma {:induction false} RestoreNewLoading(s: State, ds: seq<Data>, usable: bool)
    requires Loading(s) && OnlyNew(s)
    ensures var t := RestoreNew(s, ds, usable);
      Loading(t) && OnlyNew(t) && t.nIdCount == s.nIdCount + |ds| && t.nNew == s.nNew + |ds| && t.k == s.k
    decreases |ds|
  {
    hide Loading, OnlyNew, RestoredNew;
    if ds != [] {
      RestoredNewLoading(s, ds[0], usable);
      RestoreNewLoading(RestoredNew(s, ds[0], usable), ds[1..], usable);
    }
  }

  /** The entries with ids below n are new ones. */
  ghost predicate NewBelow(info: Infos, n: int) { forall id :: id in info && id < n ==> !info[id].fInTried }

  lemma {:induction false} RestoreTriedLoading(s: State, ds: seq<Data>, n: int)
    requires Loading(s) && NewBelow(s.info, n) && n <= s.nIdCount
    ensures var t := RestoreTried(s, ds); Loading(t) && NewBelow(t.info, n) && t.k == s.k
    decreases |ds|
  {
    hide Loading;
    if ds != [] {
      RestoredTriedLoading(s, ds[0]);
      RestoreTriedLoading(RestoredTried(s, ds[0]), ds[1..], n);
    }
  }

  lemma BucketedLoading(s: State, nNew: int, bucket: nat, index: int)
    requires Loading(s) && NewBelow(s.info, nNew)
    ensures var t := Bucketed(s, nNew, bucket, index); Loading(t) && NewBelow(t.info, nNew)
  {
    hide Loading;
    if Accepts(s, nNew, bucket, index) {
      ReferredLoading(s, NewSlotIn(s.k, s.info[index].data.service, bucket), index);
    }
  }

  lemma {:induction false} FillBucketLoading(s: State, nNew: int, bucket: nat, indexes: seq<int>)
    requires Loading(s) && NewBelow(s.info, nNew)
    ensures var t := FillBucket(s, nNew, bucket, indexes); Loading(t) && NewBelow(t.info, nNew)
    decreases |indexes|
  {
    hide Loading, NewBelow, Bucketed;
    if indexes != [] {
      BucketedLoading(s, nNew, bucket, indexes[0]);
      FillBucketLoading(Bucketed(s, nNew, bucket, indexes[0]), nNew, bucket, indexes[1..]);
    }
  }

  lemma {:induction false} FillBucketsLoading(s: State, nNew: int, bucket: nat, buckets: seq<seq<int>>)
    requires Loading(s) && NewBelow(s.info, nNew)
    ensures var t := FillBuckets(s, nNew, bucket, buckets); Loading(t) && NewBelow(t.info, nNew)
    decreases |buckets|
  {
    hide Loading, NewBelow, FillBucket;
    if buckets != [] {
      FillBucketLoading(s, nNew, bucket, buckets[0]);
      FillBucketsLoading(FillBucket(s, nNew, bucket, buckets[0]), nNew, bucket + 1, buckets[1..]);
    }
  }

  /** A manager without entries. */
  ghost predicate Blank(s: State) {
    && s.nIdCount == s.nNew == s.nTried == 0 && s.info == map[] && s.addr == map[] && s.random == []
    && IsEmptyTable(s.triedTable, TRIED_BUCKET_COUNT) && IsEmptyTable(s.newTable, NEW_BUCKET_COUNT)
  }

  lemma BlankLoading(s: State)
    requires Blank(s)
    ensures Loading(s) && OnlyNew(s)
  {
    assert NewIds(s.info) == {} && TriedIds(s.info) == {};
  }

  /** Without negative counts, the counts are those of the lists. */
  lemma RebuiltParts(blank: State, f: File)
    requires Blank(blank) && Complete(f) && f.nNew >= 0 && f.nTried >= 0
    ensures var b := RestoreTried(RestoreNew(blank, f.newEntries, Usable(f)), f.triedEntries);
      Rebuilt(blank, f) == if Usable(f) then FillBuckets(b, f.nNew, 0, f.buckets) else b
  {
    hide Loading, RestoreNew, RestoreTried, FillBuckets;
    BlankLoading(blank);
    RestoreNewLoading(blank, f.newEntries, Usable(f));
    var a := RestoreNew(blank, f.newEntries, Usable(f));
    assert a == a.(nIdCount := f.nNew, nNew := f.nNew);
    var b := RestoreTried(a, f.triedEntries);
    assert b == b.(nTried := b.nTried + 0);
  }

  lemma RebuiltLoading(blank: State, f: File)
    requires Blank(blank) && Complete(f) && f.nNew >= 0 && f.nTried >= 0
    ensures Loading(Rebuilt(blank, f))
  {
    hide Loading, RestoreNew, RestoreTried, FillBuckets, Rebuilt;
    RebuiltParts(blank, f);
    BlankLoading(blank);
    RestoreNewLoading(blank, f.newEntries, Usable(f));
    var a := RestoreNew(blank, f.newEntries, Usable(f));
    RestoreTriedLoading(a, f.triedEntries, f.nNew);
    FillBucketsLoading(RestoreTried(a, f.triedEntries), f.nNew, 0, f.buckets);
  }

  // ---------- pruning ----------

  ghost function LooseIn(info: Infos, todo: set<int>): set<int> { set id | id in todo && Loose(info, id) }

  ghost function AddressesOf(info: Infos, ids: set<int>): set<NetAddr> {
    set id | id in ids && id in info :: info[id].data.service.ip
  }

  /** What pruning leaves of a manager. */
  ghost predicate PrunedOf(s: State, t: State, gone: set<int>) {
    && t.info.Keys == s.info.Keys - gone && (forall k :: k in t.info ==> Kept(s, t, k))
    && t.addr == s.addr - AddressesOf(s.info, gone)
    && t == s.(info := t.info, addr := t.addr, random := t.random, nNew := s.nNew - |gone|)
  }

  lemma DeletedIs(s: State, id: int)
    requires RandomOk(s.info, s.random) && id in s.info
    ensures PrunedOf(s, Delete(s, id), {id}) && RandomOk(Delete(s, id).info, Delete(s, id).random)
  {
    hide RandomOk, Descends;
    DeleteFrame(s, id);
    DeletedRandom(s, id);
    DeletedAddress(s, id);
    assert AddressesOf(s.info, {id}) == {s.info[id].data.service.ip};
  }

  lemma DeletedAddress(s: State, id: int)
    requires RandomOk(s.info, s.random) && id in s.info
    ensures Delete(s, id).addr == s.addr - {s.info[id].data.service.ip}
  {
    SwapRandomReshuffles(s, s.info[id].nRandomPos, |s.random| - 1);
  }

  lemma PrunedTwice(s: State, t: State, u: State, id: int, gone: set<int>)
    requires PrunedOf(s, t, {id}) && PrunedOf(t, u, gone) && id in s.info && gone <= t.info.Keys
    ensures PrunedOf(s, u, gone + {id})
  {
    assert id !in gone && |gone + {id}| == |gone| + 1;
    forall k | k in gone ensures t.info[k].data == s.info[k].data { assert Kept(s, t, k); }
    assert AddressesOf(s.info, gone + {id}) == AddressesOf(t.info, gone) + AddressesOf(s.info, {id});
    forall k | k in u.info ensures Kept(s, u, k) { assert Kept(t, u, k) && Kept(s, t, k); }
  }

  lemma {:induction false} PruneIs(s: State, todo: set<int>)
    requires RandomOk(s.info, s.random) && todo <= s.info.Keys
    ensures PrunedOf(s, Prune(s, todo), LooseIn(s.info, todo))
    decreases |todo|
  {
    hide RandomOk, PrunedOf, Delete;
    if todo == {} {
      PrunedNone(s);
      assert LooseIn(s.info, todo) == {};
    } else {
      var id := Least(todo);
      var rest := todo - {id};
      if Loose(s.info, id) {
        DeletedIs(s, id);
        DeleteFrame(s, id);
        var t := Delete(s, id);
        PruneIs(t, rest);
        SameLoose(s, t, rest);
        assert LooseIn(s.info, todo) == LooseIn(t.info, rest) + {id};
        PrunedTwice(s, t, Prune(t, rest), id, LooseIn(t.info, rest));
      } else {
        PruneIs(s, rest);
        assert LooseIn(s.info, todo) == LooseIn(s.info, rest);
      }
    }
  }

  lemma PrunedNone(s: State)
    ensures PrunedOf(s, s, {})
  {
    assert AddressesOf(s.info, {}) == {};
  }

  lemma SameLoose(s: State, t: State, ids: set<int>)
    requires ids <= t.info.Keys && forall k :: k in t.info ==> Kept(s, t, k)
    ensures LooseIn(t.info, ids) == LooseIn(s.info, ids)
  {
    forall k | k in ids ensures Loose(t.info, k) == Loose(s.info, k) { assert Kept(s, t, k); }
  }

  lemma DropLastPlaced(s: State, id: int)
    requires Placed(s) && Loose(s.info, id) && s.random != [] && s.random[|s.random| - 1] == id
    ensures Placed(DropLast(s, id))
  {
    NoRefs(s, id);
  }

  lemma ReshuffledPlaced(s: State, t: State)
    requires Placed(s) && Reshuffled(s, t)
    ensures Placed(t)
  {
  }

  lemma DeletePlaced(s: State, id: int)
    requires Placed(s) && Loose(s.info, id)
    ensures Placed(Delete(s, id))
  {
    hide IdsOk, NewOk, TriedOk, RefsOk, DropLast;
    var pos, last := s.info[id].nRandomPos, |s.random| - 1;
    SwapRandomReshuffles(s, pos, last);
    ReshuffledPlaced(s, SwapRandom(s, pos, last));
    DropLastPlaced(SwapRandom(s, pos, last), id);
  }

  lemma DeleteLoading(s: State, id: int)
    requires Loading(s) && Loose(s.info, id)
    ensures Loading(Delete(s, id)) && Delete(s, id).info.Keys == s.info.Keys - {id}
    ensures forall k :: k in Delete(s, id).info ==> Loose(Delete(s, id).info, k) == Loose(s.info, k)
  {
    hide RandomOk, IdsOk, NewOk, TriedOk, RefsOk, Counted, Descends;
    var t := Delete(s, id);
    DeletePlaced(s, id);
    DeleteFrame(s, id);
    RemovedCounted(s, t, id, {}, NewIds(s.info));
    RemovedIds(s, t, id);
    CountedMore(t, {}, NewIds(s.info) - {id}, NewIds(t.info));
    forall k | k in t.info ensures Loose(t.info, k) == Loose(s.info, k) { assert Kept(s, t, k); }
  }

  lemma NoneLoose(s: State)
    requires Loading(s) && forall id :: !Loose(s.info, id)
    ensures Counted(s, {}, {})
  {
    hide Placed;
    forall id | id in s.info && !s.info[id].fInTried ensures s.info[id].nRefCount >= 1 {
      RefsNotNegative(s, id);
      assert !Loose(s.info, id);
    }
  }

  lemma RefsNotNegative(s: State, id: int)
    requires Placed(s) && id in s.info
    ensures s.info[id].nRefCount >= 0
  {
  }

  /** Pruning leaves only entries that are in a table. */
  lemma {:induction false} PrunePlaced(s: State, todo: set<int>)
    requires Loading(s) && todo <= s.info.Keys && forall id :: Loose(s.info, id) ==> id in todo
    ensures RandomOk(s.info, s.random) && Placed(Prune(s, todo)) && Counted(Prune(s, todo), {}, {})
    decreases |todo|
  {
    hide RandomOk, IdsOk, NewOk, TriedOk, RefsOk, Counted, Delete;
    if todo == {} {
      NoneLoose(s);
    } else {
      var id := Least(todo);
      if Loose(s.info, id) {
        DeleteLoading(s, id);
        DeleteFrame(s, id);
        DeletedRandom(s, id);
        PrunePlaced(Delete(s, id), todo - {id});
      } else {
        PrunePlaced(s, todo - {id});
      }
    }
  }

  // ---------- the index of addresses ----------

  /** Every address of an entry is indexed, and leads to an entry with that address. */
  ghost predicate AddrKnown(s: State) {
    && (forall id :: id in s.info ==> id < s.nIdCount && s.info[id].data.service.ip in s.addr)
    && (forall ip :: ip in s.addr ==> s.addr[ip] in s.info && s.info[s.addr[ip]].data.service.ip == ip)
  }

  lemma {:induction false} RestoreNewKnown(s: State, ds: seq<Data>, usable: bool)
    requires AddrKnown(s)
    ensures AddrKnown(RestoreNew(s, ds, usable))
    decreases |ds|
  {
    if ds != [] { RestoreNewKnown(RestoredNew(s, ds[0], usable), ds[1..], usable); }
  }

  lemma {:induction false} RestoreTriedKnown(s: State, ds: seq<Data>)
    requires AddrKnown(s)
    ensures AddrKnown(RestoreTried(s, ds))
    decreases |ds|
  {
    if ds != [] { RestoreTriedKnown(RestoredTried(s, ds[0]), ds[1..]); }
  }

  lemma {:induction false} FillBucketKnown(s: State, nNew: int, bucket: nat, indexes: seq<int>)
    requires AddrKnown(s)
    ensures AddrKnown(FillBucket(s, nNew, bucket, indexes))
    decreases |indexes|
  {
    if indexes != [] { FillBucketKnown(Bucketed(s, nNew, bucket, indexes[0]), nNew, bucket, indexes[1..]); }
  }

  lemma {:induction false} FillBucketsKnown(s: State, nNew: int, bucket: nat, buckets: seq<seq<int>>)
    requires AddrKnown(s)
    ensures AddrKnown(FillBuckets(s, nNew, bucket, buckets))
    decreases |buckets|
  {
    hide AddrKnown, FillBucket;
    if buckets != [] {
      FillBucketKnown(s, nNew, bucket, buckets[0]);
      FillBucketsKnown(FillBucket(s, nNew, bucket, buckets[0]), nNew, bucket + 1, buckets[1..]);
    }
  }

  lemma RebuiltKnown(blank: State, f: File)
    requires Blank(blank) && Complete(f) && f.nNew >= 0 && f.nTried >= 0
    ensures AddrKnown(Rebuilt(blank, f))
  {
    hide AddrKnown, RestoreNew, RestoreTried, FillBuckets, Rebuilt;
    RebuiltParts(blank, f);
    BlankKnown(blank);
    RestoreNewKnown(blank, f.newEntries, Usable(f));
    var a := RestoreNew(blank, f.newEntries, Usable(f));
    RestoreTriedKnown(a, f.triedEntries);
    FillBucketsKnown(RestoreTried(a, f.triedEntries), f.nNew, 0, f.buckets);
  }

  lemma BlankKnown(s: State)
    requires Blank(s)
    ensures AddrKnown(s)
  {
  }

  /** Where entries share an address, all of them are about to be pruned. */
  ghost predicate RepeatsLoose(info: Infos) {
    forall i, j :: i in info && j in info && i != j && info[i].data.service.ip == info[j].data.service.ip ==>
      Loose(info, i) && Loose(info, j)
  }

  lemma PrunedIndex(u: State, t: State)
    requires AddrKnown(u) && PrunedOf(u, t, LooseIn(u.info, u.info.Keys))
    ensures AddrOk(t.info, t.addr) <==> RepeatsLoose(u.info)
  {
    var gone := LooseIn(u.info, u.info.Keys);
    forall k | k in t.info ensures k in u.info && k !in gone && t.info[k].data == u.info[k].data {
      assert Kept(u, t, k);
    }
    if RepeatsLoose(u.info) {
      IndexKept(u, t, gone);
    }
    if AddrOk(t.info, t.addr) {
      forall i, j | i in u.info && j in u.info && i != j && u.info[i].data.service.ip == u.info[j].data.service.ip
        ensures i in gone && j in gone
      {
        IndexBroken(u, t, gone, i, j);
        IndexBroken(u, t, gone, j, i);
      }
    }
  }

  lemma IndexKept(u: State, t: State, gone: set<int>)
    requires AddrKnown(u) && gone == LooseIn(u.info, u.info.Keys) && PrunedOf(u, t, gone) && RepeatsLoose(u.info)
    ensures AddrOk(t.info, t.addr)
  {
    forall k | k in t.info ensures t.info[k].data.service.ip in t.addr && t.addr[t.info[k].data.service.ip] == k {
      assert Kept(u, t, k);
      var ip := u.info[k].data.service.ip;
      assert ip !in AddressesOf(u.info, gone);
      assert u.info[u.addr[ip]].data.service.ip == ip;
    }
    forall ip | ip in t.addr ensures t.addr[ip] in t.info && t.info[t.addr[ip]].data.service.ip == ip {
      assert u.addr[ip] !in gone;
      assert u.addr[ip] in t.info.Keys;
      assert Kept(u, t, u.addr[ip]);
    }
  }

  /** An entry that stays, while another with its address goes or stays too, is not indexed. */
  lemma IndexBroken(u: State, t: State, gone: set<int>, i: int, j: int)
    requires PrunedOf(u, t, gone) && AddrOk(t.info, t.addr) && i in u.info && j in u.info && i != j
    requires u.info[i].data.service.ip == u.info[j].data.service.ip
    ensures i in gone
  {
    assert j in gone ==> u.info[j].data.service.ip in AddressesOf(u.info, gone);
    assert forall k :: k in u.info && k !in gone ==> k in t.info.Keys && Kept(u, t, k);
  }

  // ---------- when a file loads to a consistent manager ----------

  lemma {:induction false} RestoreNewRandom(s: State, ds: seq<Data>, usable: bool)
    requires RandomOk(s.info, s.random) && (forall id :: id in s.info ==> id < s.nIdCount)
    ensures var t := RestoreNew(s, ds, usable);
      && RandomOk(t.info, t.random) && (forall id :: id in t.info ==> id < t.nIdCount)
      && t.nIdCount == s.nIdCount + |ds|
    decreases |ds|
  {
    hide RandomOk;
    if ds != [] {
      OneMoreRandom(s.info, s.random, s.nIdCount, Info(Persisted(ds[0]), 0, false, |s.random|));
      SameRandom(Restored(s, ds[0]), RestoredNew(s, ds[0], usable));
      RestoreNewRandom(RestoredNew(s, ds[0], usable), ds[1..], usable);
    }
  }

  lemma SameRandom(s: State, t: State)
    requires RandomOk(s.info, s.random) && t.random == s.random && t.info.Keys == s.info.Keys
    requires forall id :: id in s.info ==> t.info[id].nRandomPos == s.info[id].nRandomPos
    ensures RandomOk(t.info, t.random)
  {
    forall k | 0 <= k < |t.random| ensures t.random[k] in t.info && t.info[t.random[k]].nRandomPos == k {
      var id := s.random[k];
      assert id in s.info && s.info[id].nRandomPos == k;
      assert t.info[id].nRandomPos == s.info[id].nRandomPos;
    }
  }

  lemma {:induction false} RestoreTriedRandom(s: State, ds: seq<Data>)
    requires RandomOk(s.info, s.random) && (forall id :: id in s.info ==> id < s.nIdCount)
    ensures var t := RestoreTried(s, ds);
      && RandomOk(t.info, t.random) && t.nNew == s.nNew && (forall id :: id in s.info ==> id in t.info)
      && (forall id :: id in t.info ==> id < t.nIdCount)
    decreases |ds|
  {
    hide RandomOk;
    if ds != [] {
      OneMoreRandom(s.info, s.random, s.nIdCount, Info(Persisted(ds[0]), 0, true, |s.random|));
      RestoreTriedRandom(RestoredTried(s, ds[0]), ds[1..]);
    }
  }

  /** Bucket lists change only tables and reference counts. */
  ghost predicate OnlyTables(s: State, t: State) {
    && t == s.(info := t.info, newTable := t.newTable) && t.info.Keys == s.info.Keys
    && forall id :: id in s.info ==> t.info[id] == s.info[id].(nRefCount := t.info[id].nRefCount)
  }

  lemma {:induction false} FillBucketRandom(s: State, nNew: int, bucket: nat, indexes: seq<int>)
    ensures OnlyTables(s, FillBucket(s, nNew, bucket, indexes))
    decreases |indexes|
  {
    if indexes != [] { FillBucketRandom(Bucketed(s, nNew, bucket, indexes[0]), nNew, bucket, indexes[1..]); }
  }

  lemma {:induction false} FillBucketsRandom(s: State, nNew: int, bucket: nat, buckets: seq<seq<int>>)
    ensures OnlyTables(s, FillBuckets(s, nNew, bucket, buckets))
    decreases |buckets|
  {
    hide FillBucket;
    if buckets != [] {
      FillBucketRandom(s, nNew, bucket, buckets[0]);
      FillBucketsRandom(FillBucket(s, nNew, bucket, buckets[0]), nNew, bucket + 1, buckets[1..]);
    }
  }

  lemma RestoreNothing(s: State, usable: bool)
    ensures RestoreNew(s, [], usable) == s && RestoreTried(s, []) == s && RestoreNew(s, [], usable).nTried == s.nTried
  {
  }

  lemma {:induction false} RestoreNewTried(s: State, ds: seq<Data>, usable: bool)
    ensures RestoreNew(s, ds, usable).nTried == s.nTried
    decreases |ds|
  {
    if ds != [] { RestoreNewTried(RestoredNew(s, ds[0], usable), ds[1..], usable); }
  }

  /** Whatever the file, vRandom is a permutation before pruning. */
  lemma RebuiltRandom(blank: State, f: File)
    requires Blank(blank) && Complete(f)
    ensures var u := Rebuilt(blank, f);
      RandomOk(u.info, u.random) && u.nNew == f.nNew && (f.nTried < 0 ==> u.nTried == f.nTried)
  {
    hide RandomOk, RestoreNew, FillBuckets;
    assert RandomOk(blank.info, blank.random) by { BlankLoading(blank); }
    RestoreNewRandom(blank, f.newEntries, Usable(f));
    var r := RestoreNew(blank, f.newEntries, Usable(f));
    var a := r.(nIdCount := f.nNew, nNew := f.nNew);
    RestoreNothing(blank, Usable(f));
    RestoreNewTried(blank, f.newEntries, Usable(f));
    RestoreTriedRandom(a, f.triedEntries);
    var t := RestoreTried(a, f.triedEntries);
    var b := t.(nTried := t.nTried + Min(0, f.nTried));
    FillBucketsRandom(b, f.nNew, 0, f.buckets);
    SameRandom(b, FillBuckets(b, f.nNew, 0, f.buckets));
  }

  /**
   * Loading a file gives a consistent manager exactly when its counts are not negative and, where entries that were
   * placed share an address, all of them are pruned.
   */
  lemma LoadedConsistent(blank: State, f: File)
    requires Blank(blank) && Complete(f)
    ensures var u := Rebuilt(blank, f);
      && RandomOk(u.info, u.random)
      && (Consistent(Prune(u, u.info.Keys)) <==> f.nNew >= 0 && f.nTried >= 0 && RepeatsLoose(u.info))
  {
    hide RandomOk, IdsOk, NewOk, TriedOk, RefsOk, AddrOk, RepeatsLoose, Rebuilt, AddrKnown;
    RebuiltRandom(blank, f);
    var u := Rebuilt(blank, f);
    PruneIs(u, u.info.Keys);
    if f.nNew >= 0 && f.nTried >= 0 {
      RebuiltLoading(blank, f);
      RebuiltKnown(blank, f);
      PrunePlaced(u, u.info.Keys);
      PrunedIndex(u, Prune(u, u.info.Keys));
    }
  }

  // ---------- files that do and that do not ----------

  ghost predicate NoRepeats(info: Infos) {
    forall i, j :: i in info && j in info && i != j ==> info[i].data.service.ip != info[j].data.service.ip
  }

  /** The addresses are pairwise different and none is known yet. */
  ghost predicate FreshAddresses(ds: seq<Data>, addr: map<NetAddr, int>) {
    && (forall i, j :: 0 <= i < j < |ds| ==> ds[i].service.ip != ds[j].service.ip)
    && forall i :: 0 <= i < |ds| ==> ds[i].service.ip !in addr
  }

  lemma FreshRest(ds: seq<Data>, addr: map<NetAddr, int>, id: int)
    requires ds != [] && FreshAddresses(ds, addr)
    ensures FreshAddresses(ds[1..], addr) && FreshAddresses(ds[1..], addr[ds[0].service.ip := id])
  {
  }

  lemma {:induction false} RestoreNewDistinct(s: State, ds: seq<Data>, later: seq<Data>, usable: bool)
    requires AddrKnown(s) && NoRepeats(s.info) && FreshAddresses(ds + later, s.addr)
    ensures var t := RestoreNew(s, ds, usable); AddrKnown(t) && NoRepeats(t.info) && FreshAddresses(later, t.addr)
    decreases |ds|
  {
    hide FreshAddresses;
    if ds == [] {
      assert ds + later == later;
    } else {
      assert (ds + later)[0] == ds[0] && (ds + later)[1..] == ds[1..] + later;
      FreshRest(ds + later, s.addr, s.nIdCount);
      FirstFresh(ds + later, s.addr);
      RestoreNewDistinct(RestoredNew(s, ds[0], usable), ds[1..], later, usable);
    }
  }

  lemma FirstFresh(ds: seq<Data>, addr: map<NetAddr, int>)
    requires ds != [] && FreshAddresses(ds, addr)
    ensures ds[0].service.ip !in addr
  {
  }

  lemma {:induction false} RestoreTriedDistinct(s: State, ds: seq<Data>)
    requires AddrKnown(s) && NoRepeats(s.info) && FreshAddresses(ds, s.addr)
    ensures NoRepeats(RestoreTried(s, ds).info)
    decreases |ds|
  {
    hide FreshAddresses;
    if ds != [] {
      FreshRest(ds, s.addr, s.nIdCount);
      FirstFresh(ds, s.addr);
      RestoreTriedDistinct(RestoredTried(s, ds[0]), ds[1..]);
    }
  }

  /** A file whose addresses are pairwise different loads to a consistent manager. */
  lemma DistinctLoaded(blank: State, f: File)
    requires Blank(blank) && Complete(f) && f.nNew >= 0 && f.nTried >= 0
    requires FreshAddresses(f.newEntries + f.triedEntries, map[])
    ensures var u := Rebuilt(blank, f);
      NoRepeats(u.info) && RandomOk(u.info, u.random) && Consistent(Prune(u, u.info.Keys))
  {
    hide AddrKnown, FreshAddresses, NoRepeats, RestoreNew, RestoreTried, FillBuckets, Rebuilt, Consistent, RandomOk;
    LoadedConsistent(blank, f);
    RebuiltParts(blank, f);
    BlankKnown(blank);
    NoneRepeated(blank.info);
    RestoreNewDistinct(blank, f.newEntries, f.triedEntries, Usable(f));
    var a := RestoreNew(blank, f.newEntries, Usable(f));
    RestoreTriedDistinct(a, f.triedEntries);
    var b := RestoreTried(a, f.triedEntries);
    FillBucketsRandom(b, f.nNew, 0, f.buckets);
    SameRepeats(b, FillBuckets(b, f.nNew, 0, f.buckets));
    DistinctLoose(Rebuilt(blank, f).info);
  }

  lemma NoneRepeated(info: Infos)
    requires info == map[]
    ensures NoRepeats(info)
  {
  }

  lemma SameRepeats(s: State, t: State)
    requires NoRepeats(s.info) && OnlyTables(s, t)
    ensures NoRepeats(t.info)
  {
    assert forall id :: id in t.info ==> id in s.info.Keys && t.info[id].data == s.info[id].data;
  }

  lemma DistinctLoose(info: Infos)
    requires NoRepeats(info)
    ensures RepeatsLoose(info)
  {
  }

  /**
   * A file with one new entry twice and no usable bucket lists does not: the first gets a slot, the second does not,
   * and when the second is pruned the address of the first is forgotten.
   */
  lemma SameTwice(blank: State, f: File, d: Data)
    requires Blank(blank) && Complete(f) && !Usable(f)
    requires f.newEntries == [d, d] && f.triedEntries == [] && f.nTried == 0
    ensures var u := Rebuilt(blank, f); RandomOk(u.info, u.random) && !Consistent(Prune(u, u.info.Keys))
  {
    hide RandomOk, Consistent;
    LoadedConsistent(blank, f);
    var sl := NewSlot(blank.k, d.service, d.source);
    var s := RestoredNew(blank, d, false);
    var t := RestoredNew(s, d, false);
    assert [d, d][1..] == [d] && [d][1..] == [];
    assert RestoreNew(blank, [d, d], false) == RestoreNew(s, [d], false) == RestoreNew(t, [], false) == t;
    var u := Rebuilt(blank, f);
    assert InGrid((sl.0, sl.1), NEW_BUCKET_COUNT);
    assert s.newTable[sl] == 0;
    assert u.info[0].nRefCount == 1 && u.info[1].data.service.ip == u.info[0].data.service.ip;
    assert !Loose(u.info, 0);
  }
}
