/** Saving the address manager, and what loading brings back. */
module AddrManSave {
  import opened AddrManState
  import opened AddrManOps
  import opened AddrManRuns
  import opened AddrManLoad
  import opened BitOps

  // ---------- what is saved ----------

  /** The order in which mapInfo is walked. */
  predicate Ascending(ids: seq<int>) { forall i, j :: 0 <= i < j < |ids| ==> ids[i] < ids[j] }

  function IndexOf(s: seq<int>, x: int): (i: nat)
    requires x in s
    ensures i < |s| && s[i] == x
  {
    if s[0] == x then 0 else 1 + IndexOf(s[1..], x)
  }

  ghost function Entries(info: Infos, ids: seq<int>): (ds: seq<Data>)
    requires forall i :: 0 <= i < |ids| ==> ids[i] in info
    ensures |ds| == |ids| && forall i :: 0 <= i < |ds| ==> ds[i] == Persisted(info[ids[i]].data)
  {
    seq(|ids|, i requires 0 <= i < |ids| => Persisted(info[ids[i]].data))
  }

  /** The number a new entry has in the file; nothing stays nothing. */
  function NewIndex(ns: seq<int>, id: int): int { if id in ns then IndexOf(ns, id) else -1 }

  /** The indexes of the entries in a bucket, from a position on. */
  ghost function SavedBucket(newTable: Table, ns: seq<int>, b: int, i: int): seq<int>
    requires IsTable(newTable, NEW_BUCKET_COUNT) && 0 <= b < NEW_BUCKET_COUNT && 0 <= i <= BUCKET_SIZE
    decreases BUCKET_SIZE - i
  {
    if i == BUCKET_SIZE then []
    else if newTable[(b, i)] == -1 then SavedBucket(newTable, ns, b, i + 1)
    else [NewIndex(ns, newTable[(b, i)])] + SavedBucket(newTable, ns, b, i + 1)
  }

  ghost function SavedBuckets(newTable: Table, ns: seq<int>, b: int): (r: seq<seq<int>>)
    requires IsTable(newTable, NEW_BUCKET_COUNT) && 0 <= b <= NEW_BUCKET_COUNT
    ensures |r| == NEW_BUCKET_COUNT - b
    decreases NEW_BUCKET_COUNT - b
  {
    if b == NEW_BUCKET_COUNT then [] else [SavedBucket(newTable, ns, b, 0)] + SavedBuckets(newTable, ns, b + 1)
  }

  /** ns and ts list the new and the tried entries of m, each once. */
  ghost predicate Orders(m: State, ns: seq<int>, ts: seq<int>) {
    Lists(m.info, ns, false) && Lists(m.info, ts, true)
  }

  /** The entries in one of the tables, each once. */
  ghost predicate Lists(info: Infos, ids: seq<int>, fInTried: bool) {
    && (forall id :: id in info && info[id].fInTried == fInTried ==> id in ids)
    && (forall i :: 0 <= i < |ids| ==> ids[i] in info && info[ids[i]].fInTried == fInTried)
    && forall i, j :: 0 <= i < j < |ids| ==> ids[i] != ids[j]
  }

  /** The file for a manager, given the order in which its entries are walked. */
  ghost function SavedAs(m: State, ns: seq<int>, ts: seq<int>): File
    requires IsTable(m.newTable, NEW_BUCKET_COUNT) && m.nNew >= 0 && m.nTried >= 0 && Orders(m, ns, ts)
  {
    File(1, 32, m.k.key, m.nNew, m.nTried, Xor(NEW_BUCKET_COUNT, BUCKETS_MARK),
         Entries(m.info, ns), Entries(m.info, ts), SavedBuckets(m.newTable, ns, 0))
  }

  /** There is only one such order. */
  lemma {:induction false} OneOrder(info: Infos, s: seq<int>, t: seq<int>, fInTried: bool)
    requires Ascending(s) && Ascending(t) && Lists(info, s, fInTried) && Lists(info, t, fInTried)
    ensures s == t
  {
    var ids := set id | id in info && info[id].fInTried == fInTried;
    ListedOnce(info, s, ids, fInTried);
    ListedOnce(info, t, ids, fInTried);
    SameAscending(s, t);
  }

  lemma {:induction false} SameAscending(s: seq<int>, t: seq<int>)
    requires Ascending(s) && Ascending(t) && |s| == |t| && forall x :: x in s <==> x in t
    ensures s == t
    decreases |s|
  {
    if s != [] {
      assert s[0] in s && t[0] in t;
      assert s[0] in t && t[0] in s;
      assert s[0] == t[0];
      forall x ensures x in s[1..] <==> x in t[1..] {
        assert x in s[1..] ==> x in s && x != s[0];
        assert x in t[1..] ==> x in t && x != t[0];
      }
      SameAscending(s[1..], t[1..]);
    }
  }

  lemma ListedOnce(info: Infos, ids: seq<int>, s: set<int>, fInTried: bool)
    requires Lists(info, ids, fInTried) && s == set id | id in info && info[id].fInTried == fInTried
    ensures |ids| == |s|
  {
    forall x | x in ids ensures x in s {
      var i :| 0 <= i < |ids| && ids[i] == x;
    }
    forall x | x in s ensures x in ids { assert x in info && info[x].fInTried == fInTried; }
    var e := set x | x in ids;
    assert s == e;
    ElementCount(ids);
  }

  lemma {:induction false} ElementCount(ids: seq<int>)
    requires forall i, j :: 0 <= i < j < |ids| ==> ids[i] != ids[j]
    ensures |set x | x in ids| == |ids|
  {
    if ids != [] {
      var rest := ids[1..];
      ElementCount(rest);
      assert (set x | x in ids) == {ids[0]} + set x | x in rest;
    }
  }

  lemma SavedWellFormed(m: State, ns: seq<int>, ts: seq<int>)
    requires Consistent(m) && Orders(m, ns, ts)
    ensures |ns| == m.nNew && |ts| == m.nTried
    ensures Complete(SavedAs(m, ns, ts)) && Usable(SavedAs(m, ns, ts))
  {
    assert NewIds(m.info) - {} == NewIds(m.info);
    ListedOnce(m.info, ns, NewIds(m.info), false);
    ListedOnce(m.info, ts, TriedIds(m.info), true);
    XorAssociates(NEW_BUCKET_COUNT, BUCKETS_MARK, BUCKETS_MARK);
    XorSelf(BUCKETS_MARK);
  }

  // ---------- the entries come back ----------

  /** Entry id of t is entry d of the file, in the given table. */
  predicate IsEntry(t: State, id: int, d: Data, fInTried: bool) {
    id in t.info && t.info[id] == Info(Persisted(d), 0, fInTried, t.info[id].nRandomPos)
  }

  /** Everything of s is still in t. */
  ghost predicate Extends(s: State, t: State) {
    && t.k == s.k && t.newTable == s.newTable && t.nIdCount >= s.nIdCount
    && (forall id :: id in s.info ==> id in t.info && t.info[id] == s.info[id])
    && (forall id :: id in t.info ==> id in s.info || s.nIdCount <= id < t.nIdCount)
  }

  lemma NewStep(s: State, d: Data)
    requires IdsOk(s.info, s.nIdCount)
    ensures var u := RestoredNew(s, d, true);
      && Extends(s, u) && IsEntry(u, s.nIdCount, d, false) && IdsOk(u.info, u.nIdCount)
      && u.nNew == s.nNew + 1 && u.nTried == s.nTried && u.nIdCount == s.nIdCount + 1 && u.triedTable == s.triedTable
  {
  }

  lemma {:induction false} RestoreNewEntries(s: State, ds: seq<Data>)
    requires IdsOk(s.info, s.nIdCount)
    ensures var t := RestoreNew(s, ds, true);
      && Extends(s, t) && Listed(t, s.nIdCount, ds, false) && IdsOk(t.info, t.nIdCount)
      && t.nNew == s.nNew + |ds| && t.nTried == s.nTried && t.nIdCount == s.nIdCount + |ds|
      && t.triedTable == s.triedTable
    decreases |ds|
  {
    if ds != [] {
      var u := RestoredNew(s, ds[0], true);
      NewStep(s, ds[0]);
      RestoreNewEntries(u, ds[1..]);
      var t := RestoreNew(u, ds[1..], true);
      ExtendsTrans(s, u, t);
      ListedMore(u, t, s.nIdCount, ds, false);
    }
  }

  /** The tried entries have different slots, which are free. */
  ghost predicate FreeSlots(k: Placing, triedTable: Table, ds: seq<Data>) {
    && (forall i :: 0 <= i < |ds| ==> Free(triedTable, TriedSlot(k, ds[i].service)))
    && forall i, j :: 0 <= i < j < |ds| ==> TriedSlot(k, ds[i].service) != TriedSlot(k, ds[j].service)
  }

  /** Each entry is in its slot, and the other slots are as before. */
  ghost predicate TriedFilled(k: Placing, before: Table, after: Table, ds: seq<Data>, first: int) {
    && after.Keys == before.Keys
    && (forall j :: 0 <= j < |ds| ==>
          TriedSlot(k, ds[j].service) in after && after[TriedSlot(k, ds[j].service)] == first + j)
    && forall sl :: sl in before && (forall j :: 0 <= j < |ds| ==> sl != TriedSlot(k, ds[j].service)) ==>
         after[sl] == before[sl]
  }

  lemma FreeSlotsRest(k: Placing, triedTable: Table, ds: seq<Data>, id: int)
    requires ds != [] && FreeSlots(k, triedTable, ds)
    ensures FreeSlots(k, triedTable[TriedSlot(k, ds[0].service) := id], ds[1..])
  {
  }

  lemma TriedFilledMore(k: Placing, before: Table, after: Table, ds: seq<Data>, first: int)
    requires ds != [] && FreeSlots(k, before, ds)
    requires TriedFilled(k, before[TriedSlot(k, ds[0].service) := first], after, ds[1..], first + 1)
    ensures TriedFilled(k, before, after, ds, first)
  {
    forall j | 0 <= j < |ds|
      ensures TriedSlot(k, ds[j].service) in after && after[TriedSlot(k, ds[j].service)] == first + j
    {
      if j > 0 {
        assert ds[j] == ds[1..][j - 1];
      } else {
        assert forall i :: 0 <= i < |ds[1..]| ==> TriedSlot(k, ds[1..][i].service) != TriedSlot(k, ds[0].service);
      }
    }
    forall sl | sl in before && (forall j :: 0 <= j < |ds| ==> sl != TriedSlot(k, ds[j].service))
      ensures after[sl] == before[sl]
    {
      assert forall j :: 0 <= j < |ds[1..]| ==> sl != TriedSlot(k, ds[1..][j].service);
    }
  }

  lemma TriedStep(s: State, d: Data)
    requires IdsOk(s.info, s.nIdCount) && Free(s.triedTable, TriedSlot(s.k, d.service))
    ensures var u := RestoredTried(s, d);
      && Extends(s, u) && IsEntry(u, s.nIdCount, d, true) && IdsOk(u.info, u.nIdCount)
      && u.nNew == s.nNew && u.nTried == s.nTried + 1 && u.nIdCount == s.nIdCount + 1
      && u.triedTable == s.triedTable[TriedSlot(s.k, d.service) := s.nIdCount]
  {
  }

  lemma ExtendsTrans(s: State, t: State, u: State)
    requires Extends(s, t) && Extends(t, u)
    ensures Extends(s, u)
  {
  }

  /** The entries from id `first` on are those of the list. */
  ghost predicate Listed(t: State, first: int, ds: seq<Data>, fInTried: bool) {
    forall j :: 0 <= j < |ds| ==> IsEntry(t, first + j, ds[j], fInTried)
  }

  lemma ListedMore(u: State, t: State, first: int, ds: seq<Data>, fInTried: bool)
    requires ds != [] && IsEntry(u, first, ds[0], fInTried) && Extends(u, t) && Listed(t, first + 1, ds[1..], fInTried)
    ensures Listed(t, first, ds, fInTried)
  {
    forall j | 0 <= j < |ds| ensures IsEntry(t, first + j, ds[j], fInTried) {
      if j > 0 { assert IsEntry(t, first + 1 + (j - 1), ds[1..][j - 1], fInTried); }
    }
  }

  lemma TriedNone(s: State)
    ensures Extends(s, s) && Listed(s, s.nIdCount, [], true)
    ensures TriedFilled(s.k, s.triedTable, s.triedTable, [], s.nIdCount)
  {
  }

  lemma {:induction false} RestoreTriedEntries(s: State, ds: seq<Data>)
    requires IdsOk(s.info, s.nIdCount) && FreeSlots(s.k, s.triedTable, ds)
    ensures var t := RestoreTried(s, ds);
      && Extends(s, t) && Listed(t, s.nIdCount, ds, true)
      && t.nNew == s.nNew && t.nTried == s.nTried + |ds| && t.nIdCount == s.nIdCount + |ds|
      && TriedFilled(s.k, s.triedTable, t.triedTable, ds, s.nIdCount)
    decreases |ds|
  {
    hide Extends, Listed, IsEntry, TriedFilled, RestoredTried;
    if ds == [] {
      TriedNone(s);
    } else {
      var u := RestoredTried(s, ds[0]);
      TriedStep(s, ds[0]);
      FreeSlotsRest(s.k, s.triedTable, ds, s.nIdCount);
      RestoreTriedEntries(u, ds[1..]);
      var t := RestoreTried(u, ds[1..]);
      ExtendsTrans(s, u, t);
      ListedMore(u, t, s.nIdCount, ds, true);
      TriedFilledMore(s.k, s.triedTable, t.triedTable, ds, s.nIdCount);
    }
  }

  // ---------- the new table comes back ----------

  /** Slots in the order in which they are saved. */
  predicate Before(sl: Slot, b: int, i: int) { sl.0 < b || (sl.0 == b && sl.1 < i) }

  /** The slots before (b, i) hold the renamed entries, the others nothing. */
  ghost predicate Filled(now: Table, saved: Table, ns: seq<int>, b: int, i: int) {
    forall sl :: sl in now ==> sl in saved && now[sl] == if Before(sl, b, i) then NewIndex(ns, saved[sl]) else -1
  }

  /** The entries numbered by ns are, as far as they are saved, those of m. */
  ghost predicate Matches(m: State, t: State, ns: seq<int>) {
    && t.k == m.k
    && forall n :: 0 <= n < |ns| ==>
         && ns[n] in m.info && n in t.info && !t.info[n].fInTried
         && t.info[n].data == Persisted(m.info[ns[n]].data)
  }

  lemma IndexUnique(ns: seq<int>, n: int)
    requires 0 <= n < |ns| && forall i, j :: 0 <= i < j < |ns| ==> ns[i] != ns[j]
    ensures NewIndex(ns, ns[n]) == n
  {
  }

  /** Before a reference is restored, its entry has fewer references than it had when saved. */
  lemma FewerRefs(m: State, t: State, ns: seq<int>, b: int, i: int, n: int)
    requires Consistent(m) && Placed(t) && Matches(m, t, ns) && Lists(m.info, ns, false)
    requires Filled(t.newTable, m.newTable, ns, b, i)
    requires 0 <= n < |ns| && (b, i) in m.newTable && m.newTable[(b, i)] == ns[n]
    ensures t.info[n].nRefCount < NEW_BUCKETS_PER_ADDRESS
  {
    var now, saved := RefSlots(t.newTable, n), RefSlots(m.newTable, ns[n]);
    forall sl | sl in now ensures sl in saved && sl != (b, i) {
      assert Before(sl, b, i);
      assert ns[NewIndex(ns, m.newTable[sl])] == m.newTable[sl];
    }
    assert now <= saved - {(b, i)};
    Fewer(now, saved, (b, i));
  }

  lemma Fewer<T>(a: set<T>, b: set<T>, x: T)
    requires a <= b - {x} && x in b
    ensures |a| < |b|
  {
    Smaller(a, b - {x});
  }

  lemma {:induction false} Smaller<T>(a: set<T>, b: set<T>)
    requires a <= b
    ensures |a| <= |b|
    decreases |a|
  {
    if a != {} {
      var x :| x in a;
      Smaller(a - {x}, b - {x});
    }
  }

  /** A saved index goes back to the slot it came from. */
  lemma SlotRestored(m: State, t: State, ns: seq<int>, b: int, i: int)
    requires Consistent(m) && Placed(t) && Matches(m, t, ns) && Lists(m.info, ns, false)
    requires Filled(t.newTable, m.newTable, ns, b, i)
    requires 0 <= b < NEW_BUCKET_COUNT && 0 <= i < BUCKET_SIZE && m.newTable[(b, i)] != -1
    ensures var n := NewIndex(ns, m.newTable[(b, i)]);
      var u := Bucketed(t, |ns|, b, n);
      Accepts(t, |ns|, b, n) && Matches(m, u, ns) && OnlyRefs(t, u) && Filled(u.newTable, m.newTable, ns, b, i + 1)
  {
    hide RandomOk, AddrOk, IdsOk, RefsOk;
    var id := m.newTable[(b, i)];
    assert NewSlotOk(m.k, m.info, (b, i), id) && id in ns;
    var n := NewIndex(ns, id);
    assert ns[n] == id;
    FewerRefs(m, t, ns, b, i, n);
    assert NewSlotIn(t.k, t.info[n].data.service, b) == (b, i);
    FilledMore(t.newTable, m.newTable, ns, b, i);
    assert Bucketed(t, |ns|, b, n) == Referred(t, (b, i), n);
    MatchesMore(m, t, ns, (b, i), n);
  }

  lemma FilledMore(now: Table, saved: Table, ns: seq<int>, b: int, i: int)
    requires Filled(now, saved, ns, b, i) && (b, i) in now
    ensures (b, i) in saved && Filled(now[(b, i) := NewIndex(ns, saved[(b, i)])], saved, ns, b, i + 1)
  {
  }

  lemma MatchesMore(m: State, t: State, ns: seq<int>, sl: Slot, n: int)
    requires Matches(m, t, ns) && n in t.info
    ensures Matches(m, Referred(t, sl, n), ns) && OnlyRefs(t, Referred(t, sl, n))
  {
  }

  /** The states differ only in references to new entries. */
  ghost predicate OnlyRefs(t: State, u: State) {
    && u == t.(newTable := u.newTable, info := u.info)
    && u.info.Keys == t.info.Keys
    && forall id :: id in t.info ==> u.info[id] == t.info[id].(nRefCount := u.info[id].nRefCount)
  }

  lemma OnlyRefsSelf(t: State)
    ensures OnlyRefs(t, t)
  {
  }

  lemma OnlyRefsTrans(s: State, t: State, u: State)
    requires OnlyRefs(s, t) && OnlyRefs(t, u)
    ensures OnlyRefs(s, u)
  {
  }

  lemma EmptySlotSkipped(m: State, t: State, ns: seq<int>, b: int, i: int)
    requires Linked(m) && Lists(m.info, ns, false) && Filled(t.newTable, m.newTable, ns, b, i)
    requires (b, i) in m.newTable && m.newTable[(b, i)] == -1
    ensures Filled(t.newTable, m.newTable, ns, b, i + 1)
  {
    assert -1 !in ns;
  }

  /** What the restored part of the new table has to satisfy on the way. */
  ghost predicate Refilling(m: State, t: State, ns: seq<int>, b: int, i: int) {
    Loading(t) && NewBelow(t.info, |ns|) && Matches(m, t, ns) && Filled(t.newTable, m.newTable, ns, b, i)
  }

  lemma NextBucket(m: State, t: State, ns: seq<int>, b: int)
    requires Refilling(m, t, ns, b, BUCKET_SIZE)
    ensures Refilling(m, t, ns, b + 1, 0)
  {
    forall sl | sl in t.newTable ensures Before(sl, b, BUCKET_SIZE) == Before(sl, b + 1, 0) {
      assert (sl.0, sl.1) in t.newTable;
    }
  }

  lemma NextSlot(m: State, t: State, ns: seq<int>, b: int, i: int)
    requires Consistent(m) && Lists(m.info, ns, false) && Refilling(m, t, ns, b, i)
    requires 0 <= b < NEW_BUCKET_COUNT && 0 <= i < BUCKET_SIZE && m.newTable[(b, i)] != -1
    ensures var u := Bucketed(t, |ns|, b, NewIndex(ns, m.newTable[(b, i)]));
      OnlyRefs(t, u) && Refilling(m, u, ns, b, i + 1)
  {
    SlotRestored(m, t, ns, b, i);
    BucketedLoading(t, |ns|, b, NewIndex(ns, m.newTable[(b, i)]));
  }

  /** Filling a bucket from what was saved of it, from a position on, restores it. */
  ghost predicate Refills(m: State, t: State, ns: seq<int>, b: int, i: int)
    requires IsTable(m.newTable, NEW_BUCKET_COUNT) && 0 <= b < NEW_BUCKET_COUNT && 0 <= i <= BUCKET_SIZE
  {
    var u := FillBucket(t, |ns|, b, SavedBucket(m.newTable, ns, b, i));
    OnlyRefs(t, u) && Refilling(m, u, ns, b + 1, 0)
  }

  lemma RefillsEnd(m: State, t: State, ns: seq<int>, b: int)
    requires IsTable(m.newTable, NEW_BUCKET_COUNT) && 0 <= b < NEW_BUCKET_COUNT && Refilling(m, t, ns, b, BUCKET_SIZE)
    ensures Refills(m, t, ns, b, BUCKET_SIZE)
  {
    NextBucket(m, t, ns, b);
    OnlyRefsSelf(t);
  }

  lemma RefillsTake(m: State, t: State, u: State, ns: seq<int>, b: int, i: int)
    requires IsTable(m.newTable, NEW_BUCKET_COUNT) && 0 <= b < NEW_BUCKET_COUNT && 0 <= i < BUCKET_SIZE
    requires m.newTable[(b, i)] != -1 && u == Bucketed(t, |ns|, b, NewIndex(ns, m.newTable[(b, i)]))
    requires OnlyRefs(t, u) && Refills(m, u, ns, b, i + 1)
    ensures Refills(m, t, ns, b, i)
  {
    var n, rest := NewIndex(ns, m.newTable[(b, i)]), SavedBucket(m.newTable, ns, b, i + 1);
    FillFirst(t, |ns|, b, n, rest);
    OnlyRefsTrans(t, u, FillBucket(u, |ns|, b, rest));
  }

  lemma RefillsSkip(m: State, t: State, ns: seq<int>, b: int, i: int)
    requires IsTable(m.newTable, NEW_BUCKET_COUNT) && 0 <= b < NEW_BUCKET_COUNT && 0 <= i < BUCKET_SIZE
    requires m.newTable[(b, i)] == -1 && Refills(m, t, ns, b, i + 1)
    ensures Refills(m, t, ns, b, i)
  {
    hide Refilling, OnlyRefs, FillBucket;
  }

  lemma NextEmptySlot(m: State, t: State, ns: seq<int>, b: int, i: int)
    requires Linked(m) && Lists(m.info, ns, false) && Refilling(m, t, ns, b, i)
    requires (b, i) in m.newTable && m.newTable[(b, i)] == -1
    ensures Refilling(m, t, ns, b, i + 1)
  {
    hide Filled, Loading, Matches, NewBelow, Linked, Lists;
    EmptySlotSkipped(m, t, ns, b, i);
  }

  lemma {:induction false} BucketRestored(m: State, t: State, ns: seq<int>, b: int, i: int)
    requires Consistent(m) && Lists(m.info, ns, false) && Refilling(m, t, ns, b, i)
    requires 0 <= b < NEW_BUCKET_COUNT && 0 <= i <= BUCKET_SIZE
    ensures Refills(m, t, ns, b, i)
    decreases BUCKET_SIZE - i
  {
    hide Refilling, Refills, OnlyRefs, Bucketed, NewIndex, Lists;
    if i == BUCKET_SIZE {
      RefillsEnd(m, t, ns, b);
    } else if m.newTable[(b, i)] == -1 {
      NextEmptySlot(m, t, ns, b, i);
      BucketRestored(m, t, ns, b, i + 1);
      RefillsSkip(m, t, ns, b, i);
    } else {
      var u := Bucketed(t, |ns|, b, NewIndex(ns, m.newTable[(b, i)]));
      NextSlot(m, t, ns, b, i);
      BucketRestored(m, u, ns, b, i + 1);
      RefillsTake(m, t, u, ns, b, i);
    }
  }

  lemma FillFirst(t: State, nNew: nat, b: nat, n: int, rest: seq<int>)
    ensures FillBucket(t, nNew, b, [n] + rest) == FillBucket(Bucketed(t, nNew, b, n), nNew, b, rest)
  {
    assert ([n] + rest)[1..] == rest;
  }

  lemma {:induction false} BucketsRestored(m: State, t: State, ns: seq<int>, b: int)
    requires Consistent(m) && Lists(m.info, ns, false) && Refilling(m, t, ns, b, 0) && 0 <= b <= NEW_BUCKET_COUNT
    ensures var u := FillBuckets(t, |ns|, b, SavedBuckets(m.newTable, ns, b));
      OnlyRefs(t, u) && Refilling(m, u, ns, NEW_BUCKET_COUNT, 0)
    decreases NEW_BUCKET_COUNT - b
  {
    hide Refilling, OnlyRefs, Lists, FillBucket, SavedBucket;
    if b == NEW_BUCKET_COUNT {
      OnlyRefsSelf(t);
    } else {
      var first, rest := SavedBucket(m.newTable, ns, b, 0), SavedBuckets(m.newTable, ns, b + 1);
      BucketRestored(m, t, ns, b, 0);
      var u := FillBucket(t, |ns|, b, first);
      BucketsRestored(m, u, ns, b + 1);
      FillFirstBucket(t, |ns|, b, first, rest);
      OnlyRefsTrans(t, u, FillBuckets(u, |ns|, b + 1, rest));
    }
  }

  lemma FillFirstBucket(t: State, nNew: nat, b: nat, first: seq<int>, rest: seq<seq<int>>)
    ensures FillBuckets(t, nNew, b, [first] + rest) == FillBuckets(FillBucket(t, nNew, b, first), nNew, b + 1, rest)
  {
    assert ([first] + rest)[1..] == rest;
  }

  /** With the whole table back, the reference counts are back too. */
  lemma RefsRestored(m: State, t: State, ns: seq<int>, n: int)
    requires Consistent(m) && Lists(m.info, ns, false) && Refilling(m, t, ns, NEW_BUCKET_COUNT, 0) && 0 <= n < |ns|
    ensures t.info[n].nRefCount == m.info[ns[n]].nRefCount >= 1
  {
    hide RandomOk, AddrOk, TriedOk, RefSlots;
    IndexUnique(ns, n);
    SameRefSlots(t.newTable, m.newTable, ns, n);
  }

  lemma SameRefSlots(now: Table, saved: Table, ns: seq<int>, n: int)
    requires IsTable(now, NEW_BUCKET_COUNT) && IsTable(saved, NEW_BUCKET_COUNT)
    requires Filled(now, saved, ns, NEW_BUCKET_COUNT, 0)
    requires 0 <= n < |ns| && NewIndex(ns, ns[n]) == n
    ensures RefSlots(now, n) == RefSlots(saved, ns[n])
  {
    SameGrid(now, saved, NEW_BUCKET_COUNT);
    assert ns[n] in ns;
    forall sl | sl in now ensures sl in saved && (now[sl] == n <==> saved[sl] == ns[n]) {
      assert InGrid((sl.0, sl.1), NEW_BUCKET_COUNT);
    }
  }

  // ---------- the round trip ----------

  /** The id an entry has after loading. */
  function NewId(ns: seq<int>, ts: seq<int>, id: int): int {
    if id in ns then IndexOf(ns, id) else if id in ts then |ns| + IndexOf(ts, id) else -1
  }

  /** The same address in the same table with the same references, and all that is saved about it. */
  predicate SameEntry(i: Info, j: Info) {
    j == Info(Persisted(i.data), i.nRefCount, i.fInTried, j.nRandomPos)
  }

  /** t is m with other ids: the same entries, the same tables, the same counters, the same key. */
  ghost predicate SameManager(m: State, t: State, ns: seq<int>, ts: seq<int>) {
    && t.k == m.k && t.nNew == m.nNew && t.nTried == m.nTried
    && (forall id :: id in m.info ==> NewId(ns, ts, id) in t.info && SameEntry(m.info[id], t.info[NewId(ns, ts, id)]))
    && (forall id :: id in t.info ==> 0 <= id < |ns| + |ts|)
    && t.newTable.Keys == m.newTable.Keys && t.triedTable.Keys == m.triedTable.Keys
    && (forall sl :: sl in m.newTable ==> t.newTable[sl] == NewId(ns, ts, m.newTable[sl]))
    && (forall sl :: sl in m.triedTable ==> t.triedTable[sl] == NewId(ns, ts, m.triedTable[sl]))
  }

  /** Entries of one manager have different addresses. */
  lemma SavedAddresses(m: State, ns: seq<int>, ts: seq<int>)
    requires AddrOk(m.info, m.addr) && Orders(m, ns, ts)
    ensures FreshAddresses(Entries(m.info, ns) + Entries(m.info, ts), map[])
  {
    var ids, ds := ns + ts, Entries(m.info, ns) + Entries(m.info, ts);
    forall i, j | 0 <= i < j < |ds| ensures ds[i].service.ip != ds[j].service.ip {
      assert ids[i] in m.info && ids[j] in m.info && ids[i] != ids[j];
      assert ds[i] == Persisted(m.info[ids[i]].data) && ds[j] == Persisted(m.info[ids[j]].data);
    }
  }

  /** Tried entries have different slots. */
  lemma SavedSlots(m: State, ts: seq<int>, triedTable: Table)
    requires Consistent(m) && Lists(m.info, ts, true) && IsEmptyTable(triedTable, TRIED_BUCKET_COUNT)
    ensures FreeSlots(m.k, triedTable, Entries(m.info, ts))
  {
    var ds := Entries(m.info, ts);
    forall i | 0 <= i < |ds| ensures Free(triedTable, TriedSlot(m.k, ds[i].service)) {
      assert TriedSlot(m.k, ds[i].service) == TriedSlot(m.k, m.info[ts[i]].data.service);
    }
    forall i, j | 0 <= i < j < |ds| ensures TriedSlot(m.k, ds[i].service) != TriedSlot(m.k, ds[j].service) {
      assert m.triedTable[TriedSlot(m.k, m.info[ts[i]].data.service)] == ts[i];
      assert m.triedTable[TriedSlot(m.k, m.info[ts[j]].data.service)] == ts[j];
    }
  }

  lemma ListedKept(a: State, b: State, first: int, ds: seq<Data>, fInTried: bool)
    requires Listed(a, first, ds, fInTried) && Extends(a, b)
    ensures Listed(b, first, ds, fInTried)
  {
    forall j | 0 <= j < |ds| ensures IsEntry(b, first + j, ds[j], fInTried) {
      assert IsEntry(a, first + j, ds[j], fInTried);
    }
  }

  /** What has come back when the lists ds and es of entries have been read. */
  ghost predicate EntriesBack(blank: State, b: State, ds: seq<Data>, es: seq<Data>) {
    && Listed(b, 0, ds, false) && Listed(b, |ds|, es, true)
    && b.nNew == |ds| && b.nTried == |es|
    && b.newTable == blank.newTable && b.k == blank.k
    && TriedFilled(blank.k, blank.triedTable, b.triedTable, es, |ds|)
    && (forall id :: id in b.info ==> 0 <= id < |ds| + |es|)
  }

  lemma ReadBack(blank: State, ds: seq<Data>, es: seq<Data>)
    requires Blank(blank) && FreeSlots(blank.k, blank.triedTable, es)
    ensures EntriesBack(blank, RestoreTried(RestoreNew(blank, ds, true), es), ds, es)
  {
    RestoreNewEntries(blank, ds);
    var a := RestoreNew(blank, ds, true);
    RestoreTriedEntries(a, es);
    var b := RestoreTried(a, es);
    ListedKept(a, b, 0, ds, false);
  }

  /** The state when the entries have been read, before the bucket lists. */
  lemma EntriesLoading(blank: State, ds: seq<Data>, es: seq<Data>)
    requires Blank(blank)
    ensures var b := RestoreTried(RestoreNew(blank, ds, true), es);
      Loading(b) && NewBelow(b.info, |ds|)
  {
    hide Loading;
    BlankLoading(blank);
    RestoreNewLoading(blank, ds, true);
    RestoreTriedLoading(RestoreNew(blank, ds, true), es, |ds|);
  }

  lemma EntriesMatch(m: State, blank: State, b: State, ns: seq<int>, ts: seq<int>)
    requires Linked(m) && Orders(m, ns, ts) && Blank(blank) && blank.k == m.k && Loading(b) && NewBelow(b.info, |ns|)
    requires EntriesBack(blank, b, Entries(m.info, ns), Entries(m.info, ts))
    ensures Refilling(m, b, ns, 0, 0)
  {
    hide Loading, NewBelow, Matches, Filled, Lists, Listed, TriedFilled, IsEmptyTable;
    EntriesThere(m, b, ns);
    NothingFilled(b.newTable, m.newTable, ns);
  }

  lemma EntriesThere(m: State, b: State, ns: seq<int>)
    requires b.k == m.k && Lists(m.info, ns, false) && Listed(b, 0, Entries(m.info, ns), false)
    ensures Matches(m, b, ns)
  {
    forall n | 0 <= n < |ns|
      ensures n in b.info && !b.info[n].fInTried && b.info[n].data == Persisted(m.info[ns[n]].data)
    {
      assert IsEntry(b, 0 + n, Entries(m.info, ns)[n], false);
    }
  }

  lemma NothingFilled(now: Table, saved: Table, ns: seq<int>)
    requires IsEmptyTable(now, NEW_BUCKET_COUNT) && IsTable(saved, NEW_BUCKET_COUNT)
    ensures Filled(now, saved, ns, 0, 0)
  {
    SameGrid(now, saved, NEW_BUCKET_COUNT);
    NoneBefore(now, NEW_BUCKET_COUNT);
  }

  lemma NoneBefore(t: Table, buckets: nat)
    requires IsTable(t, buckets)
    ensures forall sl :: sl in t ==> !Before(sl, 0, 0)
  {
    forall sl | sl in t ensures !Before(sl, 0, 0) {
      assert (sl.0, sl.1) in t;
      assert InGrid((sl.0, sl.1), buckets);
    }
  }

  lemma GridIncluded(t: Table, u: Table, buckets: nat)
    requires IsTable(t, buckets) && IsTable(u, buckets)
    ensures t.Keys <= u.Keys
  {
    forall sl | sl in t ensures sl in u {
      assert (sl.0, sl.1) in t;
      assert InGrid((sl.0, sl.1), buckets);
      assert (sl.0, sl.1) in u;
    }
  }

  lemma SameGrid(t: Table, u: Table, buckets: nat)
    requires IsTable(t, buckets) && IsTable(u, buckets)
    ensures t.Keys == u.Keys
  {
    GridIncluded(t, u, buckets);
    GridIncluded(u, t, buckets);
  }

  lemma {:induction false} PruneNothing(s: State, todo: set<int>)
    requires RandomOk(s.info, s.random) && todo <= s.info.Keys && forall id :: id in todo ==> !Loose(s.info, id)
    ensures Prune(s, todo) == s
    decreases |todo|
  {
    if todo != {} { PruneNothing(s, todo - {Least(todo)}); }
  }

  lemma NewEntryBack(m: State, u: State, ns: seq<int>, id: int)
    requires Consistent(m) && Lists(m.info, ns, false) && Refilling(m, u, ns, NEW_BUCKET_COUNT, 0)
    requires id in m.info && !m.info[id].fInTried
    ensures id in ns && IndexOf(ns, id) in u.info && SameEntry(m.info[id], u.info[IndexOf(ns, id)])
  {
    RefsRestored(m, u, ns, IndexOf(ns, id));
  }

  lemma TriedEntryBack(i: Info, b: State, u: State, first: int, ds: seq<Data>, j: int)
    requires Listed(b, first, ds, true) && OnlyRefs(b, u) && Placed(u)
    requires 0 <= j < |ds| && ds[j] == Persisted(i.data) && i.fInTried && i.nRefCount == 0
    ensures first + j in u.info && SameEntry(i, u.info[first + j])
  {
    hide RandomOk, IdsOk, NewOk, TriedOk, RefsOk;
    assert IsEntry(b, first + j, ds[j], true);
    PlacedHasNoTried(u, first + j);
  }

  lemma TriedIdBack(m: State, b: State, u: State, ns: seq<int>, ts: seq<int>, id: int)
    requires Consistent(m) && Lists(m.info, ts, true) && Placed(u) && OnlyRefs(b, u)
    requires Listed(b, |ns|, Entries(m.info, ts), true) && id in m.info && m.info[id].fInTried
    ensures id in ts && |ns| + IndexOf(ts, id) in u.info && SameEntry(m.info[id], u.info[|ns| + IndexOf(ts, id)])
  {
    hide OnlyRefs, Listed, SameEntry, RandomOk, AddrOk, NewOk, TriedOk, RefsOk, Counted;
    NewTableHasNoTried(m, id);
    assert id in ts;
    TriedEntryBack(m.info[id], b, u, |ns|, Entries(m.info, ts), IndexOf(ts, id));
  }

  lemma EntryBack(m: State, b: State, u: State, ns: seq<int>, ts: seq<int>, id: int)
    requires Consistent(m) && Orders(m, ns, ts) && Refilling(m, u, ns, NEW_BUCKET_COUNT, 0) && OnlyRefs(b, u)
    requires Listed(b, |ns|, Entries(m.info, ts), true) && id in m.info
    ensures NewId(ns, ts, id) in u.info && SameEntry(m.info[id], u.info[NewId(ns, ts, id)])
  {
    hide Consistent, OnlyRefs, Listed, SameEntry, Filled, Matches, RandomOk, AddrOk, NewOk, TriedOk, RefsOk;
    if m.info[id].fInTried {
      assert id !in ns;
      TriedIdBack(m, b, u, ns, ts, id);
    } else {
      NewEntryBack(m, u, ns, id);
    }
  }

  lemma NewTableBack(m: State, u: State, ns: seq<int>, ts: seq<int>)
    requires Consistent(m) && Orders(m, ns, ts) && Refilling(m, u, ns, NEW_BUCKET_COUNT, 0)
    ensures u.newTable.Keys == m.newTable.Keys
    ensures forall sl :: sl in m.newTable ==> u.newTable[sl] == NewId(ns, ts, m.newTable[sl])
  {
    SameGrid(u.newTable, m.newTable, NEW_BUCKET_COUNT);
    forall sl | sl in m.newTable ensures u.newTable[sl] == NewId(ns, ts, m.newTable[sl]) {
      assert InGrid((sl.0, sl.1), NEW_BUCKET_COUNT);
      assert Before(sl, NEW_BUCKET_COUNT, 0);
      assert m.newTable[sl] !in ts;
    }
  }

  lemma TriedSlotBack(m: State, before: Table, after: Table, ns: seq<int>, ts: seq<int>, sl: Slot)
    requires Consistent(m) && Orders(m, ns, ts) && sl in m.triedTable && sl in before && before[sl] == -1
    requires TriedFilled(m.k, before, after, Entries(m.info, ts), |ns|)
    ensures after[sl] == NewId(ns, ts, m.triedTable[sl])
  {
    var id, ds := m.triedTable[sl], Entries(m.info, ts);
    if id == -1 {
      assert -1 !in ns && -1 !in ts;
      forall j | 0 <= j < |ds| ensures sl != TriedSlot(m.k, ds[j].service) {
        assert m.triedTable[TriedSlot(m.k, m.info[ts[j]].data.service)] == ts[j];
      }
    } else {
      assert id in ts && id !in ns;
      assert ds[IndexOf(ts, id)] == Persisted(m.info[id].data);
    }
  }

  lemma TriedTableBack(m: State, before: Table, after: Table, ns: seq<int>, ts: seq<int>)
    requires Consistent(m) && Orders(m, ns, ts) && IsEmptyTable(before, TRIED_BUCKET_COUNT)
    requires TriedFilled(m.k, before, after, Entries(m.info, ts), |ns|)
    ensures after.Keys == m.triedTable.Keys
    ensures forall sl :: sl in m.triedTable ==> after[sl] == NewId(ns, ts, m.triedTable[sl])
  {
    SameGrid(before, m.triedTable, TRIED_BUCKET_COUNT);
    forall sl | sl in m.triedTable ensures after[sl] == NewId(ns, ts, m.triedTable[sl]) {
      TriedSlotBack(m, before, after, ns, ts, sl);
    }
  }

  lemma NothingLoose(m: State, b: State, u: State, ns: seq<int>, ts: seq<int>)
    requires Consistent(m) && Orders(m, ns, ts) && Refilling(m, u, ns, NEW_BUCKET_COUNT, 0) && OnlyRefs(b, u)
    requires Listed(b, |ns|, Entries(m.info, ts), true) && (forall id :: id in b.info ==> 0 <= id < |ns| + |ts|)
    ensures forall id :: id in u.info ==> !Loose(u.info, id)
  {
    forall id | id in u.info ensures !Loose(u.info, id) {
      if id < |ns| {
        RefsRestored(m, u, ns, id);
      } else {
        assert IsEntry(b, |ns| + (id - |ns|), Entries(m.info, ts)[id - |ns|], true);
      }
    }
  }

  lemma SameAsSaved(m: State, blank: State, b: State, u: State, ns: seq<int>, ts: seq<int>)
    requires Consistent(m) && Blank(blank) && blank.k == m.k && Orders(m, ns, ts) && |ns| == m.nNew && |ts| == m.nTried
    requires EntriesBack(blank, b, Entries(m.info, ns), Entries(m.info, ts))
    requires OnlyRefs(b, u) && Refilling(m, u, ns, NEW_BUCKET_COUNT, 0)
    ensures SameManager(m, u, ns, ts) && (forall id :: id in u.info ==> !Loose(u.info, id))
  {
    hide Consistent, Refilling, Loose, TriedFilled, Listed, SameEntry, Lists, NewId;
    NewTableBack(m, u, ns, ts);
    TriedTableBack(m, blank.triedTable, b.triedTable, ns, ts);
    NothingLoose(m, b, u, ns, ts);
    forall id | id in m.info ensures NewId(ns, ts, id) in u.info && SameEntry(m.info[id], u.info[NewId(ns, ts, id)]) {
      EntryBack(m, b, u, ns, ts, id);
    }
  }

  /** The whole of what loading rebuilds from a saved manager. */
  lemma RebuiltSaved(m: State, blank: State, ns: seq<int>, ts: seq<int>)
    requires Consistent(m) && Blank(blank) && blank.k == m.k && Orders(m, ns, ts)
    ensures |ns| == m.nNew && |ts| == m.nTried
    ensures var u := Rebuilt(blank, SavedAs(m, ns, ts));
      && Loading(u) && SameManager(m, u, ns, ts) && (forall id :: id in u.info ==> !Loose(u.info, id))
  {
    hide Rebuilt, RestoreNew, RestoreTried, FillBuckets, SavedBuckets, Loading, EntriesBack, OnlyRefs, SameManager;
    hide RandomOk, AddrOk, IdsOk, TriedOk, RefsOk, Counted, Loose, Matches, Filled, NewBelow, Complete;
    var ds, es := Entries(m.info, ns), Entries(m.info, ts);
    SavedWellFormed(m, ns, ts);
    RebuiltParts(blank, SavedAs(m, ns, ts));
    SavedSlots(m, ts, blank.triedTable);
    EntriesLoading(blank, ds, es);
    ReadBack(blank, ds, es);
    var b := RestoreTried(RestoreNew(blank, ds, true), es);
    EntriesMatch(m, blank, b, ns, ts);
    BucketsRestored(m, b, ns, 0);
    SameAsSaved(m, blank, b, FillBuckets(b, |ns|, 0, SavedBuckets(m.newTable, ns, 0)), ns, ts);
  }

  // ---------- the limits of the file ----------

  ghost function Grid(buckets: nat): set<Slot> {
    set b, p | 0 <= b < buckets && 0 <= p < BUCKET_SIZE :: (b, p)
  }

  ghost function Row(b: int, n: nat): set<Slot> { set p | 0 <= p < n :: (b, p) }

  lemma {:induction false} RowSize(b: int, n: nat)
    ensures |Row(b, n)| == n
  {
    if n > 0 {
      RowSize(b, n - 1);
      assert Row(b, n) == Row(b, n - 1) + {(b, n - 1)};
    }
  }

  lemma {:induction false} GridSize(buckets: nat)
    ensures |Grid(buckets)| == buckets * BUCKET_SIZE
  {
    if buckets > 0 {
      GridSize(buckets - 1);
      RowSize(buckets - 1, BUCKET_SIZE);
      assert Grid(buckets) == Grid(buckets - 1) + Row(buckets - 1, BUCKET_SIZE);
      assert Grid(buckets - 1) !! Row(buckets - 1, BUCKET_SIZE);
    }
  }

  /** There are no more ids in a table than slots. */
  lemma {:induction false} IdsFit(table: Table, ids: set<int>, slots: set<Slot>)
    requires forall id :: id in ids ==> exists sl :: sl in slots && sl in table && table[sl] == id
    ensures |ids| <= |slots|
    decreases |ids|
  {
    NonEmpty(ids);
    if ids != {} {
      var id :| id in ids;
      var sl :| sl in slots && sl in table && table[sl] == id;
      forall x | x in ids - {id} ensures exists y :: y in slots - {sl} && y in table && table[y] == x {
        var y :| y in slots && y in table && table[y] == x;
        assert y in slots - {sl};
      }
      IdsFit(table, ids - {id}, slots - {sl});
    }
  }

  lemma SlotInGrid(t: Table, buckets: nat, sl: Slot)
    requires IsTable(t, buckets) && sl in t
    ensures sl in Grid(buckets)
  {
    assert (sl.0, sl.1) in t;
    assert InGrid((sl.0, sl.1), buckets);
  }

  lemma NewFit(k: Placing, info: Infos, newTable: Table)
    requires NewOk(k, info, newTable) && RefsOk(info, newTable)
    requires forall id :: id in NewIds(info) ==> info[id].nRefCount > 0
    ensures |NewIds(info)| <= NEW_BUCKET_COUNT * BUCKET_SIZE
  {
    forall id | id in NewIds(info)
      ensures exists sl :: sl in Grid(NEW_BUCKET_COUNT) && sl in newTable && newTable[sl] == id
    {
      assert RefSlots(newTable, id) != {};
      var sl :| sl in RefSlots(newTable, id);
      SlotInGrid(newTable, NEW_BUCKET_COUNT, sl);
    }
    IdsFit(newTable, NewIds(info), Grid(NEW_BUCKET_COUNT));
    GridSize(NEW_BUCKET_COUNT);
  }

  lemma TriedFit(k: Placing, info: Infos, triedTable: Table)
    requires TriedOk(k, info, triedTable)
    ensures |TriedIds(info)| <= TRIED_BUCKET_COUNT * BUCKET_SIZE
  {
    forall id | id in TriedIds(info)
      ensures exists sl :: sl in Grid(TRIED_BUCKET_COUNT) && sl in triedTable && triedTable[sl] == id
    {
      SlotInGrid(triedTable, TRIED_BUCKET_COUNT, TriedSlot(k, info[id].data.service));
    }
    IdsFit(triedTable, TriedIds(info), Grid(TRIED_BUCKET_COUNT));
    GridSize(TRIED_BUCKET_COUNT);
  }

  /** A consistent manager is never too large to be loaded again. */
  lemma NeverRefused(m: State)
    requires Consistent(m)
    ensures m.nNew <= NEW_BUCKET_COUNT * BUCKET_SIZE && m.nTried <= TRIED_BUCKET_COUNT * BUCKET_SIZE
  {
    hide RandomOk, AddrOk, IdsOk, NewOk, TriedOk, RefsOk;
    NewFit(m.k, m.info, m.newTable);
    TriedFit(m.k, m.info, m.triedTable);
    assert NewIds(m.info) - {} == NewIds(m.info);
  }

  /**
   * Saving and loading loses nothing: the file is accepted, the result is consistent, and up to new ids it has the
   * same entries, the same tables, the same reference counts and the same counters.
   */
  lemma SaveLoad(m: State, blank: State, ns: seq<int>, ts: seq<int>)
    requires Consistent(m) && Blank(blank) && blank.k == m.k && Orders(m, ns, ts)
    ensures m.nNew >= 0 && m.nTried >= 0
    ensures var f := SavedAs(m, ns, ts);
      var u := Rebuilt(blank, f);
      && Complete(f) && !Refused(f) && Loading(u)
      && var t := Prune(u, u.info.Keys);
         Consistent(t) && SameManager(m, t, ns, ts)
  {
    SavedWellFormed(m, ns, ts);
    NeverRefused(m);
    RebuiltSaved(m, blank, ns, ts);
    var u := Rebuilt(blank, SavedAs(m, ns, ts));
    PruneNothing(u, u.info.Keys);
    SavedAddresses(m, ns, ts);
    DistinctLoaded(blank, SavedAs(m, ns, ts));
  }
}
