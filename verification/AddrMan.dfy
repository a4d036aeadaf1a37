/** The address manager as the object it is: indexes and tables updated in place, step by step. */
module AddrManClass {
  import opened Basics
  import opened AddrManState
  import opened AddrManOps
  import opened AddrManRuns

  /** The array holds exactly the table. */
  ghost predicate Holds(a: array2<int>, buckets: nat, table: Table)
    reads a
  {
    && a.Length0 == buckets && a.Length1 == BUCKET_SIZE
    && IsTable(table, buckets)
    && forall b, p :: 0 <= b < buckets && 0 <= p < BUCKET_SIZE ==> table[(b, p)] == a[b, p]
  }

  /** A table in which the buckets below `bucket` no longer hold an id. */
  ghost function WithoutBelow(table: Table, id: int, bucket: int): Table {
    map sl | sl in table :: if table[sl] == id && sl.0 < bucket then -1 else table[sl]
  }

  /** Within one bucket an entry can only be at the position its hash determines. */
  lemma WithoutBelowStep(s: State, id: int, bucket: int)
    requires Linked(s) && id in s.info && 0 <= bucket < NEW_BUCKET_COUNT
    ensures var sl := NewSlotIn(s.k, s.info[id].data.service, bucket);
      var t := WithoutBelow(s.newTable, id, bucket);
      && sl in t
      && WithoutBelow(s.newTable, id, bucket + 1) == if t[sl] == id then t[sl := -1] else t
  {
  }

  lemma WithoutBelowNone(s: State, id: int)
    requires Linked(s) && id in s.info
    ensures Dropping(s, s, id, 0)
  {
    assert WithoutBelow(s.newTable, id, 0) == s.newTable;
  }

  /** Without the reference to an entry from one bucket, if there is one. */
  ghost function WithoutIn(s: State, id: int, bucket: int): State
    requires Linked(s) && id in s.info && 0 <= bucket < NEW_BUCKET_COUNT
  {
    var sl := NewSlotIn(s.k, s.info[id].data.service, bucket);
    if s.newTable[sl] == id then Unref(s, sl) else s
  }

  /** t is s without the references to an entry from the buckets below `bucket`. */
  ghost predicate Dropping(s: State, t: State, id: int, bucket: int) {
    && id in s.info && id in t.info
    && t == s.(info := s.info[id := s.info[id].(nRefCount := t.info[id].nRefCount)],
               newTable := WithoutBelow(s.newTable, id, bucket))
  }

  lemma DroppingStep(s: State, t: State, id: int, bucket: int)
    requires Linked(s) && Linked(t) && 0 <= bucket < NEW_BUCKET_COUNT && Dropping(s, t, id, bucket)
    ensures Dropping(s, WithoutIn(t, id, bucket), id, bucket + 1)
  {
    WithoutBelowStep(s, id, bucket);
  }

  lemma WithoutBelowAll(s: State, id: int)
    requires Linked(s)
    ensures WithoutBelow(s.newTable, id, NEW_BUCKET_COUNT) == Without(s.newTable, id)
  {
  }

  lemma DroppedAll(s: State, t: State, id: int)
    requires Linked(s) && Linked(t) && Dropping(s, t, id, NEW_BUCKET_COUNT)
    ensures t == RemoveRefs(s, id)
  {
    hide RandomOk, AddrOk, TriedOk;
    WithoutBelowAll(s, id);
    WithoutRefs(s.newTable, id);
  }

  function BucketAt(n: nat, rnd: nat): (b: int)
    ensures 0 <= b < NEW_BUCKET_COUNT
  {
    (n + rnd) % NEW_BUCKET_COUNT
  }

  ghost predicate InBucket(s: State, id: int, b: int) {
    id in s.info && b >= 0 &&
    var sl := NewSlotIn(s.k, s.info[id].data.service, b);
    sl in s.newTable && s.newTable[sl] == id
  }

  /** An entry with a reference is in some bucket, and a search of all buckets meets it. */
  lemma SomeBucket(s: State, id: int, rnd: nat) returns (m: int)
    requires Linked(s) && id in s.info && s.info[id].nRefCount > 0
    ensures 0 <= m < NEW_BUCKET_COUNT && InBucket(s, id, BucketAt(m, rnd))
  {
    assert RefSlots(s.newTable, id) != {};
    var sl :| sl in RefSlots(s.newTable, id);
    m := (sl.0 - rnd) % NEW_BUCKET_COUNT;
    assert BucketAt(m, rnd) == sl.0;
  }

  method Blank(a: array2<int>)
    modifies a
    ensures forall b, p :: 0 <= b < a.Length0 && 0 <= p < a.Length1 ==> a[b, p] == -1
  {
    for bucket := 0 to a.Length0
      invariant forall b, p :: 0 <= b < bucket && 0 <= p < a.Length1 ==> a[b, p] == -1
    {
      for entry := 0 to a.Length1
        invariant forall b, p :: 0 <= b < bucket && 0 <= p < a.Length1 ==> a[b, p] == -1
        invariant forall p :: 0 <= p < entry ==> a[bucket, p] == -1
      {
        a[bucket, entry] := -1;
      }
    }
  }

  class AddrMan {
    const net: Net
    var nKey: Key
    var nIdCount: int
    var mapInfo: map<int, Info>
    var mapAddr: map<NetAddr, int>
    var vRandom: seq<int>
    var nTried: int
    const vvTried: array2<int>
    var nNew: int
    const vvNew: array2<int>
    var nLastGood: int
    var triedCollisions: set<int>

    // the contents of the two tables
    ghost var triedTable: Table
    ghost var newTable: Table

    ghost predicate Shaped()
      reads this`triedTable, this`newTable, vvTried, vvNew
    {
      && vvTried != vvNew
      && Holds(vvTried, TRIED_BUCKET_COUNT, triedTable)
      && Holds(vvNew, NEW_BUCKET_COUNT, newTable)
    }

    /** The whole state as a value. */
    ghost function Snap(): State
      reads this
    {
      State(Placing(net, nKey), nIdCount, mapInfo, mapAddr, vRandom,
            nTried, triedTable, nNew, newTable, nLastGood, triedCollisions)
    }

    ghost predicate Valid()
      reads this, vvTried, vvNew
    {
      Shaped() && Linked(Snap())
    }

    constructor (net: Net, key: Key)
      ensures Shaped() && fresh(vvTried) && fresh(vvNew)
      ensures Snap() == Fresh(Placing(net, key))
    {
      this.net := net;
      nKey := key;
      triedCollisions := {};
      vvTried := new int[TRIED_BUCKET_COUNT, BUCKET_SIZE];
      vvNew := new int[NEW_BUCKET_COUNT, BUCKET_SIZE];
      new;
      Clear(key);
    }

    /** Forgets everything except the queued collisions; key is the new random key. */
    method Clear(key: Key)
      requires vvTried != vvNew
      requires vvTried.Length0 == TRIED_BUCKET_COUNT && vvTried.Length1 == BUCKET_SIZE
      requires vvNew.Length0 == NEW_BUCKET_COUNT && vvNew.Length1 == BUCKET_SIZE
      modifies this, vvTried, vvNew
      ensures Shaped()
      ensures Snap() == Fresh(Placing(net, key)).(collisions := old(triedCollisions))
    {
      hide Holds, EmptyTable;
      vRandom := [];
      nKey := key;
      ClearTables();
      nIdCount, nTried, nNew, nLastGood := 0, 0, 0, 1;
      mapInfo, mapAddr := map[], map[];
    }

    method ClearTables()
      requires vvTried != vvNew
      requires vvTried.Length0 == TRIED_BUCKET_COUNT && vvTried.Length1 == BUCKET_SIZE
      requires vvNew.Length0 == NEW_BUCKET_COUNT && vvNew.Length1 == BUCKET_SIZE
      modifies vvTried, vvNew, this`triedTable, this`newTable
      ensures Shaped()
      ensures triedTable == EmptyTable(TRIED_BUCKET_COUNT) && newTable == EmptyTable(NEW_BUCKET_COUNT)
    {
      Blank(vvNew);
      Blank(vvTried);
      newTable := EmptyTable(NEW_BUCKET_COUNT);
      triedTable := EmptyTable(TRIED_BUCKET_COUNT);
      assert IsTable(newTable, NEW_BUCKET_COUNT);
      assert Holds(vvTried, TRIED_BUCKET_COUNT, triedTable);
    }

    method SetNew(b: int, p: int, id: int)
      requires Shaped() && 0 <= b < NEW_BUCKET_COUNT && 0 <= p < BUCKET_SIZE
      modifies this`newTable, vvNew
      ensures Shaped() && newTable == old(newTable)[(b, p) := id]
    {
      vvNew[b, p] := id;
      newTable := newTable[(b, p) := id];
    }

    method SetTried(b: int, p: int, id: int)
      requires Shaped() && 0 <= b < TRIED_BUCKET_COUNT && 0 <= p < BUCKET_SIZE
      modifies this`triedTable, vvTried
      ensures Shaped() && triedTable == old(triedTable)[(b, p) := id]
    {
      vvTried[b, p] := id;
      triedTable := triedTable[(b, p) := id];
    }

    method Find(ip: NetAddr) returns (found: bool, id: int)
      requires AddrOk(mapInfo, mapAddr)
      ensures found <==> ip in mapAddr
      ensures found ==> id in mapInfo && id == mapAddr[ip] && mapInfo[id].data.service.ip == ip
    {
      if ip !in mapAddr { return false, 0; }
      id := mapAddr[ip];
      found := id in mapInfo;
    }

    method Create(a: Address, source: NetAddr) returns (id: int)
      requires Valid() && a.service.ip !in mapAddr
      modifies this`nIdCount, this`mapInfo, this`mapAddr, this`vRandom
      ensures id == old(nIdCount)
      ensures Shaped() && Snap() == AddrManOps.Create(old(Snap()), a, source).(nNew := old(nNew))
    {
      id := nIdCount;
      nIdCount := nIdCount + 1;
      mapInfo := mapInfo[id := Info(Data(a.service, a.nServices, a.nTime, source, 0, 0, 0, 0), 0, false, -1)];
      mapAddr := mapAddr[a.service.ip := id];
      mapInfo := mapInfo[id := mapInfo[id].(nRandomPos := |vRandom|)];
      vRandom := vRandom + [id];
      assert mapInfo == old(mapInfo)[id := mapInfo[id]];
    }

    method SwapRandom(i: int, j: int)
      requires RandomOk(mapInfo, vRandom)
      requires 0 <= i < |vRandom| && 0 <= j < |vRandom|
      modifies this`mapInfo, this`vRandom
      ensures RandomOk(mapInfo, vRandom) && Snap() == AddrManOps.SwapRandom(old(Snap()), i, j)
    {
      SwapRandomReshuffles(Snap(), i, j);
      if i == j { return; }
      var id1, id2 := vRandom[i], vRandom[j];
      assert id1 in mapInfo && id2 in mapInfo;
      mapInfo := mapInfo[id1 := mapInfo[id1].(nRandomPos := j)];
      mapInfo := mapInfo[id2 := mapInfo[id2].(nRandomPos := i)];
      vRandom := vRandom[i := id2][j := id1];
    }

    method Delete(id: int)
      requires Shaped() && RandomOk(mapInfo, vRandom)
      requires id in mapInfo && !mapInfo[id].fInTried && mapInfo[id].nRefCount == 0
      modifies this`mapInfo, this`mapAddr, this`vRandom, this`nNew
      ensures Shaped() && Snap() == AddrManOps.Delete(old(Snap()), id)
    {
      hide Holds, DropLast, AddrManOps.SwapRandom;
      SwapRandomReshuffles(Snap(), mapInfo[id].nRandomPos, |vRandom| - 1);
      SwapRandom(mapInfo[id].nRandomPos, |vRandom| - 1);
      RemoveLast(id);
    }

    method RemoveLast(id: int)
      requires id in mapInfo && vRandom != []
      modifies this`mapInfo, this`mapAddr, this`vRandom, this`nNew
      ensures Snap() == DropLast(old(Snap()), id)
    {
      vRandom := vRandom[..|vRandom| - 1];
      mapAddr := mapAddr - {mapInfo[id].data.service.ip};
      mapInfo := mapInfo - {id};
      nNew := nNew - 1;
    }

    /** Takes one reference out of an occupied slot. */
    method DropRef(b: int, p: int)
      requires Valid() && 0 <= b < NEW_BUCKET_COUNT && 0 <= p < BUCKET_SIZE && vvNew[b, p] != -1
      modifies this`mapInfo, this`newTable, vvNew
      ensures Shaped() && Snap() == Unref(old(Snap()), (b, p))
    {
      var id := vvNew[b, p];
      ReferenceCounts(Snap(), (b, p));
      assert mapInfo[id].nRefCount > 0;
      mapInfo := mapInfo[id := mapInfo[id].(nRefCount := mapInfo[id].nRefCount - 1)];
      SetNew(b, p, -1);
    }

    method ClearNew(b: int, p: int)
      requires Valid() && 0 <= b < NEW_BUCKET_COUNT && 0 <= p < BUCKET_SIZE
      modifies this, vvNew
      ensures Shaped() && Snap() == AddrManOps.ClearNew(old(Snap()), (b, p))
    {
      if vvNew[b, p] != -1 {
        var id := vvNew[b, p];
        DropRef(b, p);
        if mapInfo[id].nRefCount == 0 {
          Delete(id);
        }
      }
    }

    /** Removes an entry from one bucket. */
    method DropFrom(bucket: int, id: int)
      requires Valid() && id in mapInfo && 0 <= bucket < NEW_BUCKET_COUNT
      modifies this`mapInfo, this`newTable, vvNew
      ensures Valid() && Snap() == WithoutIn(old(Snap()), id, bucket)
    {
      var pos := BucketPosition(net, nKey, true, bucket, mapInfo[id].data.service);
      if vvNew[bucket, pos] == id {
        DropRef(bucket, pos);
      }
    }

    /** Removes an entry from all new buckets. */
    method RemoveRefs(id: int)
      requires Valid() && id in mapInfo
      modifies this`mapInfo, this`newTable, vvNew
      ensures Shaped() && Snap() == AddrManOps.RemoveRefs(old(Snap()), id)
    {
      hide Shaped, AddrOk, TriedOk, RandomOk, NewOk, RefsOk, WithoutIn;
      ghost var s := Snap();
      WithoutBelowNone(s, id);
      for bucket := 0 to NEW_BUCKET_COUNT
        invariant Valid() && Dropping(s, Snap(), id, bucket)
      {
        DroppingStep(s, Snap(), id, bucket);
        DropFrom(bucket, id);
      }
      DroppedAll(s, Snap(), id);
    }

    /** Takes a tried entry out of the tried table. */
    method LeaveTried(id: int)
      requires Valid() && id in mapInfo && mapInfo[id].fInTried
      modifies this`mapInfo, this`triedTable, this`nTried, vvTried
      ensures Shaped() && Snap() == Untry(old(Snap()), id)
    {
      var a := mapInfo[id].data.service;
      var kBucket := TriedBucket(net, nKey, a);
      mapInfo := mapInfo[id := mapInfo[id].(fInTried := false)];
      SetTried(kBucket, BucketPosition(net, nKey, false, kBucket, a), -1);
      nTried := nTried - 1;
    }

    /** Gives an entry its first reference, from an empty slot. */
    method EnterNew(b: int, p: int, id: int)
      requires Valid() && 0 <= b < NEW_BUCKET_COUNT && 0 <= p < BUCKET_SIZE && vvNew[b, p] == -1
      requires NewSlotOk(Placing(net, nKey), mapInfo, (b, p), id) && mapInfo[id].nRefCount == 0
      modifies this`mapInfo, this`newTable, this`nNew, vvNew
      ensures Shaped() && Snap() == Readmit(old(Snap()), (b, p), id)
    {
      hide RandomOk, AddrOk, RefsOk, TriedOk;
      mapInfo := mapInfo[id := mapInfo[id].(nRefCount := 1)];
      SetNew(b, p, id);
      nNew := nNew + 1;
    }

    /** Moves a tried entry back to the new table. */
    method Evict(id: int)
      requires Valid() && id in mapInfo && mapInfo[id].fInTried
      modifies this, vvTried, vvNew
      ensures Shaped() && Snap() == AddrManOps.Evict(old(Snap()), id)
    {
      hide RandomOk, AddrOk, RefsOk, Readmit, AddrManOps.ClearNew;
      ghost var s := Snap();
      var d := mapInfo[id].data;
      EvictFrame(s, id);
      NewTableHasNoTried(s, id);
      LeaveTried(id);
      var uBucket := NewBucket(net, nKey, d.service, d.source);
      var uPos := BucketPosition(net, nKey, true, uBucket, d.service);
      ClearNew(uBucket, uPos);
      EnterNew(uBucket, uPos, id);
    }

    /** The first half of MakeTried: leaves the new table and frees the tried slot. */
    method MakeRoom(id: int) returns (kBucket: int, kPos: int)
      requires Valid() && id in mapInfo && !mapInfo[id].fInTried
      modifies this, vvTried, vvNew
      ensures Shaped() && Snap() == Vacate(old(Snap()), id)
      ensures (kBucket, kPos) == TriedSlot(Placing(net, nKey), old(mapInfo)[id].data.service)
      ensures 0 <= kBucket < TRIED_BUCKET_COUNT && 0 <= kPos < BUCKET_SIZE
    {
      hide RandomOk, AddrOk, IdsOk, NewOk, RefsOk, AddrManOps.Evict, AddrManOps.RemoveRefs;
      RemoveRefs(id);
      nNew := nNew - 1;
      assert Snap() == Unlist(old(Snap()), id);
      kBucket := TriedBucket(net, nKey, mapInfo[id].data.service);
      kPos := BucketPosition(net, nKey, false, kBucket, mapInfo[id].data.service);
      if vvTried[kBucket, kPos] != -1 {
        Evict(vvTried[kBucket, kPos]);
      }
    }

    method MakeTried(id: int)
      requires Valid() && id in mapInfo && !mapInfo[id].fInTried
      modifies this, vvTried, vvNew
      ensures Shaped() && Snap() == AddrManOps.MakeTried(old(Snap()), id)
    {
      var kBucket, kPos := MakeRoom(id);
      assert vvTried[kBucket, kPos] == -1;
      Enter(id, kBucket, kPos);
    }

    method Enter(id: int, kBucket: int, kPos: int)
      requires Valid() && id in mapInfo && !mapInfo[id].fInTried && mapInfo[id].nRefCount == 0
      requires (kBucket, kPos) == TriedSlot(Placing(net, nKey), mapInfo[id].data.service)
      requires triedTable[(kBucket, kPos)] == -1
      modifies this, vvTried
      ensures Shaped() && Snap() == Try(old(Snap()), id)
    {
      SetTried(kBucket, kPos, id);
      nTried := nTried + 1;
      mapInfo := mapInfo[id := mapInfo[id].(fInTried := true)];
    }

    /** Searches the new buckets for an entry, starting anywhere; the result is never -1. */
    method FindBucket(id: int, rnd: nat) returns (uBucket: int)
      requires Valid() && id in mapInfo && mapInfo[id].nRefCount > 0
      ensures 0 <= uBucket < NEW_BUCKET_COUNT
      ensures newTable[NewSlotIn(Placing(net, nKey), mapInfo[id].data.service, uBucket)] == id
    {
      uBucket := -1;
      var n := 0;
      while n < NEW_BUCKET_COUNT
        invariant 0 <= n <= NEW_BUCKET_COUNT && uBucket == -1
        invariant forall m :: 0 <= m < n ==> !InBucket(Snap(), id, BucketAt(m, rnd))
      {
        var b := BucketAt(n, rnd);
        var pos := BucketPosition(net, nKey, true, b, mapInfo[id].data.service);
        if vvNew[b, pos] == id {
          uBucket := b;
          break;
        }
        n := n + 1;
      }
      ghost var m := SomeBucket(Snap(), id, rnd);
    }

    method Promote(id: int, testBeforeEvict: bool, rnd: nat)
      requires Valid() && id in mapInfo && !mapInfo[id].fInTried && mapInfo[id].nRefCount > 0
      modifies this, vvTried, vvNew
      ensures Shaped() && Snap() == AddrManOps.Promote(old(Snap()), id, testBeforeEvict)
    {
      var uBucket := FindBucket(id, rnd);
      assert uBucket != -1;  // so there is nothing to bail out of
      var kBucket := TriedBucket(net, nKey, mapInfo[id].data.service);
      var kPos := BucketPosition(net, nKey, false, kBucket, mapInfo[id].data.service);
      if testBeforeEvict && vvTried[kBucket, kPos] != -1 {
        if |triedCollisions| < SET_TRIED_COLLISION_SIZE {
          triedCollisions := triedCollisions + {id};
        }
      } else {
        MakeTried(id);
      }
    }

    method Good(a: Service, testBeforeEvict: bool, nTime: int, rnd: nat)
      requires Shaped() && Consistent(Snap())
      modifies this, vvTried, vvNew
      ensures Shaped() && Snap() == AddrManOps.Good(old(Snap()), a, testBeforeEvict, nTime)
    {
      ghost var s := Snap().(nLastGood := nTime);
      assert Linked(s);
      nLastGood := nTime;
      var found, id := Find(a.ip);
      if !found { return; }
      if mapInfo[id].data.service != a { return; }
      var d := mapInfo[id].data.(nLastSuccess := nTime, nLastTry := nTime, nAttempts := 0);
      mapInfo := mapInfo[id := mapInfo[id].(data := d)];
      assert Snap() == WithData(s, id, d);
      if mapInfo[id].fInTried { return; }
      Promote(id, testBeforeEvict, rnd);
    }

    method TakeSlot(id: int, b: int, p: int)
      requires Valid() && 0 <= b < NEW_BUCKET_COUNT && 0 <= p < BUCKET_SIZE
      requires newTable[(b, p)] != id && NewSlotOk(Placing(net, nKey), mapInfo, (b, p), id)
      modifies this, vvNew
      ensures Shaped() && Snap() == AddrManOps.TakeSlot(old(Snap()), id, (b, p))
    {
      hide RandomOk, AddrOk, IdsOk, RefsOk;
      ClearNew(b, p);
      assert Kept(old(Snap()), Snap(), id);
      mapInfo := mapInfo[id := mapInfo[id].(nRefCount := mapInfo[id].nRefCount + 1)];
      SetNew(b, p, id);
    }

    /** The last part of Add_: a reference in the slot the source selects, if that may be taken. */
    method Refer(id: int, source: NetAddr, now: int)
      requires Valid() && id in mapInfo && !mapInfo[id].fInTried
      modifies this, vvNew
      ensures Shaped() && Snap() == AddrManOps.Refer(old(Snap()), id, source, now)
    {
      var uBucket := NewBucket(net, nKey, mapInfo[id].data.service, source);
      var uPos := BucketPosition(net, nKey, true, uBucket, mapInfo[id].data.service);
      if vvNew[uBucket, uPos] != id {
        var insert := vvNew[uBucket, uPos] == -1;
        if !insert {
          var existing := mapInfo[vvNew[uBucket, uPos]];
          if IsTerrible(existing.data, now) || (existing.nRefCount > 1 && mapInfo[id].nRefCount == 0) {
            insert := true;
          }
        }
        if insert {
          TakeSlot(id, uBucket, uPos);
        } else if mapInfo[id].nRefCount == 0 {
          Delete(id);
        }
      }
    }

    /** Add_ for an address that has entry `id`. */
    method AddKnown(id: int, a: Address, source: NetAddr, penalty: int, now: int, rnd: nat)
      requires Valid() && id in mapInfo
      modifies this, vvNew
      ensures Shaped() && Snap() == AddrManOps.AddKnown(old(Snap()), id, a, source, penalty, now, rnd)
    {
      hide RandomOk, AddrOk, IdsOk, NewOk, TriedOk, RefsOk, Holds, Pow2, AddrManOps.Refer;
      ghost var s := Snap();
      var d := mapInfo[id].data;
      var interval := if now - a.nTime < 24 * 60 * 60 then 60 * 60 else 24 * 60 * 60;
      if a.nTime != 0 && (d.nTime == 0 || d.nTime < a.nTime - interval - penalty) {
        d := d.(nTime := Max(0, a.nTime - penalty));
      }
      d := d.(nServices := d.nServices + a.nServices);
      mapInfo := mapInfo[id := mapInfo[id].(data := d)];
      assert Snap() == WithData(s, id, Announced(s.info[id].data, a, penalty, now));
      var declined := Declines(id, a, rnd);
      if !declined {
        Refer(id, source, now);
      }
    }

    /** Add_ for an address without an entry. */
    method AddUnknown(a: Address, source: NetAddr, penalty: int, now: int)
      requires Valid() && a.service.ip !in mapAddr
      modifies this, vvNew
      ensures Shaped() && Snap() == AddrManOps.AddUnknown(old(Snap()), Penalised(a, penalty), source, now)
    {
      hide RandomOk, AddrOk, IdsOk, NewOk, TriedOk, RefsOk, Holds, AddrManOps.Refer;
      var id := Create(a, source);
      mapInfo := mapInfo[id := mapInfo[id].(data := mapInfo[id].data.(nTime := Max(0, a.nTime - penalty)))];
      nNew := nNew + 1;
      assert Snap() == AddrManOps.Create(old(Snap()), Penalised(a, penalty), source);
      Refer(id, source, now);
    }

    /** now is the adjusted time, rnd the random number drawn for the stochastic test. */
    method Add(a: Address, source: NetAddr, nTimePenalty: int, now: int, rnd: nat) returns (isNew: bool)
      requires Valid()
      modifies this, vvNew
      ensures Shaped() && (Snap(), isNew) == AddrManOps.Add(old(Snap()), a, source, nTimePenalty, now, rnd)
    {
      if !net.routable(a.service.ip) { return false; }
      var penalty := nTimePenalty;
      if a.service.ip == source { penalty := 0; }
      var found, id := Find(a.service.ip);
      if found {
        AddKnown(id, a, source, penalty, now, rnd);
        isNew := false;
      } else {
        AddUnknown(a, source, penalty, now);
        isNew := true;
      }
    }

    /** The early returns of Add_ for a known address. */
    method Declines(id: int, a: Address, rnd: nat) returns (declined: bool)
      requires id in mapInfo
      ensures declined == Declined(mapInfo[id], a, rnd)
    {
      var i := mapInfo[id];
      if a.nTime == 0 || (i.data.nTime != 0 && a.nTime <= i.data.nTime) { return true; }
      if i.fInTried { return true; }
      if i.nRefCount == NEW_BUCKETS_PER_ADDRESS { return true; }
      var factor, n := 1, 0;
      while n < i.nRefCount
        invariant 0 <= n && (n <= i.nRefCount || n == 0) && factor == Pow2(n)
      {
        factor := factor * 2;
        n := n + 1;
      }
      assert factor == Pow2(Max(0, i.nRefCount));
      declined := factor > 1 && rnd % factor != 0;
    }

    method Attempt(a: Service, fCountFailure: bool, nTime: int)
      requires Valid()
      modifies this`mapInfo
      ensures Shaped() && Snap() == AddrManRuns.Attempt(old(Snap()), a, fCountFailure, nTime)
    {
      var found, id := Find(a.ip);
      if !found { return; }
      if mapInfo[id].data.service != a { return; }
      var d := mapInfo[id].data.(nLastTry := nTime);
      if fCountFailure && d.nLastCountAttempt < nLastGood {
        d := d.(nLastCountAttempt := nTime, nAttempts := d.nAttempts + 1);
      }
      mapInfo := mapInfo[id := mapInfo[id].(data := d)];
    }

    method Connected(a: Service, nTime: int)
      requires Valid()
      modifies this`mapInfo
      ensures Shaped() && Snap() == AddrManRuns.Connected(old(Snap()), a, nTime)
    {
      var found, id := Find(a.ip);
      if !found { return; }
      var i := mapInfo[id];
      if i.data.service != a { return; }
      var updateInterval := 20 * 60;
      if nTime - i.data.nTime > updateInterval {
        mapInfo := mapInfo[id := i.(data := i.data.(nTime := nTime))];
      } else {
        assert mapInfo == mapInfo[id := i.(data := i.data)];
      }
    }

    method SetServices(a: Service, nServices: ServiceFlags)
      requires Valid()
      modifies this`mapInfo
      ensures Shaped() && Snap() == AddrManRuns.SetServices(old(Snap()), a, nServices)
    {
      var found, id := Find(a.ip);
      if !found { return; }
      var i := mapInfo[id];
      if i.data.service != a { return; }
      mapInfo := mapInfo[id := i.(data := i.data.(nServices := nServices))];
    }

    /** draw(n) is the random number drawn at position n. */
    method GetAddr(now: int, draw: nat -> nat) returns (addrs: seq<Address>)
      requires RandomOk(mapInfo, vRandom)
      modifies this`mapInfo, this`vRandom
      ensures (Snap(), addrs) == AddrManRuns.GetAddr(old(Snap()), now, draw)
    {
      hide GetAddrFrom, IsTerrible;
      var nNodes := GETADDR_MAX_PCT * |vRandom| / 100;
      if nNodes > GETADDR_MAX {
        nNodes := GETADDR_MAX;
      }
      addrs := [];
      var n := 0;
      while n < |vRandom|
        invariant RandomOk(mapInfo, vRandom) && 0 <= n <= |vRandom|
        invariant nNodes == GetAddrLimit(|vRandom|)
        invariant GetAddrFrom(Snap(), n, addrs, nNodes, now, draw) == AddrManRuns.GetAddr(old(Snap()), now, draw)
        decreases |vRandom| - n
      {
        if |addrs| >= nNodes { break; }
        ghost var before := addrs;
        GetAddrStep(Snap(), n, addrs, nNodes, now, draw);
        SwapRandom(n, RandomPos(draw(n), n, |vRandom|));
        assert vRandom[n] in mapInfo;
        var ai := mapInfo[vRandom[n]].data;
        if !IsTerrible(ai, now) {
          addrs := addrs + [AddressOf(ai)];
        }
        assert addrs == Collected(before, ai, now);
        n := n + 1;
      }
      GetAddrEnd(Snap(), n, addrs, nNodes, now, draw);
    }

    method ResolveCollisions(now: int, rnd: nat)
      requires Shaped() && Safe(Snap())
      modifies this, vvTried, vvNew
      ensures Shaped() && Snap() == AddrManRuns.Resolve(old(Snap()), now)
    {
      hide RandomOk, AddrOk, NewOk, TriedOk, RefsOk, Counted, CollisionsOk, Holds, ResolveOne;
      var todo := triedCollisions;
      while todo != {}
        invariant Shaped() && Safe(Snap()) && todo <= triedCollisions
        invariant ResolveFrom(Snap(), todo, now) == AddrManRuns.Resolve(old(Snap()), now)
        decreases |todo|
      {
        LeastExists(todo);
        var id :| id in todo && IsLeast(todo, id);
        ResolveOneSafe(Snap(), id, now);
        StillQueued(Snap(), todo, id, now);
        ResolveCollision(id, now, rnd);
        todo := todo - {id};
      }
    }

    /** One queued id; that its tried slot is empty, which the source provides for, does not happen. */
    method ResolveCollision(id: int, now: int, rnd: nat)
      requires Shaped() && Safe(Snap()) && id in triedCollisions
      modifies this, vvTried, vvNew
      ensures Shaped() && Snap() == ResolveOne(old(Snap()), id, now)
    {
      hide RandomOk, NewOk, RefsOk, Counted, AddrManOps.Good, Evolves;
      if id in mapInfo {
        GoodEvolves(Snap(), mapInfo[id].data.service, false, now);
        QueuedCollides(Snap(), id);
      }
      var erase := false;
      if id !in mapInfo {
        erase := true;
      } else {
        var a := mapInfo[id].data.service;
        var kBucket := TriedBucket(net, nKey, a);
        var kPos := BucketPosition(net, nKey, false, kBucket, a);
        if !net.valid(a.ip) {
          erase := true;
        } else if vvTried[kBucket, kPos] != -1 {
          var o := mapInfo[vvTried[kBucket, kPos]].data;
          if now - o.nLastSuccess < REPLACEMENT_HOURS * (60 * 60) {
            erase := true;
          } else if now - o.nLastTry < REPLACEMENT_HOURS * (60 * 60) {
            if now - o.nLastTry > 60 {
              Good(a, false, now, rnd);
              erase := true;
            }
          }
        } else {
          assert false;
        }
      }
      if erase {
        triedCollisions := triedCollisions - {id};
      }
    }

    /** The tried entry that a randomly chosen queued entry wants to replace, if there is one. */
    method SelectTriedCollision(rnd: nat) returns (r: Option<Info>)
      requires Shaped() && Safe(Snap())
      modifies this`triedCollisions
      ensures Shaped() && (Snap(), r) == AddrManRuns.SelectTriedCollision(old(Snap()), rnd)
    {
      if triedCollisions == {} { return None; }
      var steps, rest := rnd % |triedCollisions|, triedCollisions;
      ghost var wanted := Nth(triedCollisions, steps);
      while steps > 0
        invariant 0 <= steps < |rest| && Nth(rest, steps) == wanted && rest <= triedCollisions == old(triedCollisions)
      {
        LeastExists(rest);
        var it :| it in rest && IsLeast(rest, it);
        rest := rest - {it};
        steps := steps - 1;
      }
      LeastExists(rest);
      var idNew :| idNew in rest && IsLeast(rest, idNew);
      assert idNew == Least(rest) == wanted;
      if idNew !in mapInfo {
        triedCollisions := triedCollisions - {idNew};
        return None;
      }
      assert Collides(Snap(), idNew);
      var a := mapInfo[idNew].data.service;
      var kBucket := TriedBucket(net, nKey, a);
      var kPos := BucketPosition(net, nKey, false, kBucket, a);
      var idOld := vvTried[kBucket, kPos];
      assert idOld == triedTable[(kBucket, kPos)];
      return Some(mapInfo[idOld]);
    }
  }
}
