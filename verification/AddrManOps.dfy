/** The operations of the address manager as functions on its state. */
module AddrManOps {
  import opened Basics
  import opened AddrManState

  // ---------- building blocks ----------

  function SwapRandom(s: State, i: int, j: int): State
    requires RandomOk(s.info, s.random)
    requires 0 <= i < |s.random| && 0 <= j < |s.random|
  {
    var id1, id2 := s.random[i], s.random[j];
    if i == j then s else
      s.(info := s.info[id1 := s.info[id1].(nRandomPos := j)][id2 := s.info[id2].(nRandomPos := i)],
         random := s.random[i := id2][j := id1])
  }

  /** Two states that differ only in the order of vRandom. */
  ghost predicate Reshuffled(s: State, t: State) {
    && RandomOk(t.info, t.random)
    && t == s.(random := t.random, info := t.info)
    && t.info.Keys == s.info.Keys
    && |t.random| == |s.random|
    && forall id :: id in s.info ==> t.info[id] == s.info[id].(nRandomPos := t.info[id].nRandomPos)
  }

  /** Two versions of an entry that differ at most in the place in vRandom. */
  predicate Same(i: Info, j: Info) {
    i == j.(nRandomPos := i.nRandomPos)
  }

  /** Two versions of an entry that agree on all that is known about the address itself. */
  predicate SameData(i: Info, j: Info) {
    i.data == j.data
  }

  /** The entries of t are among those of s, with the same data, and none is newly tried. */
  ghost predicate Descends(s: State, t: State) {
    && t.k == s.k && t.nIdCount == s.nIdCount && t.collisions == s.collisions && t.nLastGood == s.nLastGood
    && forall k :: k in t.info ==>
         k in s.info && SameData(s.info[k], t.info[k]) && (t.info[k].fInTried ==> s.info[k].fInTried)
  }

  /** Entry `id` is in both states, the same up to its place in vRandom. */
  predicate Kept(s: State, t: State, id: int) {
    id in s.info && id in t.info && Same(s.info[id], t.info[id])
  }

  lemma SwapRandomReshuffles(s: State, i: int, j: int)
    requires RandomOk(s.info, s.random)
    requires 0 <= i < |s.random| && 0 <= j < |s.random|
    ensures Reshuffled(s, SwapRandom(s, i, j))
    ensures SwapRandom(s, i, j).random[j] == s.random[i]
  {
  }

  lemma ReshuffledLinked(s: State, t: State)
    requires Reshuffled(s, t)
    ensures Linked(s) ==> Linked(t)
  {
  }

  /** A new entry, in no table yet but counted as new. */
  function Create(s: State, a: Address, source: NetAddr): (t: State)
    requires Linked(s)
    requires a.service.ip !in s.addr
    ensures Linked(t)
    ensures s.nIdCount in t.info && !t.info[s.nIdCount].fInTried && t.info[s.nIdCount].nRefCount == 0
  {
    var id := s.nIdCount;
    var i := Info(Data(a.service, a.nServices, a.nTime, source, 0, 0, 0, 0), 0, false, |s.random|);
    var t := s.(nIdCount := id + 1, info := s.info[id := i], addr := s.addr[a.service.ip := id],
                random := s.random + [id], nNew := s.nNew + 1);
    assert RefSlots(t.newTable, id) == {};
    t
  }

  /** Removes an entry that is in no table. */
  function Delete(s: State, id: int): State
    requires RandomOk(s.info, s.random) && id in s.info
  {
    SwapRandomReshuffles(s, s.info[id].nRandomPos, |s.random| - 1);
    DropLast(SwapRandom(s, s.info[id].nRandomPos, |s.random| - 1), id)
  }

  /** Deleting an entry leaves all others as they were. */
  lemma DeleteFrame(s: State, id: int)
    requires RandomOk(s.info, s.random) && id in s.info
    ensures var t := Delete(s, id);
      && Descends(s, t)
      && t.info.Keys == s.info.Keys - {id} && (forall k :: k in t.info ==> Kept(s, t, k))
      && t == s.(info := t.info, addr := t.addr, random := t.random, nNew := s.nNew - 1)
  {
    hide SwapRandom;
    SwapRandomReshuffles(s, s.info[id].nRandomPos, |s.random| - 1);
  }

  lemma DeleteLinked(s: State, id: int)
    requires Linked(s)
    requires id in s.info && !s.info[id].fInTried && s.info[id].nRefCount == 0
    ensures Linked(Delete(s, id))
  {
    hide AddrOk, IdsOk, NewOk, TriedOk, RefsOk, DropLast;
    var pos, last := s.info[id].nRandomPos, |s.random| - 1;
    SwapRandomReshuffles(s, pos, last);
    SwappedLinked(s, id, SwapRandom(s, pos, last));
  }

  lemma SwappedLinked(s: State, id: int, u: State)
    requires Linked(s) && Reshuffled(s, u)
    requires id in s.info && !s.info[id].fInTried && s.info[id].nRefCount == 0
    requires u.random != [] && u.random[|u.random| - 1] == id
    ensures Linked(DropLast(u, id))
  {
    ReshuffledLinked(s, u);
    DropLastLinked(u, id);
  }

  /** Removes the entry whose id is last in vRandom. */
  function DropLast(s: State, id: int): State
    requires id in s.info && s.random != []
  {
    s.(random := s.random[..|s.random| - 1], addr := s.addr - {s.info[id].data.service.ip},
       info := s.info - {id}, nNew := s.nNew - 1)
  }

  lemma NoRefs(s: State, id: int)
    requires RefsOk(s.info, s.newTable) && id in s.info && s.info[id].nRefCount == 0
    ensures forall sl :: sl in s.newTable ==> s.newTable[sl] != id
  {
    assert RefSlots(s.newTable, id) == {};
    forall sl | sl in s.newTable ensures s.newTable[sl] != id {
      assert sl !in RefSlots(s.newTable, id);
    }
  }

  lemma DropLastLinked(s: State, id: int)
    requires Linked(s)
    requires id in s.info && !s.info[id].fInTried && s.info[id].nRefCount == 0
    requires s.random != [] && s.random[|s.random| - 1] == id
    ensures Linked(DropLast(s, id))
  {
    NoRefs(s, id);
  }

  /** Takes one reference to an entry out of the new table. */
  function Unref(s: State, sl: Slot): (t: State)
    requires Linked(s)
    requires sl in s.newTable && s.newTable[sl] != -1
    ensures Linked(t)
  {
    var id := s.newTable[sl];
    var t := s.(newTable := s.newTable[sl := -1],
                info := s.info[id := s.info[id].(nRefCount := s.info[id].nRefCount - 1)]);
    RefSlotsUpdate(s.newTable, sl, -1);
    t
  }

  /** Whatever is in a slot of the new table has a reference to lose. */
  lemma ReferenceCounts(s: State, sl: Slot)
    requires Linked(s) && sl in s.newTable && s.newTable[sl] != -1
    ensures s.newTable[sl] in s.info && s.info[s.newTable[sl]].nRefCount > 0
  {
    hide RandomOk, AddrOk, IdsOk, TriedOk;
    assert sl in RefSlots(s.newTable, s.newTable[sl]);
  }

  /** Enters an entry in an empty slot of the new table. */
  function Place(s: State, sl: Slot, id: int): (t: State)
    requires Linked(s)
    requires sl in s.newTable && s.newTable[sl] == -1
    requires NewSlotOk(s.k, s.info, sl, id)
    ensures Linked(t)
  {
    var t := s.(newTable := s.newTable[sl := id],
                info := s.info[id := s.info[id].(nRefCount := s.info[id].nRefCount + 1)]);
    RefSlotsUpdate(s.newTable, sl, id);
    t
  }

  /** Overwriting one slot moves one reference from the old occupant to the new one. */
  lemma RefSlotsUpdate(table: Table, sl: Slot, id: int)
    requires sl in table && id != table[sl]
    ensures |RefSlots(table[sl := id], id)| == |RefSlots(table, id)| + 1
    ensures |RefSlots(table[sl := id], table[sl])| == |RefSlots(table, table[sl])| - 1
    ensures forall k :: k != id && k != table[sl] ==> RefSlots(table[sl := id], k) == RefSlots(table, k)
  {
    assert RefSlots(table[sl := id], id) == RefSlots(table, id) + {sl};
    assert RefSlots(table, table[sl]) == RefSlots(table[sl := id], table[sl]) + {sl};
  }

  /** Empties a slot of the new table, deleting its entry when that was the last reference. */
  function ClearNew(s: State, sl: Slot): (t: State)
    requires Linked(s) && sl in s.newTable
    ensures Linked(t)
    ensures t == s.(info := t.info, addr := t.addr, random := t.random, nNew := t.nNew,
                    newTable := s.newTable[sl := -1])
    ensures Descends(s, t)
    ensures forall k :: k in s.info && k != s.newTable[sl] ==> Kept(s, t, k)
  {
    var id := s.newTable[sl];
    if id == -1 then s
    else
      var t := Unref(s, sl);
      if t.info[id].nRefCount == 0 then
        DeleteLinked(t, id);
        DeleteFrame(t, id);
        Delete(t, id)
      else t
  }

  /** A table without an id. */
  function Without(table: Table, id: int): Table {
    map sl | sl in table :: if table[sl] == id then -1 else table[sl]
  }

  /** Takes an entry out of every slot of the new table. */
  function RemoveRefs(s: State, id: int): (t: State)
    requires Linked(s) && id in s.info
    ensures Linked(t)
  {
    WithoutRefs(s.newTable, id);
    s.(newTable := Without(s.newTable, id), info := s.info[id := s.info[id].(nRefCount := 0)])
  }

  lemma WithoutRefs(table: Table, id: int)
    ensures id != -1 ==> RefSlots(Without(table, id), id) == {}
    ensures forall k :: k != id && k != -1 ==> RefSlots(Without(table, id), k) == RefSlots(table, k)
  {
  }

  /** Takes a tried entry out of the tried table, without giving it a place in the new table. */
  function Untry(s: State, id: int): (t: State)
    requires Linked(s) && id in s.info && s.info[id].fInTried
    ensures Linked(t)
  {
    s.(info := s.info[id := s.info[id].(fInTried := false)],
       triedTable := s.triedTable[TriedSlot(s.k, s.info[id].data.service) := -1], nTried := s.nTried - 1)
  }

  /** Enters an entry that is in no table into the tried table. */
  function Try(s: State, id: int): (t: State)
    requires Linked(s) && id in s.info && !s.info[id].fInTried && s.info[id].nRefCount == 0
    requires TriedSlot(s.k, s.info[id].data.service) in s.triedTable
    requires s.triedTable[TriedSlot(s.k, s.info[id].data.service)] == -1
    ensures Linked(t)
  {
    NoRefs(s, id);
    s.(info := s.info[id := s.info[id].(fInTried := true)],
       triedTable := s.triedTable[TriedSlot(s.k, s.info[id].data.service) := id], nTried := s.nTried + 1)
  }

  /** Moves a tried entry back to the new table, displacing whatever is in its slot there. */
  function Evict(s: State, id: int): (t: State)
    requires Linked(s) && id in s.info && s.info[id].fInTried
    ensures Linked(t)
    ensures Descends(s, t) && t.triedTable == s.triedTable[TriedSlot(s.k, s.info[id].data.service) := -1]
    ensures forall k :: k in s.info && s.info[k].nRefCount == 0 && k != id ==> Kept(s, t, k)
  {
    hide Linked, Untry, ClearNew, Readmit, Descends, Kept, NewSlotOk;
    var sl := NewSlot(s.k, s.info[id].data.service, s.info[id].data.source);
    Untried(s, id, sl);
    Evicts(s, id, sl);
    Readmit(ClearNew(Untry(s, id), sl), sl, id)
  }

  lemma Untried(s: State, id: int, sl: Slot)
    requires Linked(s) && id in s.info && s.info[id].fInTried
    requires sl == NewSlot(s.k, s.info[id].data.service, s.info[id].data.source)
    ensures sl in s.newTable && Untry(s, id).newTable == s.newTable
    ensures TriedSlot(s.k, s.info[id].data.service) in s.triedTable
    ensures Untry(s, id).triedTable == s.triedTable[TriedSlot(s.k, s.info[id].data.service) := -1]
    ensures var u := ClearNew(Untry(s, id), sl); u.newTable[sl] == -1 && NewSlotOk(u.k, u.info, sl, id)
  {
    hide RandomOk, AddrOk, IdsOk, RefsOk, ClearNew;
    EvictFrame(s, id);
  }

  lemma Evicts(s: State, id: int, sl: Slot)
    requires Linked(s) && id in s.info && s.info[id].fInTried && sl in Untry(s, id).newTable
    requires sl == NewSlot(s.k, s.info[id].data.service, s.info[id].data.source)
    requires var u := ClearNew(Untry(s, id), sl);
      sl in u.newTable && u.newTable[sl] == -1 && NewSlotOk(u.k, u.info, sl, id)
    ensures var t := Readmit(ClearNew(Untry(s, id), sl), sl, id);
      && Descends(s, t) && t.triedTable == Untry(s, id).triedTable
      && forall k :: k in s.info && s.info[k].nRefCount == 0 && k != id ==> Kept(s, t, k)
  {
    hide RandomOk, AddrOk, IdsOk, NewOk, TriedOk, RefsOk, ClearNew;
    EvictFrame(s, id);
    var v := Untry(s, id);
    var u := ClearNew(v, sl);
    var t := Readmit(u, sl, id);
    forall k | k in s.info && s.info[k].nRefCount == 0 && k != id ensures Kept(s, t, k) { assert Kept(v, u, k); }
  }

  /** Enters an entry in the new table that was not counted there. */
  function Readmit(s: State, sl: Slot, id: int): (t: State)
    requires Linked(s) && sl in s.newTable && s.newTable[sl] == -1 && NewSlotOk(s.k, s.info, sl, id)
    ensures Linked(t)
  {
    Place(s, sl, id).(nNew := s.nNew + 1)
  }

  lemma EvictFrame(s: State, id: int)
    requires Linked(s) && id in s.info && s.info[id].fInTried
    ensures var sl := NewSlot(s.k, s.info[id].data.service, s.info[id].data.source);
      var v := Untry(s, id); var u := ClearNew(v, sl);
      && Kept(v, u, id)
      && forall k :: k in s.info && s.info[k].nRefCount == 0 ==> Kept(v, u, k)
  {
    var v := Untry(s, id);
    forall k | k in s.info && s.info[k].nRefCount == 0 {
      NoRefs(v, k);
    }
  }

  /** Takes an entry out of the new table. */
  function Unlist(s: State, id: int): (t: State)
    requires Linked(s) && id in s.info && !s.info[id].fInTried
    ensures Linked(t) && Descends(s, t) && t.triedTable == s.triedTable
    ensures id in t.info && t.info[id] == s.info[id].(nRefCount := 0)
  {
    RemoveRefs(s, id).(nNew := s.nNew - 1)
  }

  /** Takes an entry out of the new table and makes its tried slot free. */
  function Vacate(s: State, id: int): (t: State)
    requires Linked(s) && id in s.info && !s.info[id].fInTried
    ensures Linked(t)
    ensures id in t.info && t.info[id] == s.info[id].(nRefCount := 0, nRandomPos := t.info[id].nRandomPos)
    ensures Descends(s, t) && t.triedTable == s.triedTable[TriedSlot(s.k, s.info[id].data.service) := -1]
  {
    hide RandomOk, AddrOk, IdsOk, NewOk, RefsOk, Unlist, Evict;
    var u := Unlist(s, id);
    var sl := TriedSlot(s.k, s.info[id].data.service);
    if u.triedTable[sl] == -1 then
      assert s.triedTable == s.triedTable[sl := -1];
      u
    else
      assert Kept(u, Evict(u, u.triedTable[sl]), id);
      Evict(u, u.triedTable[sl])
  }

  /** Moves an entry from the new table to the tried table. */
  function MakeTried(s: State, id: int): (t: State)
    requires Linked(s) && id in s.info && !s.info[id].fInTried
    ensures Linked(t)
  {
    Try(Vacate(s, id), id)
  }

  // ---------- the counters through the building blocks ----------

  lemma CountedMore(s: State, limbo: set<int>, loose: set<int>, more: set<int>)
    requires Counted(s, limbo, loose) && loose <= more
    ensures Counted(s, limbo, more)
  {
  }

  lemma IdsWithNew(info: Infos, id: int, i: Info)
    requires id !in info && !i.fInTried
    ensures NewIds(info[id := i]) == NewIds(info) + {id} && TriedIds(info[id := i]) == TriedIds(info)
  {
  }

  lemma CreateCounted(s: State, a: Address, source: NetAddr, limbo: set<int>, loose: set<int>)
    requires Linked(s) && a.service.ip !in s.addr && Counted(s, limbo, loose)
    ensures Counted(Create(s, a, source), limbo, loose + {s.nIdCount})
  {
    hide RandomOk, AddrOk, NewOk, TriedOk, RefsOk, NewIds, TriedIds;
    var t := Create(s, a, source);
    IdsWithNew(s.info, s.nIdCount, t.info[s.nIdCount]);
    assert s.nIdCount !in limbo && s.nIdCount !in NewIds(s.info) by { assert limbo <= NewIds(s.info); NewKnown(s); }
    assert NewIds(t.info) - limbo == NewIds(s.info) - limbo + {s.nIdCount};
  }

  lemma NewKnown(s: State)
    ensures NewIds(s.info) <= s.info.Keys
  {
  }

  lemma DeleteCounted(s: State, id: int, limbo: set<int>, loose: set<int>)
    requires Linked(s) && Counted(s, limbo, loose)
    requires id in s.info && !s.info[id].fInTried && s.info[id].nRefCount == 0 && id !in limbo
    ensures Counted(Delete(s, id), limbo, loose - {id})
  {
    DeleteFrame(s, id);
    RemovedCounted(s, Delete(s, id), id, limbo, loose);
  }

  lemma RemovedCounted(s: State, t: State, id: int, limbo: set<int>, loose: set<int>)
    requires Counted(s, limbo, loose)
    requires id in s.info && !s.info[id].fInTried && id !in limbo
    requires t.info.Keys == s.info.Keys - {id} && forall k :: k in t.info ==> Kept(s, t, k)
    requires t.nNew == s.nNew - 1 && t.nTried == s.nTried
    ensures Counted(t, limbo, loose - {id})
  {
    RemovedIds(s, t, id);
    assert NewIds(s.info) - limbo == NewIds(t.info) - limbo + {id};
  }

  lemma RemovedIds(s: State, t: State, id: int)
    requires id in s.info && !s.info[id].fInTried
    requires t.info.Keys == s.info.Keys - {id} && forall k :: k in t.info ==> Kept(s, t, k)
    ensures id !in NewIds(t.info) && NewIds(s.info) == NewIds(t.info) + {id}
    ensures TriedIds(s.info) == TriedIds(t.info)
  {
    forall k | k in s.info && k != id
      ensures k in t.info && t.info[k].fInTried == s.info[k].fInTried
    {
      assert k in t.info.Keys;
      assert Kept(s, t, k);
    }
  }

  lemma UnrefCounted(s: State, sl: Slot, limbo: set<int>, loose: set<int>)
    requires Linked(s) && Counted(s, limbo, loose)
    requires sl in s.newTable && s.newTable[sl] != -1
    ensures s.newTable[sl] !in limbo
    ensures Counted(Unref(s, sl), limbo, loose + {s.newTable[sl]})
  {
    var t, id := Unref(s, sl), s.newTable[sl];
    assert sl in RefSlots(s.newTable, id);
    assert NewIds(t.info) == NewIds(s.info) && TriedIds(t.info) == TriedIds(s.info);
  }

  lemma ClearNewCounted(s: State, sl: Slot, limbo: set<int>, loose: set<int>)
    requires Linked(s) && Counted(s, limbo, loose)
    requires sl in s.newTable
    ensures Counted(ClearNew(s, sl), limbo, loose)
  {
    var id := s.newTable[sl];
    if id != -1 {
      UnrefCounted(s, sl, limbo, loose);
      var t := Unref(s, sl);
      if t.info[id].nRefCount == 0 {
        DeleteCounted(t, id, limbo, loose + {id});
        CountedMore(Delete(t, id), limbo, loose + {id} - {id}, loose);
      }
    }
  }

  lemma PlaceCounted(s: State, sl: Slot, id: int, limbo: set<int>, loose: set<int>)
    requires Linked(s) && Counted(s, limbo, loose)
    requires sl in s.newTable && s.newTable[sl] == -1 && NewSlotOk(s.k, s.info, sl, id)
    requires s.info[id].nRefCount < NEW_BUCKETS_PER_ADDRESS && id !in limbo
    ensures Counted(Place(s, sl, id), limbo, loose - {id})
  {
    var t := Place(s, sl, id);
    assert NewIds(t.info) == NewIds(s.info) && TriedIds(t.info) == TriedIds(s.info);
  }

  lemma RemoveRefsCounted(s: State, id: int)
    requires Consistent(s) && id in s.info && !s.info[id].fInTried
    ensures Counted(RemoveRefs(s, id).(nNew := s.nNew - 1), {id}, {id})
  {
    hide RandomOk, AddrOk, IdsOk, NewOk, TriedOk, RefsOk;
    var t := RemoveRefs(s, id);
    assert NewIds(s.info) == NewIds(t.info) - {id} + {id};
    assert NewIds(s.info) - {} == NewIds(s.info);
    assert TriedIds(t.info) == TriedIds(s.info);
  }

  lemma UntryCounted(s: State, id: int, limbo: set<int>, loose: set<int>)
    requires Linked(s) && Counted(s, limbo, loose) && id in s.info && s.info[id].fInTried
    ensures Counted(Untry(s, id), limbo + {id}, loose + {id})
  {
    var t := Untry(s, id);
    NewTableHasNoTried(s, id);
    assert NewIds(t.info) - (limbo + {id}) == NewIds(s.info) - limbo;
    assert TriedIds(s.info) == TriedIds(t.info) + {id};
  }

  lemma NewTableHasNoTried(s: State, id: int)
    requires Linked(s) && id in s.info && s.info[id].fInTried
    ensures s.info[id].nRefCount == 0
  {
    assert forall sl :: sl in s.newTable ==> s.newTable[sl] != id;
    assert RefSlots(s.newTable, id) == {};
  }

  /** What eviction does to the entries and the counters after the displaced reference is gone. */
  lemma EvictEffect(s: State, id: int, sl: Slot)
    requires Linked(s) && id in s.info && s.info[id].fInTried
    requires sl == NewSlot(s.k, s.info[id].data.service, s.info[id].data.source)
    ensures sl in Untry(s, id).newTable
    ensures var u, t := ClearNew(Untry(s, id), sl), Evict(s, id);
      && id in u.info && t.info == u.info[id := u.info[id].(nRefCount := 1)]
      && t.nNew == u.nNew + 1 && t.nTried == u.nTried
  {
    hide RandomOk, AddrOk, IdsOk, Descends, ClearNew;
    EvictFrame(s, id);
    NewTableHasNoTried(s, id);
  }

  lemma EvictCounted(s: State, id: int, limbo: set<int>, loose: set<int>)
    requires Linked(s) && Counted(s, limbo, loose) && id in s.info && s.info[id].fInTried
    ensures Counted(Evict(s, id), limbo, loose)
  {
    hide Linked, ClearNew, Evict, Untry;
    var sl := NewSlot(s.k, s.info[id].data.service, s.info[id].data.source);
    var v := Untry(s, id);
    UntryCounted(s, id, limbo, loose);
    EvictEffect(s, id, sl);
    ClearNewCounted(v, sl, limbo + {id}, loose + {id});
    EvictedCounted(ClearNew(v, sl), id, limbo, loose, Evict(s, id));
  }

  lemma EvictedCounted(s: State, id: int, limbo: set<int>, loose: set<int>, t: State)
    requires Counted(s, limbo + {id}, loose + {id}) && id !in limbo && id in s.info
    requires t.info == s.info[id := s.info[id].(nRefCount := 1)]
    requires t.nNew == s.nNew + 1 && t.nTried == s.nTried
    ensures Counted(t, limbo, loose)
  {
    assert NewIds(t.info) == NewIds(s.info) && TriedIds(t.info) == TriedIds(s.info);
    assert NewIds(s.info) - limbo == NewIds(s.info) - (limbo + {id}) + {id};
  }

  lemma TryCounted(s: State, id: int)
    requires Linked(s) && Counted(s, {id}, {id})
    requires TriedSlot(s.k, s.info[id].data.service) in s.triedTable
    requires s.triedTable[TriedSlot(s.k, s.info[id].data.service)] == -1
    ensures Counted(Try(s, id), {}, {})
  {
    var t := Try(s, id);
    assert NewIds(t.info) - {} == NewIds(s.info) - {id};
    assert TriedIds(t.info) == TriedIds(s.info) + {id};
  }

  lemma VacateCounted(s: State, id: int)
    requires Consistent(s) && id in s.info && !s.info[id].fInTried
    ensures Counted(Vacate(s, id), {id}, {id})
  {
    var u := RemoveRefs(s, id).(nNew := s.nNew - 1);
    RemoveRefsCounted(s, id);
    var occupant := u.triedTable[TriedSlot(s.k, s.info[id].data.service)];
    if occupant != -1 {
      EvictCounted(u, occupant, {id}, {id});
    }
  }

  lemma MakeTriedConsistent(s: State, id: int)
    requires Consistent(s) && id in s.info && !s.info[id].fInTried
    ensures Consistent(MakeTried(s, id))
  {
    VacateCounted(s, id);
    TryCounted(Vacate(s, id), id);
  }

  // ---------- the public operations ----------

  /** Changes what is known about an address, but not which address it is. */
  function WithData(s: State, id: int, d: Data): (t: State)
    requires Linked(s) && id in s.info && d.service == s.info[id].data.service
    ensures Linked(t)
  {
    s.(info := s.info[id := s.info[id].(data := d)])
  }

  lemma WithDataCounted(s: State, id: int, d: Data, limbo: set<int>, loose: set<int>)
    requires Linked(s) && id in s.info && d.service == s.info[id].data.service
    requires Counted(s, limbo, loose)
    ensures Counted(WithData(s, id, d), limbo, loose)
  {
    var t := WithData(s, id, d);
    assert NewIds(t.info) == NewIds(s.info) && TriedIds(t.info) == TriedIds(s.info);
  }

  /** There is an entry for exactly this service. */
  predicate Known(s: State, a: Service)
    requires AddrOk(s.info, s.addr)
  {
    a.ip in s.addr && s.info[s.addr[a.ip]].data.service == a
  }

  /** Moves an entry to the tried table, or queues it when that would evict another entry. */
  function Promote(s: State, id: int, testBeforeEvict: bool): (t: State)
    requires Linked(s) && id in s.info && !s.info[id].fInTried
    ensures Linked(t)
  {
    if testBeforeEvict && s.triedTable[TriedSlot(s.k, s.info[id].data.service)] != -1 then
      if |s.collisions| < SET_TRIED_COLLISION_SIZE then s.(collisions := s.collisions + {id}) else s
    else MakeTried(s, id)
  }

  function Succeeded(d: Data, nTime: int): Data {
    d.(nLastSuccess := nTime, nLastTry := nTime, nAttempts := 0)
  }

  /** A successful connection to a service. */
  function Good(s: State, a: Service, testBeforeEvict: bool, nTime: int): (t: State)
    requires Linked(s)
    ensures Linked(t)
  {
    var s0 := s.(nLastGood := nTime);
    if !Known(s, a) then s0
    else
      var id := s.addr[a.ip];
      var s1 := WithData(s0, id, Succeeded(s.info[id].data, nTime));
      if s.info[id].fInTried then s1 else Promote(s1, id, testBeforeEvict)
  }

  lemma SameTables(s: State, t: State)
    requires Consistent(s) && t == s.(nLastGood := t.nLastGood, collisions := t.collisions)
    ensures Consistent(t)
  {
  }

  lemma PromoteConsistent(s: State, id: int, testBeforeEvict: bool)
    requires Consistent(s) && id in s.info && !s.info[id].fInTried
    ensures Consistent(Promote(s, id, testBeforeEvict))
  {
    if testBeforeEvict && s.triedTable[TriedSlot(s.k, s.info[id].data.service)] != -1 {
      SameTables(s, Promote(s, id, testBeforeEvict));
    } else {
      MakeTriedConsistent(s, id);
    }
  }

  lemma GoodConsistent(s: State, a: Service, testBeforeEvict: bool, nTime: int)
    requires Consistent(s)
    ensures Consistent(Good(s, a, testBeforeEvict, nTime))
  {
    hide RandomOk, NewOk, TriedOk, RefsOk, Counted, Promote;
    var s0 := s.(nLastGood := nTime);
    SameTables(s, s0);
    if Known(s, a) {
      var id := s.addr[a.ip];
      WithDataCounted(s0, id, Succeeded(s.info[id].data, nTime), {}, {});
      if !s.info[id].fInTried {
        PromoteConsistent(WithData(s0, id, Succeeded(s.info[id].data, nTime)), id, testBeforeEvict);
      }
    }
  }

  /** What is known about an address after it is announced again. */
  function Announced(d: Data, a: Address, penalty: int, now: int): (e: Data)
    ensures e == d.(nTime := e.nTime, nServices := e.nServices)
  {
    var interval := if now - a.nTime < 24 * 60 * 60 then 60 * 60 else 24 * 60 * 60;
    var e := if a.nTime != 0 && (d.nTime == 0 || d.nTime < a.nTime - interval - penalty)
             then d.(nTime := Max(0, a.nTime - penalty)) else d;
    e.(nServices := d.nServices + a.nServices)
  }

  /** A known entry gets no further reference: nothing new, already tried, too many references, or bad luck. */
  predicate Declined(i: Info, a: Address, rnd: nat) {
    || a.nTime == 0 || (i.data.nTime != 0 && a.nTime <= i.data.nTime)
    || i.fInTried
    || i.nRefCount == NEW_BUCKETS_PER_ADDRESS
    || (Pow2(Max(0, i.nRefCount)) > 1 && rnd % Pow2(Max(0, i.nRefCount)) != 0)
  }

  /** Whether entry `id` may take a slot from its occupant. */
  predicate MayTake(s: State, id: int, sl: Slot, now: int)
    requires Linked(s) && id in s.info && sl in s.newTable
  {
    var other := s.newTable[sl];
    other == -1 || IsTerrible(s.info[other].data, now) || (s.info[other].nRefCount > 1 && s.info[id].nRefCount == 0)
  }

  /** Gives an entry a slot, displacing another entry. */
  function TakeSlot(s: State, id: int, sl: Slot): (t: State)
    requires Linked(s) && sl in s.newTable && s.newTable[sl] != id && NewSlotOk(s.k, s.info, sl, id)
    ensures Linked(t) && Descends(s, t) && t.triedTable == s.triedTable
  {
    hide RandomOk, AddrOk, IdsOk, NewOk, TriedOk, RefsOk, ClearNew, Place, Descends;
    var u := ClearNew(s, sl);
    assert Kept(s, u, id);
    PlaceDescends(s, u, sl, id);
    Place(u, sl, id)
  }

  lemma PlaceDescends(s: State, u: State, sl: Slot, id: int)
    requires Linked(u) && sl in u.newTable && u.newTable[sl] == -1 && NewSlotOk(u.k, u.info, sl, id) && Descends(s, u)
    ensures Descends(s, Place(u, sl, id)) && Place(u, sl, id).triedTable == u.triedTable
  {
    hide RandomOk, AddrOk, IdsOk, NewOk, TriedOk, RefsOk;
  }

  lemma TakeSlotCounted(s: State, id: int, sl: Slot)
    requires Linked(s) && sl in s.newTable && s.newTable[sl] != id && NewSlotOk(s.k, s.info, sl, id)
    requires Counted(s, {}, {id}) && s.info[id].nRefCount < NEW_BUCKETS_PER_ADDRESS
    ensures Counted(TakeSlot(s, id, sl), {}, {})
  {
    ClearNewCounted(s, sl, {}, {id});
    var u := ClearNew(s, sl);
    assert Kept(s, u, id);
    PlaceCounted(u, sl, id, {}, {id});
    assert {id} - {id} == {};
  }

  /** Tries to give an entry a reference in the slot its source selects. */
  function Refer(s: State, id: int, source: NetAddr, now: int): (t: State)
    requires Linked(s) && id in s.info && !s.info[id].fInTried
    ensures Linked(t)
  {
    var sl := NewSlot(s.k, s.info[id].data.service, source);
    if s.newTable[sl] == id then s
    else if MayTake(s, id, sl, now) then TakeSlot(s, id, sl)
    else if s.info[id].nRefCount == 0 then
      DeleteLinked(s, id);
      Delete(s, id)
    else s
  }

  lemma ReferConsistent(s: State, id: int, source: NetAddr, now: int)
    requires Linked(s) && Counted(s, {}, {id}) && id in s.info && !s.info[id].fInTried
    requires s.info[id].nRefCount < NEW_BUCKETS_PER_ADDRESS
    ensures Consistent(Refer(s, id, source, now))
  {
    var sl := NewSlot(s.k, s.info[id].data.service, source);
    if s.newTable[sl] == id {
      assert sl in RefSlots(s.newTable, id);
    } else if MayTake(s, id, sl, now) {
      TakeSlotCounted(s, id, sl);
    } else if s.info[id].nRefCount == 0 {
      DeleteLinked(s, id);
      DeleteCounted(s, id, {}, {id});
      assert {id} - {id} == {};
    }
  }

  /** A known address is announced again. */
  function AddKnown(s: State, id: int, a: Address, source: NetAddr, penalty: int, now: int, rnd: nat): (t: State)
    requires Linked(s) && id in s.info
    ensures Linked(t)
  {
    var t := WithData(s, id, Announced(s.info[id].data, a, penalty, now));
    if Declined(t.info[id], a, rnd) then t else Refer(t, id, source, now)
  }

  function Penalised(a: Address, penalty: int): Address {
    a.(nTime := Max(0, a.nTime - penalty))
  }

  /** An unknown address gets an entry, which is dropped again when there is no room for it. */
  function AddUnknown(s: State, a: Address, source: NetAddr, now: int): (t: State)
    requires Linked(s) && a.service.ip !in s.addr
    ensures Linked(t)
  {
    Refer(Create(s, a, source), s.nIdCount, source, now)
  }

  /** An announcement of an address: the new state, and whether the address was unknown. */
  function Add(s: State, a: Address, source: NetAddr, nTimePenalty: int, now: int, rnd: nat): (r: (State, bool))
    requires Linked(s)
    ensures Linked(r.0)
  {
    var ip := a.service.ip;
    var penalty := if ip == source then 0 else nTimePenalty;
    if !s.k.net.routable(ip) then (s, false)
    else if ip in s.addr then (AddKnown(s, s.addr[ip], a, source, penalty, now, rnd), false)
    else (AddUnknown(s, Penalised(a, penalty), source, now), true)
  }

  lemma AddKnownConsistent(s: State, id: int, a: Address, source: NetAddr, penalty: int, now: int, rnd: nat)
    requires Consistent(s) && id in s.info
    ensures Consistent(AddKnown(s, id, a, source, penalty, now, rnd))
  {
    var d := Announced(s.info[id].data, a, penalty, now);
    WithDataCounted(s, id, d, {}, {});
    var t := WithData(s, id, d);
    if !Declined(t.info[id], a, rnd) {
      CountedMore(t, {}, {}, {id});
      ReferConsistent(t, id, source, now);
    }
  }

  lemma AddUnknownConsistent(s: State, a: Address, source: NetAddr, now: int)
    requires Consistent(s) && a.service.ip !in s.addr
    ensures Consistent(AddUnknown(s, a, source, now))
  {
    CreateCounted(s, a, source, {}, {});
    assert {} + {s.nIdCount} == {s.nIdCount};
    ReferConsistent(Create(s, a, source), s.nIdCount, source, now);
  }

  lemma AddConsistent(s: State, a: Address, source: NetAddr, nTimePenalty: int, now: int, rnd: nat)
    requires Consistent(s)
    ensures Consistent(Add(s, a, source, nTimePenalty, now, rnd).0)
  {
    var ip := a.service.ip;
    var penalty := if ip == source then 0 else nTimePenalty;
    if ip in s.addr {
      AddKnownConsistent(s, s.addr[ip], a, source, penalty, now, rnd);
    } else {
      AddUnknownConsistent(s, Penalised(a, penalty), source, now);
    }
  }
}
