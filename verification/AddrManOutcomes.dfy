/** What the operations of the address manager achieve, told by the entry they are about. */
module AddrManOutcomes {
  import opened Basics
  import opened AddrManState
  import opened AddrManOps

  /** The slot of the new table that an entry's own source selects. */
  function HomeSlot(s: State, id: int): Slot
    requires id in s.info
  {
    NewSlot(s.k, s.info[id].data.service, s.info[id].data.source)
  }

  function TriedHome(s: State, id: int): Slot
    requires id in s.info
  {
    TriedSlot(s.k, s.info[id].data.service)
  }

  /** An evicted entry is back in the new table, with one reference, in the slot its source selects. */
  lemma EvictOutcome(s: State, id: int)
    requires Linked(s) && id in s.info && s.info[id].fInTried
    ensures var t := Evict(s, id); var sl := HomeSlot(s, id);
      && id in t.info
      && t.info[id] == s.info[id].(fInTried := false, nRefCount := 1, nRandomPos := t.info[id].nRandomPos)
      && t.newTable == s.newTable[sl := id] && t.triedTable == s.triedTable[TriedHome(s, id) := -1]
      && forall k :: k in s.info && k != id && k != s.newTable[sl] ==> Kept(s, t, k)
  {
    hide RandomOk, AddrOk, IdsOk, TriedOk, RefsOk, Descends;
    EvictFrame(s, id);
    NewTableHasNoTried(s, id);
  }

  lemma UnlistOutcome(s: State, id: int)
    requires Linked(s) && id in s.info && !s.info[id].fInTried
    ensures var u := Unlist(s, id);
      && u.newTable == Without(s.newTable, id) && u.triedTable == s.triedTable && u.k == s.k
      && u.info == s.info[id := s.info[id].(nRefCount := 0)]
  {
    hide RandomOk, AddrOk, IdsOk, TriedOk, RefsOk, NewOk;
  }

  /** The entry that has to leave its tried slot, or -1. */
  function Rival(s: State, id: int): int
    requires id in s.info && TriedHome(s, id) in s.triedTable
  {
    s.triedTable[TriedHome(s, id)]
  }

  lemma RivalOk(s: State, id: int)
    requires Linked(s) && id in s.info && !s.info[id].fInTried
    ensures TriedHome(s, id) in s.triedTable
    ensures Rival(s, id) != -1 ==> IsRival(s, id, Rival(s, id))
  {
  }

  predicate IsRival(s: State, id: int, o: int) {
    o in s.info && s.info[o].fInTried && o != id && HomeSlot(s, o) in s.newTable
  }

  lemma VacateOutcome(s: State, id: int)
    requires Linked(s) && id in s.info && !s.info[id].fInTried && TriedHome(s, id) in s.triedTable
    requires Rival(s, id) == -1 || IsRival(s, id, Rival(s, id))
    ensures var t, o := Vacate(s, id), Rival(s, id);
      && t.newTable == (if o == -1 then Without(s.newTable, id) else Without(s.newTable, id)[HomeSlot(s, o) := o])
      && (o != -1 ==>
            && o in t.info
            && t.info[o] == s.info[o].(fInTried := false, nRefCount := 1, nRandomPos := t.info[o].nRandomPos))
      && forall k :: k in s.info && k != id && k != o && (o == -1 || k != Displaced(s, id)) ==> Kept(s, t, k)
  {
    hide RandomOk, AddrOk, IdsOk, NewOk, TriedOk, RefsOk, Evict, Unlist, Descends, Linked;
    UnlistOutcome(s, id);
    var u, t, o := Unlist(s, id), Vacate(s, id), Rival(s, id);
    if o != -1 {
      EvictOutcome(u, o);
      assert t == Evict(u, o);
      forall k | k in s.info && k != id && k != o && k != Displaced(s, id) ensures Kept(s, t, k) {
        assert u.newTable[HomeSlot(u, o)] == Displaced(s, id);
        assert Kept(u, t, k);
      }
    }
  }

  /** The entry that has to make room in the new table for the rival, or -1. */
  function Displaced(s: State, id: int): int
    requires id in s.info && TriedHome(s, id) in s.triedTable && IsRival(s, id, Rival(s, id))
  {
    var sl := HomeSlot(s, Rival(s, id));
    if s.newTable[sl] != id then s.newTable[sl] else -1
  }

  /**
   * A promoted entry holds its tried slot and no reference from the new table. Whatever held that slot is back in the
   * new table with one reference. No other entry changes but the one displaced by that.
   */
  lemma PromotionOutcome(s: State, id: int)
    requires Linked(s) && id in s.info && !s.info[id].fInTried
    ensures TriedHome(s, id) in s.triedTable && (Rival(s, id) != -1 ==> IsRival(s, id, Rival(s, id)))
    ensures var t, o := MakeTried(s, id), Rival(s, id);
      && id in t.info
      && t.info[id] == s.info[id].(fInTried := true, nRefCount := 0, nRandomPos := t.info[id].nRandomPos)
      && t.triedTable == s.triedTable[TriedHome(s, id) := id]
      && t.newTable == (if o == -1 then Without(s.newTable, id) else Without(s.newTable, id)[HomeSlot(s, o) := o])
      && (o != -1 ==>
            && o in t.info
            && t.info[o] == s.info[o].(fInTried := false, nRefCount := 1, nRandomPos := t.info[o].nRandomPos))
      && forall k :: k in s.info && k != id && k != o && (o == -1 || k != Displaced(s, id)) ==> Kept(s, t, k)
  {
    hide RandomOk, AddrOk, IdsOk, NewOk, TriedOk, RefsOk, Vacate;
    RivalOk(s, id);
    VacateOutcome(s, id);
    assert s.triedTable[TriedHome(s, id) := -1][TriedHome(s, id) := id] == s.triedTable[TriedHome(s, id) := id];
  }

  /** The entry ends up tried unless another would have to go and the caller wants that one tested first. */
  lemma PromoteOutcome(s: State, id: int, testBeforeEvict: bool)
    requires Linked(s) && id in s.info && !s.info[id].fInTried
    ensures TriedHome(s, id) in s.triedTable
    ensures var t, waits := Promote(s, id, testBeforeEvict), testBeforeEvict && s.triedTable[TriedHome(s, id)] != -1;
      && t.nLastGood == s.nLastGood && id in t.info && t.info[id].data == s.info[id].data
      && t.info[id].fInTried == !waits
      && t.triedTable == if waits then s.triedTable else s.triedTable[TriedHome(s, id) := id]
  {
    hide RandomOk, AddrOk, IdsOk, NewOk, TriedOk, RefsOk, MakeTried;
    PromotionOutcome(s, id);
    MakeTriedKeepsTime(s, id);
  }

  lemma TriedStays(s: State, id: int)
    requires Linked(s) && id in s.info && s.info[id].fInTried
    ensures TriedHome(s, id) in s.triedTable && s.triedTable == s.triedTable[TriedHome(s, id) := id]
  {
    hide RandomOk, AddrOk, IdsOk, NewOk, RefsOk;
  }

  /** A success is recorded; the entry ends up tried unless another is to be tested before it is evicted for that. */
  lemma GoodOutcome(s: State, a: Service, testBeforeEvict: bool, nTime: int)
    requires Linked(s)
    ensures var t := Good(s, a, testBeforeEvict, nTime);
      if !Known(s, a) then t == s.(nLastGood := nTime)
      else
        var id := s.addr[a.ip];
        && t.nLastGood == nTime && id in t.info && TriedHome(s, id) in s.triedTable
        && t.info[id].data == s.info[id].data.(nLastSuccess := nTime, nLastTry := nTime, nAttempts := 0)
        && var waits := !s.info[id].fInTried && testBeforeEvict && s.triedTable[TriedHome(s, id)] != -1;
        && t.info[id].fInTried == !waits
        && t.triedTable == if waits then s.triedTable else s.triedTable[TriedHome(s, id) := id]
  {
    hide RandomOk, NewOk, TriedOk, RefsOk, IdsOk, Promote;
    if Known(s, a) {
      var id := s.addr[a.ip];
      if s.info[id].fInTried {
        TriedStays(s, id);
      } else {
        PromoteOutcome(WithData(s.(nLastGood := nTime), id, Succeeded(s.info[id].data, nTime)), id, testBeforeEvict);
      }
    }
  }

  lemma MakeTriedKeepsTime(s: State, id: int)
    requires Linked(s) && id in s.info && !s.info[id].fInTried
    ensures MakeTried(s, id).nLastGood == s.nLastGood
  {
    hide RandomOk, AddrOk, IdsOk, NewOk, RefsOk;
  }

  /** Whether the entry in a slot of the new table may be displaced by one without references. */
  predicate Displaceable(s: State, sl: Slot, now: int)
    requires sl in s.newTable && (s.newTable[sl] != -1 ==> s.newTable[sl] in s.info)
  {
    s.newTable[sl] == -1 || IsTerrible(s.info[s.newTable[sl]].data, now) || s.info[s.newTable[sl]].nRefCount > 1
  }

  lemma CreateOutcome(s: State, a: Address, source: NetAddr)
    requires Linked(s) && a.service.ip !in s.addr
    ensures var t, id := Create(s, a, source), s.nIdCount;
      && id !in s.info && t.info.Keys == s.info.Keys + {id} && (forall k :: k in s.info ==> t.info[k] == s.info[k])
      && t.info[id].data == Data(a.service, a.nServices, a.nTime, source, 0, 0, 0, 0)
      && t.newTable == s.newTable && t.triedTable == s.triedTable && t.k == s.k
      && (forall sl :: sl in s.newTable ==> s.newTable[sl] != id)
  {
    hide RandomOk, AddrOk, TriedOk, RefsOk;
  }

  lemma TakeSlotOutcome(s: State, id: int, sl: Slot)
    requires Linked(s) && sl in s.newTable && s.newTable[sl] != id && NewSlotOk(s.k, s.info, sl, id)
    ensures var t := TakeSlot(s, id, sl);
      && t.newTable == s.newTable[sl := id] && id in t.info
      && t.info[id] == s.info[id].(nRefCount := s.info[id].nRefCount + 1, nRandomPos := t.info[id].nRandomPos)
      && forall k :: k in s.info && k != id && k != s.newTable[sl] ==> Kept(s, t, k)
  {
    hide RandomOk, AddrOk, IdsOk, NewOk, TriedOk, RefsOk, ClearNew, Descends;
    assert Kept(s, ClearNew(s, sl), id);
  }

  /** Where an announced address would go. */
  function Landing(s: State, a: Address, source: NetAddr): Slot { NewSlot(s.k, a.service, source) }

  /**
   * An unknown routable address is answered with true. It gets an entry with one reference, in the slot its source
   * selects, exactly when that slot is free or its occupant may be displaced; otherwise no entry is added or changed.
   */
  lemma AddOutcome(s: State, a: Address, source: NetAddr, nTimePenalty: int, now: int, rnd: nat)
    requires Linked(s) && a.service.ip !in s.addr && s.k.net.routable(a.service.ip)
    ensures Landing(s, a, source) in s.newTable
    ensures s.newTable[Landing(s, a, source)] != -1 ==> s.newTable[Landing(s, a, source)] in s.info
    ensures var (t, isNew) := Add(s, a, source, nTimePenalty, now, rnd);
      var id, sl := s.nIdCount, Landing(s, a, source);
      var penalty := if a.service.ip == source then 0 else nTimePenalty;
      && isNew && id !in s.info && (id in t.info <==> Displaceable(s, sl, now))
      && t.newTable == (if Displaceable(s, sl, now) then s.newTable[sl := id] else s.newTable)
      && (id in t.info ==> t.info[id].nRefCount == 1 && !t.info[id].fInTried)
      && (id in t.info ==>
            t.info[id].data == Data(a.service, a.nServices, Max(0, a.nTime - penalty), source, 0, 0, 0, 0))
      && forall k :: k in s.info && (k != s.newTable[sl] || !Displaceable(s, sl, now)) ==> Kept(s, t, k)
  {
    hide RandomOk, AddrOk, IdsOk, TriedOk, RefsOk, TakeSlot, Delete, Create, Descends;
    var penalty := if a.service.ip == source then 0 else nTimePenalty;
    var p, id, sl := Penalised(a, penalty), s.nIdCount, Landing(s, a, source);
    CreateOutcome(s, p, source);
    var u := Create(s, p, source);
    if MayTake(u, id, sl, now) {
      TakeSlotOutcome(u, id, sl);
    } else {
      DeleteFrame(u, id);
    }
  }
}
