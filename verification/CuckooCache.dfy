/** The cuckoo cache as the object it is, with its bit-packed flags. */
module CuckooCache {
  import opened Basics
  import opened Bits
  import opened Cuckoo

  /** Garbage collection flags, eight to a byte. */
  class BitPackedFlags {
    const size: nat
    const mem: array<bv8>

    ghost predicate Valid() { size <= 8 * mem.Length }

    predicate BitIsSet(s: nat)
      requires Valid() && s < size
      reads mem
    {
      HasBit(mem[s / 8], s % 8)
    }

    ghost function Flags(): (b: seq<bool>)
      requires Valid()
      reads mem
      ensures |b| == size && forall i :: 0 <= i < size ==> b[i] == BitIsSet(i)
    {
      seq(size, i requires 0 <= i < size reads mem => BitIsSet(i))
    }

    /** The rounding is done in 32 bits, so there is room for the flags exactly when it does not wrap around. */
    constructor (size: nat)
      requires size < TWO_32
      ensures fresh(mem) && this.size == size && (Valid() <==> size + 7 < TWO_32)
      ensures Valid() ==> forall i :: 0 <= i < size ==> BitIsSet(i)
    {
      this.size := size;
      var bytes := (size + 7) % TWO_32 / 8;
      mem := new bv8[bytes](i => 0xFF);
      new;
      assert forall j :: 0 <= j < 8 ==> HasBit(0xFF, j);
    }

    method BitSet(s: nat)
      requires Valid() && s < size
      modifies mem
      ensures Flags() == old(Flags())[s := true]
    {
      var m := OrBit(mem[s / 8], s % 8);
      mem[s / 8] := m;
      assert forall i :: 0 <= i < size ==> BitIsSet(i) == (i == s || old(BitIsSet(i)));
    }

    method BitUnset(s: nat)
      requires Valid() && s < size
      modifies mem
      ensures Flags() == old(Flags())[s := false]
    {
      var m := AndNotBit(mem[s / 8], s % 8);
      mem[s / 8] := m;
      assert forall i :: 0 <= i < size ==> BitIsSet(i) == (i != s && old(BitIsSet(i)));
    }
  }

  class Cache {
    const loc: (nat, Element) -> nat
    const size: nat
    const epochSize: nat
    const depthLimit: nat
    const collectionFlags: BitPackedFlags
    var table: seq<Element>
    var epochFlags: seq<bool>
    var epochHeuristicCounter: nat

    ghost predicate Valid()
      reads this
    {
      && collectionFlags.Valid() && collectionFlags.size == size
      && |table| == |epochFlags| == size && ConfigOk(Settings())
    }

    function Settings(): Config { Config(size, epochSize, depthLimit, loc) }

    ghost function Snap(): State
      requires collectionFlags.Valid()
      reads this, collectionFlags.mem
    {
      State(table, collectionFlags.Flags(), epochFlags, epochHeuristicCounter)
    }

    /** The constructor together with setup. */
    constructor (newSize: nat, depthLimit: nat, hash: (nat, Element) -> nat)
      requires newSize < TWO_32
      ensures fresh(collectionFlags.mem) && (Valid() <==> newSize + 7 < TWO_32)
      ensures Valid() ==> (Settings(), Snap()) == Setup(newSize, depthLimit, hash)
    {
      var n := if newSize < 2 then 2 else newSize;
      loc, this.depthLimit, size := Locs(n, hash), depthLimit, n;
      table, epochFlags := seq(n, i => DEFAULT), seq(n, i => false);
      collectionFlags := new BitPackedFlags(n);
      epochSize := EpochSize(n);
      epochHeuristicCounter := EpochSize(n);
      new;
      if collectionFlags.Valid() {
        assert Snap().discard == Setup(newSize, depthLimit, hash).1.discard;
        assert Snap().table == Setup(newSize, depthLimit, hash).1.table;
        assert Snap().recent == Setup(newSize, depthLimit, hash).1.recent;
      }
    }

    /** The elements kept that were touched in the current epoch. */
    method CountRecent() returns (unused: nat)
      requires Valid()
      ensures unused == Current(Snap())
    {
      unused := 0;
      ghost var b := KeptSlots(Snap(), true);
      for i := 0 to size
        invariant unused == Count(b[..i])
      {
        assert b[..i + 1] == b[..i] + [b[i]];
        CountPush(b[..i], b[i]);
        if epochFlags[i] && !collectionFlags.BitIsSet(i) {
          unused := unused + 1;
        }
      }
      assert b[..size] == b;
    }

    /** Starts a new epoch: what was not of the old one may be discarded. */
    method Age()
      requires Valid()
      modifies this`epochFlags, collectionFlags.mem
      ensures Valid() && Snap() == Aged(old(Snap()))
    {
      ghost var s := Snap();
      for i := 0 to size
        invariant Valid() && table == s.table && epochHeuristicCounter == s.counter
        invariant forall k :: 0 <= k < i ==> !epochFlags[k] && Snap().discard[k] == Aged(s).discard[k]
        invariant forall k :: i <= k < size ==> epochFlags[k] == s.recent[k] && Snap().discard[k] == s.discard[k]
      {
        if epochFlags[i] {
          epochFlags := epochFlags[i := false];
        } else {
          collectionFlags.BitSet(i);
        }
      }
      assert Snap() == Aged(s);
    }

    method EpochCheck()
      requires Valid()
      modifies this, collectionFlags.mem
      ensures Valid() && Snap() == Cuckoo.EpochCheck(Settings(), old(Snap()))
    {
      if epochHeuristicCounter != 0 {
        epochHeuristicCounter := epochHeuristicCounter - 1;
        return;
      }
      var unused := CountRecent();
      if unused >= epochSize {
        Age();
        epochHeuristicCounter := epochSize;
      } else {
        epochHeuristicCounter := Max(1, Max(epochSize / 16, epochSize - unused));
      }
    }

    /** The slot that holds e, if one of these does. */
    method Lookup(locs: seq<nat>, e: Element) returns (r: Option<nat>)
      requires forall i :: 0 <= i < |locs| ==> locs[i] < |table|
      ensures r == FindElement(table, locs, e)
    {
      for i := 0 to |locs|
        invariant FindElement(table, locs, e) == FindElement(table, locs[i..], e)
      {
        if table[locs[i]] == e { return Some(locs[i]); }
      }
      r := None;
    }

    /** The first of these slots that may be overwritten. */
    method FreeSlot(locs: seq<nat>) returns (r: Option<nat>)
      requires Valid() && forall i :: 0 <= i < |locs| ==> locs[i] < size
      ensures r == FindDiscard(collectionFlags.Flags(), locs)
    {
      ghost var flags := collectionFlags.Flags();
      for i := 0 to |locs|
        invariant FindDiscard(flags, locs) == FindDiscard(flags, locs[i..])
      {
        if collectionFlags.BitIsSet(locs[i]) { return Some(locs[i]); }
      }
      r := None;
    }

    method Contains(e: Element, erase: bool) returns (found: bool)
      requires Valid()
      modifies collectionFlags.mem
      ensures Valid() && (Snap(), found) == Cuckoo.Contains(Settings(), old(Snap()), e, erase)
    {
      var locs := ComputeHashes(Settings(), e);
      var r := Lookup(locs, e);
      if r.Some? && erase {
        collectionFlags.BitSet(r.value);
      }
      found := r.Some?;
    }

    method Insert(e0: Element)
      requires Valid()
      modifies this, collectionFlags.mem
      ensures Valid() && Snap() == Cuckoo.Insert(Settings(), old(Snap()), e0).0
    {
      EpochCheck();
      var locs := ComputeHashes(Settings(), e0);
      var r := Lookup(locs, e0);
      if r.Some? {
        collectionFlags.BitUnset(r.value);
        epochFlags := epochFlags[r.value := true];
      } else {
        PlaceElement(e0);
      }
    }

    method FillSlot(loc: nat, e: Element, epoch: bool)
      requires Valid() && loc < size
      modifies this`table, this`epochFlags, collectionFlags.mem
      ensures Valid() && Snap() == Fill(old(Snap()), loc, e, epoch)
    {
      table := table[loc := e];
      collectionFlags.BitUnset(loc);
      epochFlags := epochFlags[loc := epoch];
    }

    method SwapSlot(loc: nat, e: Element, epoch: bool) returns (evicted: Element, was: bool)
      requires Valid() && loc < size
      modifies this`table, this`epochFlags
      ensures Valid() && Snap() == Swapped(old(Snap()), loc, e, epoch)
      ensures evicted == old(table)[loc] && was == old(epochFlags)[loc]
    {
      evicted, was := table[loc], epochFlags[loc];
      table := table[loc := e];
      epochFlags := epochFlags[loc := epoch];
    }

    /** One round of the insertion loop: done, or another element in hand. */
    method PlaceOnce(e: Element, lastLoc: int, lastEpoch: bool, ghost depth: nat)
      returns (done: bool, nextE: Element, nextLoc: int, nextEpoch: bool)
      requires Valid() && depth > 0
      modifies this`table, this`epochFlags, collectionFlags.mem
      ensures Valid()
      ensures Place(Settings(), old(Snap()), e, lastLoc, lastEpoch, depth) ==
        if done then (Snap(), None) else Place(Settings(), Snap(), nextE, nextLoc, nextEpoch, depth - 1)
    {
      var locs := ComputeHashes(Settings(), e);
      var r := FreeSlot(locs);
      if r.Some? {
        FillSlot(r.value, e, lastEpoch);
        return true, e, lastLoc, lastEpoch;
      }
      done, nextLoc := false, NextLoc(locs, lastLoc);
      nextE, nextEpoch := SwapSlot(nextLoc, e, lastEpoch);
    }

    /** Tries up to depthLimit times to find a slot for the element in hand, swapping it with another each time. */
    method PlaceElement(e0: Element)
      requires Valid()
      modifies this`table, this`epochFlags, collectionFlags.mem
      ensures Valid() && Snap() == Place(Settings(), old(Snap()), e0, -1, true, depthLimit).0
    {
      hide Place;
      var lastLoc: int := -1;
      var e, lastEpoch, depth := e0, true, 0;
      while depth < depthLimit
        invariant Valid() && 0 <= depth <= depthLimit
        invariant Place(Settings(), Snap(), e, lastLoc, lastEpoch, depthLimit - depth)
               == Place(Settings(), old(Snap()), e0, -1, true, depthLimit)
      {
        var done;
        done, e, lastLoc, lastEpoch := PlaceOnce(e, lastLoc, lastEpoch, depthLimit - depth);
        if done { return; }
        depth := depth + 1;
      }
      PlaceStops(Settings(), Snap(), e, lastLoc, lastEpoch);
    }
  }
}
