/** The cuckoo cache: eight possible slots per element, lazy erasure, and epochs. */
module Cuckoo {
  import opened Basics

  const TWO_32 := 0x1_0000_0000

  /** Elements are 256-bit numbers; unused slots hold the default element. */
  type Element = nat
  const DEFAULT: Element := 0

  /** What setup fixes: the number of slots, the epoch size, the depth limit; loc(i, e) is the i-th slot for e. */
  datatype Config = Config(size: nat, epochSize: nat, depthLimit: nat, loc: (nat, Element) -> nat)

  /** discard[i]: slot i may be overwritten. recent[i]: slot i was filled in the current epoch. */
  datatype State = State(table: seq<Element>, discard: seq<bool>, recent: seq<bool>, counter: nat)

  ghost predicate ConfigOk(c: Config) {
    2 <= c.size < TWO_32 && c.epochSize >= 1 && forall i, e :: c.loc(i, e) < c.size
  }

  // ---------- hash locations ----------

  lemma {:induction false} MulMono(a: nat, b: nat, c: nat)
    requires a <= b
    ensures a * c <= b * c
  {
    if c > 0 {
      MulMono(a, b, c - 1);
    }
  }

  /** The high half of a 64-bit product: maps a 32-bit hash into [0, size). */
  function Scale(h: nat, size: nat): (r: nat)
    requires h < TWO_32 && size > 0
    ensures r < size
  {
    MulMono(h, TWO_32 - 1, size);
    assert h * size < TWO_32 * size;
    h * size / TWO_32
  }

  function ComputeHashes(c: Config, e: Element): (locs: seq<nat>)
    requires ConfigOk(c)
    ensures |locs| == 8 && forall i :: 0 <= i < 8 ==> locs[i] < c.size
  {
    seq(8, i requires 0 <= i < 8 => c.loc(i, e))
  }

  // ---------- the invariant ----------

  ghost predicate Shaped(c: Config, s: State) {
    ConfigOk(c) && |s.table| == |s.discard| == |s.recent| == c.size
  }

  /** A slot that must be kept holds an element; elements sit in one of their own slots, and only once. */
  ghost predicate Inv(c: Config, s: State) {
    && Shaped(c, s)
    && (forall i :: 0 <= i < c.size && !s.discard[i] ==> s.table[i] != DEFAULT)
    && (forall i :: 0 <= i < c.size && s.table[i] != DEFAULT ==> i in ComputeHashes(c, s.table[i]))
    && (forall i, j :: 0 <= i < j < c.size && s.table[i] != DEFAULT ==> s.table[i] != s.table[j])
  }

  /** The elements that may not be discarded. */
  ghost function Live(s: State): set<Element>
    requires |s.table| == |s.discard|
  {
    set i | 0 <= i < |s.table| && !s.discard[i] :: s.table[i]
  }

  // ---------- operations ----------

  /** The first of the slots that holds e. */
  function FindElement(table: seq<Element>, locs: seq<nat>, e: Element): (r: Option<nat>)
    requires forall i :: 0 <= i < |locs| ==> locs[i] < |table|
    ensures r.Some? ==> r.value in locs && r.value < |table| && table[r.value] == e
    ensures r.None? ==> forall l :: l in locs ==> table[l] != e
  {
    if locs == [] then None
    else if table[locs[0]] == e then Some(locs[0])
    else FindElement(table, locs[1..], e)
  }

  /** The first of the slots that may be overwritten. */
  function FindDiscard(discard: seq<bool>, locs: seq<nat>): (r: Option<nat>)
    requires forall i :: 0 <= i < |locs| ==> locs[i] < |discard|
    ensures r.Some? ==> r.value in locs && r.value < |discard| && discard[r.value]
    ensures r.None? ==> forall l :: l in locs ==> !discard[l]
  {
    if locs == [] then None
    else if discard[locs[0]] then Some(locs[0])
    else FindDiscard(discard, locs[1..])
  }

  /** The position of a value, or the length when it is absent. */
  function IndexOf(locs: seq<nat>, l: int): (r: nat)
    ensures r <= |locs| && (r < |locs| ==> locs[r] == l)
  {
    if locs == [] || locs[0] == l then 0 else 1 + IndexOf(locs[1..], l)
  }

  /** The slot to swap with: the one after the last one used, cyclically; -1 stands for none so far. */
  function NextLoc(locs: seq<nat>, lastLoc: int): nat
    requires |locs| == 8
  {
    locs[(1 + IndexOf(locs, lastLoc)) % 8]
  }

  function Fill(s: State, loc: nat, e: Element, epoch: bool): State
    requires loc < |s.table| && |s.table| == |s.discard| == |s.recent|
  {
    s.(table := s.table[loc := e], discard := s.discard[loc := false], recent := s.recent[loc := epoch])
  }

  /** The loop of insert; also returns the element left over when the depth limit is reached. */
  function Place(c: Config, s: State, e: Element, lastLoc: int, epoch: bool, depth: nat): (r: (State, Option<Element>))
    requires Shaped(c, s)
    decreases depth
  {
    if depth == 0 then (s, Some(e))
    else
      var locs := ComputeHashes(c, e);
      match FindDiscard(s.discard, locs)
      case Some(loc) => (Fill(s, loc, e, epoch), None)
      case None =>
        var loc := NextLoc(locs, lastLoc);
        Place(c, Swapped(s, loc, e, epoch), s.table[loc], loc, s.recent[loc], depth - 1)
  }

  /** At the depth limit the element in hand is dropped. */
  lemma PlaceStops(c: Config, s: State, e: Element, lastLoc: int, epoch: bool)
    requires Shaped(c, s)
    ensures Place(c, s, e, lastLoc, epoch, 0) == (s, Some(e))
  {
  }

  function Swapped(s: State, loc: nat, e: Element, epoch: bool): State
    requires loc < |s.table| && |s.table| == |s.recent|
  {
    s.(table := s.table[loc := e], recent := s.recent[loc := epoch])
  }

  /** Which slots must be kept and belong to the current epoch, or to an older one. */
  function KeptSlots(s: State, current: bool): (b: seq<bool>)
    requires |s.discard| == |s.recent|
    ensures |b| == |s.recent| && forall i :: 0 <= i < |b| ==> b[i] == (s.recent[i] == current && !s.discard[i])
  {
    seq(|s.recent|, i requires 0 <= i < |s.recent| => s.recent[i] == current && !s.discard[i])
  }

  /** The number of slots of the current epoch that must be kept. */
  function Current(s: State): nat
    requires |s.discard| == |s.recent|
  {
    Count(KeptSlots(s, true))
  }

  function Count(b: seq<bool>): nat {
    if b == [] then 0 else (if b[0] then 1 else 0) + Count(b[1..])
  }

  function Aged(s: State): State
    requires |s.discard| == |s.recent|
  {
    s.(discard := seq(|s.discard|, i requires 0 <= i < |s.discard| => s.discard[i] || !s.recent[i]),
       recent := seq(|s.recent|, i => false))
  }

  function EpochCheck(c: Config, s: State): State
    requires Shaped(c, s)
  {
    if s.counter != 0 then s.(counter := s.counter - 1)
    else if Current(s) >= c.epochSize then Aged(s).(counter := c.epochSize)
    else s.(counter := Max(1, Max(c.epochSize / 16, c.epochSize - Current(s))))
  }

  /** insert, and the element it gave up, if any. */
  function Insert(c: Config, s: State, e: Element): (r: (State, Option<Element>))
    requires Shaped(c, s)
  {
    var s1 := EpochCheck(c, s);
    match FindElement(s1.table, ComputeHashes(c, e), e)
    case Some(loc) => (s1.(discard := s1.discard[loc := false], recent := s1.recent[loc := true]), None)
    case None => Place(c, s1, e, -1, true, c.depthLimit)
  }

  function Contains(c: Config, s: State, e: Element, erase: bool): (r: (State, bool))
    requires Shaped(c, s)
  {
    match FindElement(s.table, ComputeHashes(c, e), e)
    case Some(loc) => (if erase then s.(discard := s.discard[loc := true]) else s, true)
    case None => (s, false)
  }

  /** The slots of an element: its eight 32-bit hashes scaled to the table size. */
  function Locs(size: nat, hash: (nat, Element) -> nat): (loc: (nat, Element) -> nat)
    requires size > 0
    ensures forall i, e :: loc(i, e) < size
  {
    var loc := (i: nat, e: Element) => Scale(hash(i, e) % TWO_32, size);
    assert forall i, e :: loc(i, e) == Scale(hash(i, e) % TWO_32, size);
    loc
  }

  function EpochSize(size: nat): nat { Max(1, 45 * size % TWO_32 / 100) }

  function Setup(newSize: nat, depthLimit: nat, hash: (nat, Element) -> nat): (Config, State) {
    var size := Max(2, newSize);
    var c := Config(size, EpochSize(size), depthLimit, Locs(size, hash));
    (c, State(seq(size, i => DEFAULT), seq(size, i => true), seq(size, i => false), c.epochSize))
  }

  // ---------- every element has one slot, one of its own ----------

  lemma SetupInv(newSize: nat, depthLimit: nat, hash: (nat, Element) -> nat)
    requires newSize < TWO_32
    ensures var (c, s) := Setup(newSize, depthLimit, hash); Inv(c, s)
  {
  }

  /** Lookups in eight slots find exactly what is in the table. */
  lemma ContainsExact(c: Config, s: State, e: Element, erase: bool)
    requires Inv(c, s) && e != DEFAULT
    ensures Contains(c, s, e, erase).1 <==> e in s.table
  {
  }

  /** A lookup, also one of the default element, moves nothing and keeps the invariant. */
  lemma ContainsInv(c: Config, s: State, e: Element, erase: bool)
    requires Inv(c, s)
    ensures Inv(c, Contains(c, s, e, erase).0) && Contains(c, s, e, erase).0.table == s.table
  {
  }

  lemma EpochCheckInv(c: Config, s: State)
    requires Inv(c, s)
    ensures Inv(c, EpochCheck(c, s)) && EpochCheck(c, s).table == s.table
  {
  }

  lemma FillInv(c: Config, s: State, loc: nat, e: Element, epoch: bool)
    requires Inv(c, s) && e != DEFAULT && e !in s.table && loc in ComputeHashes(c, e) && s.discard[loc]
    ensures Inv(c, Fill(s, loc, e, epoch))
    ensures Live(Fill(s, loc, e, epoch)) == Live(s) + {e}
  {
    var t := Fill(s, loc, e, epoch);
    assert t.table[loc] == e && !t.discard[loc];
    forall x | x in Live(s) ensures x in Live(t) {
      var i :| 0 <= i < c.size && !s.discard[i] && s.table[i] == x;
      assert t.table[i] == x && !t.discard[i];
    }
  }

  lemma SwapInv(c: Config, s: State, loc: nat, e: Element, epoch: bool)
    requires Inv(c, s) && e != DEFAULT && e !in s.table && loc in ComputeHashes(c, e) && !s.discard[loc]
    ensures var t := Swapped(s, loc, e, epoch);
      && Inv(c, t) && s.table[loc] != DEFAULT && s.table[loc] !in t.table
      && Live(t) == Live(s) - {s.table[loc]} + {e} && s.table[loc] in Live(s)
  {
    var t := Swapped(s, loc, e, epoch);
    assert t.table[loc] == e && !t.discard[loc];
    assert s.table[loc] in Live(s);
    forall x | x in Live(s) && x != s.table[loc] ensures x in Live(t) {
      var i :| 0 <= i < c.size && !s.discard[i] && s.table[i] == x;
      assert t.table[i] == x && !t.discard[i];
    }
  }

  /** All of `wanted` is kept, except the one element reported as lost. */
  ghost predicate KeptBut(wanted: set<Element>, t: State, lost: Option<Element>)
    requires |t.table| == |t.discard|
  {
    match lost
    case None => Live(t) == wanted
    case Some(x) => x in wanted && x !in t.table && Live(t) == wanted - {x}
  }

  /** The insertion loop keeps the invariant and gives up at most the element it reports. */
  lemma {:induction false} PlaceInv(c: Config, s: State, e: Element, lastLoc: int, epoch: bool, depth: nat)
    requires Inv(c, s) && e != DEFAULT && e !in s.table
    ensures Inv(c, Place(c, s, e, lastLoc, epoch, depth).0)
    ensures KeptBut(Live(s) + {e}, Place(c, s, e, lastLoc, epoch, depth).0, Place(c, s, e, lastLoc, epoch, depth).1)
    decreases depth
  {
    if depth == 0 {
      LiveIsStored(s);
      assert Live(s) + {e} - {e} == Live(s);
    } else {
      var locs := ComputeHashes(c, e);
      match FindDiscard(s.discard, locs)
      case Some(loc) => FillInv(c, s, loc, e, epoch);
      case None =>
        var loc := NextLoc(locs, lastLoc);
        var x := s.table[loc];
        SwapInv(c, s, loc, e, epoch);
        PlaceInv(c, Swapped(s, loc, e, epoch), x, loc, s.recent[loc], depth - 1);
        assert Live(s) - {x} + {e} + {x} == Live(s) + {e};
    }
  }

  lemma LiveIsStored(s: State)
    requires |s.table| == |s.discard|
    ensures forall x :: x in Live(s) ==> x in s.table
  {
  }

  /** Beyond what the change of epoch releases, one insert gives up at most one element that must be kept. */
  lemma InsertInv(c: Config, s: State, e: Element)
    requires Inv(c, s) && e != DEFAULT
    ensures Inv(c, Insert(c, s, e).0)
    ensures KeptBut(Live(EpochCheck(c, s)) + {e}, Insert(c, s, e).0, Insert(c, s, e).1)
  {
    EpochCheckInv(c, s);
    var s1 := EpochCheck(c, s);
    match FindElement(s1.table, ComputeHashes(c, e), e)
    case Some(loc) =>
      var t := Insert(c, s, e).0;
      assert t.table[loc] == e && !t.discard[loc];
      forall x | x in Live(s1) ensures x in Live(t) {
        var i :| 0 <= i < c.size && !s1.discard[i] && s1.table[i] == x;
        assert t.table[i] == x && !t.discard[i];
      }
    case None =>
      assert e !in s1.table;
      PlaceInv(c, s1, e, -1, true, c.depthLimit);
  }

  // ---------- the epochs bound the number of elements that must be kept ----------

  /** The number of slots of older epochs that must be kept. */
  function Older(s: State): nat
    requires |s.discard| == |s.recent|
  {
    Count(KeptSlots(s, false))
  }

  function Bound(c: Config): nat { c.epochSize + Max(1, c.epochSize / 16) }

  ghost predicate EpochInv(c: Config, s: State) {
    Shaped(c, s) && Current(s) + s.counter <= Bound(c) && Older(s) <= Bound(c)
  }

  function Bit(b: bool): nat { if b then 1 else 0 }

  lemma {:induction false} CountUpdate(b: seq<bool>, i: nat, x: bool)
    requires i < |b|
    ensures Count(b[i := x]) == Count(b) - Bit(b[i]) + Bit(x)
  {
    if i == 0 {
      assert b[i := x][1..] == b[1..];
    } else {
      CountUpdate(b[1..], i - 1, x);
      assert b[i := x][1..] == b[1..][i - 1 := x];
    }
  }

  /** Changing the flags of one slot. */
  lemma SlotCounts(s: State, t: State, i: nat)
    requires |s.discard| == |s.recent| == |t.discard| == |t.recent| && i < |s.recent|
    requires t.discard == s.discard[i := t.discard[i]] && t.recent == s.recent[i := t.recent[i]]
    ensures Current(t) == Current(s) - Bit(s.recent[i] && !s.discard[i]) + Bit(t.recent[i] && !t.discard[i])
    ensures Older(t) == Older(s) - Bit(!s.recent[i] && !s.discard[i]) + Bit(!t.recent[i] && !t.discard[i])
  {
    CountUpdate(KeptSlots(s, true), i, t.recent[i] && !t.discard[i]);
    CountUpdate(KeptSlots(s, false), i, !t.recent[i] && !t.discard[i]);
    assert KeptSlots(t, true) == KeptSlots(s, true)[i := t.recent[i] && !t.discard[i]];
    assert KeptSlots(t, false) == KeptSlots(s, false)[i := !t.recent[i] && !t.discard[i]];
  }

  lemma FillCounts(s: State, loc: nat, e: Element, epoch: bool)
    requires |s.table| == |s.discard| == |s.recent| && loc < |s.table| && s.discard[loc]
    ensures Current(Fill(s, loc, e, epoch)) == Current(s) + Bit(epoch)
    ensures Older(Fill(s, loc, e, epoch)) == Older(s) + Bit(!epoch)
  {
    SlotCounts(s, Fill(s, loc, e, epoch), loc);
  }

  lemma SwapCounts(s: State, loc: nat, e: Element, epoch: bool)
    requires |s.table| == |s.discard| == |s.recent| && loc < |s.table| && !s.discard[loc]
    ensures Current(Swapped(s, loc, e, epoch)) + Bit(s.recent[loc]) == Current(s) + Bit(epoch)
    ensures Older(Swapped(s, loc, e, epoch)) + Bit(!s.recent[loc]) == Older(s) + Bit(!epoch)
  {
    var t := Swapped(s, loc, e, epoch);
    assert t.discard == s.discard[loc := t.discard[loc]];
    SlotCounts(s, t, loc);
  }

  /** The insertion loop adds at most one element, to the epoch of the element it starts with. */
  lemma {:induction false} PlaceCounts(c: Config, s: State, e: Element, lastLoc: int, epoch: bool, depth: nat)
    requires Shaped(c, s)
    ensures Shaped(c, Place(c, s, e, lastLoc, epoch, depth).0)
    ensures Place(c, s, e, lastLoc, epoch, depth).0.counter == s.counter
    ensures Current(Place(c, s, e, lastLoc, epoch, depth).0) <= Current(s) + Bit(epoch)
    ensures Older(Place(c, s, e, lastLoc, epoch, depth).0) <= Older(s) + Bit(!epoch)
    decreases depth
  {
    hide Current, Older, FindDiscard, ComputeHashes;
    if depth > 0 {
      var locs := ComputeHashes(c, e);
      match FindDiscard(s.discard, locs)
      case Some(loc) => FillCounts(s, loc, e, epoch);
      case None =>
        var loc := NextLoc(locs, lastLoc);
        SwapCounts(s, loc, e, epoch);
        PlaceCounts(c, Swapped(s, loc, e, epoch), s.table[loc], loc, s.recent[loc], depth - 1);
    }
  }

  lemma {:induction false} CountNone(b: seq<bool>)
    requires forall i :: 0 <= i < |b| ==> !b[i]
    ensures Count(b) == 0
  {
    if b != [] { CountNone(b[1..]); }
  }

  /** A new epoch makes the current elements the older ones and releases the older ones. */
  lemma AgedCounts(s: State)
    requires |s.discard| == |s.recent|
    ensures Current(Aged(s)) == 0 && Older(Aged(s)) == Current(s)
  {
    CountNone(KeptSlots(Aged(s), true));
    assert KeptSlots(Aged(s), false) == KeptSlots(s, true);
  }

  lemma InsertEpochs(c: Config, s: State, e: Element)
    requires EpochInv(c, s)
    ensures EpochInv(c, Insert(c, s, e).0)
  {
    AgedCounts(s);
    var s1 := EpochCheck(c, s);
    assert Shaped(c, s1) && Current(s1) + s1.counter + 1 <= Bound(c) && Older(s1) <= Bound(c);
    match FindElement(s1.table, ComputeHashes(c, e), e)
    case Some(loc) => SlotCounts(s1, Insert(c, s, e).0, loc);
    case None => PlaceCounts(c, s1, e, -1, true, c.depthLimit);
  }

  lemma ContainsEpochs(c: Config, s: State, e: Element, erase: bool)
    requires EpochInv(c, s)
    ensures EpochInv(c, Contains(c, s, e, erase).0)
  {
    match FindElement(s.table, ComputeHashes(c, e), e)
    case Some(loc) =>
      if erase {
        var t := Contains(c, s, e, erase).0;
        assert t.recent == s.recent[loc := t.recent[loc]];
        SlotCounts(s, t, loc);
      }
    case None =>
  }

  // ---------- whole runs ----------

  datatype Op = InsertOp(e: Element) | ContainsOp(e: Element, erase: bool)

  function Step(c: Config, s: State, op: Op): State
    requires Shaped(c, s)
  {
    match op
    case InsertOp(e) => Insert(c, s, e).0
    case ContainsOp(e, erase) => Contains(c, s, e, erase).0
  }

  /** Only insertions of the default element are excluded; it may be looked up. */
  predicate Allowed(op: Op) { op.InsertOp? ==> op.e != DEFAULT }

  ghost function Run(c: Config, s: State, ops: seq<Op>): (t: State)
    requires Inv(c, s) && EpochInv(c, s) && forall i :: 0 <= i < |ops| ==> Allowed(ops[i])
    ensures Inv(c, t) && EpochInv(c, t)
    decreases |ops|
  {
    if ops == [] then s
    else
      StepInv(c, s, ops[0]);
      Run(c, Step(c, s, ops[0]), ops[1..])
  }

  lemma StepInv(c: Config, s: State, op: Op)
    requires Inv(c, s) && EpochInv(c, s) && Allowed(op)
    ensures Inv(c, Step(c, s, op)) && EpochInv(c, Step(c, s, op))
  {
    match op
    case InsertOp(e) =>
      InsertInv(c, s, e);
      InsertEpochs(c, s, e);
    case ContainsOp(e, erase) =>
      ContainsInv(c, s, e, erase);
      ContainsEpochs(c, s, e, erase);
  }

  lemma SetupEpochs(newSize: nat, depthLimit: nat, hash: (nat, Element) -> nat)
    requires newSize < TWO_32
    ensures var (c, s) := Setup(newSize, depthLimit, hash); EpochInv(c, s)
  {
    var (c, s) := Setup(newSize, depthLimit, hash);
    CountNone(KeptSlots(s, true));
    CountNone(KeptSlots(s, false));
  }

  /** The slots below n that must be kept, seen as a set. */
  ghost function LiveBelow(s: State, n: nat): set<Element>
    requires |s.table| == |s.discard| && n <= |s.table|
  {
    set i | 0 <= i < n && !s.discard[i] :: s.table[i]
  }

  lemma {:induction false} CountPush(b: seq<bool>, x: bool)
    ensures Count(b + [x]) == Count(b) + Bit(x)
  {
    if b == [] {
      assert b + [x] == [x];
    } else {
      CountPush(b[1..], x);
      assert (b + [x])[1..] == b[1..] + [x];
    }
  }

  lemma {:induction false} LiveBelowCount(s: State, n: nat)
    requires |s.table| == |s.discard| == |s.recent| && n <= |s.table|
    ensures |LiveBelow(s, n)| <= Count(KeptSlots(s, true)[..n]) + Count(KeptSlots(s, false)[..n])
  {
    hide LiveBelow, Count, KeptSlots;
    LiveNone(s);
    if n > 0 {
      LiveBelowCount(s, n - 1);
      LiveMore(s, n);
      var a, b := KeptSlots(s, true), KeptSlots(s, false);
      assert a[..n] == a[..n - 1] + [a[n - 1]] && b[..n] == b[..n - 1] + [b[n - 1]];
      CountPush(a[..n - 1], a[n - 1]);
      CountPush(b[..n - 1], b[n - 1]);
    }
  }

  lemma LiveNone(s: State)
    requires |s.table| == |s.discard| == |s.recent|
    ensures LiveBelow(s, 0) == {}
  {
  }

  lemma LiveMore(s: State, n: nat)
    requires |s.table| == |s.discard| == |s.recent| && 0 < n <= |s.table|
    ensures |LiveBelow(s, n)| <= |LiveBelow(s, n - 1)| + (if KeptSlots(s, true)[n - 1] then 1 else 0)
                                 + (if KeptSlots(s, false)[n - 1] then 1 else 0)
  {
    var more := if s.discard[n - 1] then {} else {s.table[n - 1]};
    assert LiveBelow(s, n) <= LiveBelow(s, n - 1) + more;
    SubsetSize(LiveBelow(s, n), LiveBelow(s, n - 1) + more);
  }

  lemma SubsetSize(a: set<Element>, b: set<Element>)
    requires a <= b
    ensures |a| <= |b|
  {
    assert b == a + (b - a);
  }

  /**
   * In every run that never inserts the default element, each stored element sits in exactly one slot,
   * one of its eight; and the elements that must be kept never exceed twice the bound of one epoch.
   */
  lemma EveryRun(newSize: nat, depthLimit: nat, hash: (nat, Element) -> nat, ops: seq<Op>)
    requires newSize < TWO_32 && forall i :: 0 <= i < |ops| ==> Allowed(ops[i])
    ensures var (c, s) := Setup(newSize, depthLimit, hash);
      && Inv(c, s) && EpochInv(c, s)
      && var t := Run(c, s, ops);
      && Inv(c, t) && EpochInv(c, t) && |Live(t)| <= 2 * Bound(c)
  {
    SetupInv(newSize, depthLimit, hash);
    SetupEpochs(newSize, depthLimit, hash);
    var (c, s) := Setup(newSize, depthLimit, hash);
    var t := Run(c, s, ops);
    LiveBelowCount(t, c.size);
    assert KeptSlots(t, true)[..c.size] == KeptSlots(t, true) && KeptSlots(t, false)[..c.size] == KeptSlots(t, false);
    assert LiveBelow(t, c.size) == Live(t);
  }
}
