/** The active chain indexed by height, forks from it, and block locators. */
module ActiveChain {
  import opened Basics
  import opened Chain

  /** A block is the ancestor of another at its own height. */
  ghost predicate IsAncestor(a: BlockIndex, b: BlockIndex)
    requires Linked(b)
  {
    a.nHeight <= b.nHeight && Ancestor(b, a.nHeight) == a
  }

  /** `r` is the highest common ancestor of the two blocks, or null when there is none. */
  ghost predicate IsLastCommon(r: BlockIndex?, a: BlockIndex, b: BlockIndex)
    requires Linked(a) && Linked(b)
  {
    && (r != null ==> IsAncestor(r, a) && IsAncestor(r, b))
    && forall h: nat :: (r == null || h > r.nHeight) && h <= a.nHeight && h <= b.nHeight ==>
         Ancestor(a, h) != Ancestor(b, h)
  }

  /** Blocks with different ancestors at some height differ at every height above it. */
  lemma CommonBelow(a: BlockIndex, b: BlockIndex, h: nat, k: nat)
    requires Linked(a) && Linked(b) && k <= h <= a.nHeight && h <= b.nHeight
    requires Ancestor(a, h) == Ancestor(b, h)
    ensures Ancestor(a, k) == Ancestor(b, k)
  {
    AncestorOfAncestor(a, h, k);
    AncestorOfAncestor(b, h, k);
  }

  method LastCommonAncestor(a: BlockIndex, b: BlockIndex) returns (r: BlockIndex?)
    requires Linked(a) && SkipsOk(a) && Linked(b) && SkipsOk(b)
    ensures IsLastCommon(r, a, b)
  {
    var pa: BlockIndex?, pb: BlockIndex? := a, b;
    if a.nHeight > b.nHeight {
      pa := a.GetAncestor(b.nHeight);
    } else if b.nHeight > a.nHeight {
      pb := b.GetAncestor(a.nHeight);
    }
    ghost var n := pa.nHeight;
    while pa != pb && pa != null && pb != null
      invariant (pa == null) == (pb == null)
      invariant pa != null ==> IsAncestor(pa, a) && IsAncestor(pb, b) && pa.nHeight == pb.nHeight <= n
      invariant forall h: nat :: (pa == null || h > pa.nHeight) && h <= n ==> Ancestor(a, h) != Ancestor(b, h)
      decreases if pa == null then 0 else pa.nHeight + 1
    {
      ghost var h := pa.nHeight;
      if h > 0 {
        AncestorOfAncestor(a, h, h - 1);
        AncestorOfAncestor(b, h, h - 1);
      }
      pa := pa.pprev;
      pb := pb.pprev;
    }
    assert pa == pb;
    r := pa;
  }

  // ---------- locators ----------

  /** The heights in a locator: from `h` back in steps that double after eleven entries, and genesis. */
  function LocatorHeights(h: nat, step: nat, have: nat): (s: seq<nat>)
    requires step > 0
    decreases h
  {
    if h == 0 then [0]
    else [h] + LocatorHeights(Max(h - step, 0), if have + 1 > 10 then 2 * step else step, have + 1)
  }

  /** Locator heights fall strictly and end at genesis. */
  lemma {:induction false} LocatorFalls(h: nat, step: nat, have: nat)
    requires step > 0
    ensures var s := LocatorHeights(h, step, have);
      && |s| > 0 && s[0] == h && s[|s| - 1] == 0
      && forall i, j :: 0 <= i < j < |s| ==> s[i] > s[j]
    decreases h
  {
    if h > 0 {
      var next, step' := Max(h - step, 0), if have + 1 > 10 then 2 * step else step;
      LocatorFalls(next, step', have + 1);
      var t := LocatorHeights(next, step', have + 1);
      assert forall j :: 0 <= j < |t| ==> t[j] <= next;
    }
  }

  /** How far k doubling steps reach. */
  function Reach(step: nat, k: nat): nat
    decreases k
  {
    if k == 0 then 0 else step + Reach(2 * step, k - 1)
  }

  function Doubled(n: nat, k: nat): nat
    decreases k
  {
    if k == 0 then n else Doubled(2 * n, k - 1)
  }

  function Log2(n: nat): nat { if n < 2 then 0 else 1 + Log2(n / 2) }

  lemma {:induction false} ReachDoubles(step: nat, k: nat)
    ensures Reach(step, k) + step == Doubled(step, k)
    decreases k
  {
    if k > 0 { ReachDoubles(2 * step, k - 1); }
  }

  lemma {:induction false} DoubledTwice(n: nat, k: nat)
    ensures Doubled(2 * n, k) == 2 * Doubled(n, k)
    decreases k
  {
    if k > 0 { DoubledTwice(2 * n, k - 1); }
  }

  lemma {:induction false} BelowDoubled(n: nat)
    ensures n < Doubled(2, Log2(n))
  {
    if n >= 2 {
      BelowDoubled(n / 2);
      DoubledTwice(2, Log2(n / 2));
    }
  }

  lemma {:induction false} DoublingPhase(h: nat, step: nat, have: nat, k: nat)
    requires step > 0 && have >= 10 && h <= Reach(step, k)
    ensures |LocatorHeights(h, step, have)| <= k + 1
    decreases k
  {
    if h > 0 { DoublingPhase(Max(h - step, 0), 2 * step, have + 1, k - 1); }
  }

  lemma {:induction false} SinglePhase(h: nat, have: nat, k: nat)
    requires have <= 10 && h <= (11 - have) + Reach(2, k)
    ensures |LocatorHeights(h, 1, have)| <= (11 - have) + k + 1
    decreases 11 - have
  {
    if h > 0 {
      if have < 10 { SinglePhase(h - 1, have + 1, k); } else { DoublingPhase(h - 1, 2, 11, k); }
    }
  }

  /** A locator for a block above genesis has at most 12 + log2(height) entries. */
  lemma LocatorShort(h: nat)
    requires h > 0
    ensures |LocatorHeights(h, 1, 0)| <= 12 + Log2(h)
  {
    BelowDoubled(h);
    ReachDoubles(2, Log2(h));
    SinglePhase(h, 0, Log2(h));
  }

  // ---------- the active chain ----------

  class CChain {
    var vChain: seq<BlockIndex?>

    constructor ()
      ensures Valid() && vChain == []
    {
      vChain := [];
    }

    /** Entry i is the ancestor of the tip at height i. */
    ghost predicate Valid()
      reads this
    {
      vChain != [] ==> IsChainOf(vChain, vChain[|vChain| - 1])
    }

    function Tip(): (r: BlockIndex?)
      reads this
    {
      if vChain != [] then vChain[|vChain| - 1] else null
    }

    function At(height: int): (r: BlockIndex?)
      reads this
    {
      if height < 0 || height >= |vChain| then null else vChain[height]
    }

    predicate Contains(b: BlockIndex)
      reads this
    {
      At(b.nHeight) == b
    }

    function Height(): int
      reads this
    {
      |vChain| - 1
    }

    /** Membership by index is being an ancestor of the tip. */
    lemma ContainsAncestors(b: BlockIndex)
      requires Valid()
      ensures Contains(b) <==> vChain != [] && IsAncestor(b, vChain[|vChain| - 1])
    {
    }

    /** The successor of a block in the chain has it as parent. */
    method Next(b: BlockIndex) returns (r: BlockIndex?)
      requires Valid()
      ensures r != null <==> Contains(b) && Tip() != b
      ensures r != null ==> Contains(r) && r.pprev == b
    {
      if Contains(b) {
        r := At(b.nHeight + 1);
        if r != null { AncestorOfAncestor(vChain[|vChain| - 1], b.nHeight + 1, b.nHeight); }
      } else {
        r := null;
      }
    }

    method SetTip(tip: BlockIndex?)
      requires Valid() && (tip != null ==> Linked(tip))
      modifies this
      ensures Valid() && Tip() == tip
    {
      if tip == null {
        vChain := [];
        return;
      }
      ghost var before := vChain;
      vChain := Resize(vChain, tip.nHeight + 1);
      var pindex: BlockIndex? := tip;
      while pindex != null && vChain[pindex.nHeight] != pindex
        invariant pindex != null ==> IsAncestor(pindex, tip)
        invariant |vChain| == tip.nHeight + 1
        invariant forall i :: 0 <= i <= tip.nHeight && (pindex == null || i > pindex.nHeight) ==>
          vChain[i] == Ancestor(tip, i)
        invariant forall i :: 0 <= i <= tip.nHeight && pindex != null && i <= pindex.nHeight ==>
          vChain[i] == if i < |before| then before[i] else null
        decreases if pindex == null then 0 else pindex.nHeight + 1
      {
        if pindex.nHeight > 0 { AncestorOfAncestor(tip, pindex.nHeight, pindex.nHeight - 1); }
        vChain := vChain[pindex.nHeight := pindex];
        pindex := pindex.pprev;
      }
      if pindex != null {
        forall i | 0 <= i <= pindex.nHeight ensures vChain[i] == Ancestor(tip, i) {
          CommonBelow(before[|before| - 1], tip, pindex.nHeight, i);
        }
      }
    }

    /** The last block of the chain that is an ancestor of the given block. */
    method FindFork(b: BlockIndex?) returns (r: BlockIndex?)
      requires Valid() && (b != null ==> Linked(b) && SkipsOk(b))
      ensures b == null || vChain == [] ==> r == null
      ensures b != null && vChain != [] ==> IsLastCommon(r, b, vChain[|vChain| - 1])
    {
      if b == null { return null; }
      r := b;
      if b.nHeight > Height() { r := b.GetAncestor(Height()); }
      while r != null && !Contains(r)
        invariant r != null ==> IsAncestor(r, b)
        invariant vChain == [] ==> r == null
        invariant forall h: nat :: (r == null || h > r.nHeight) && h <= b.nHeight && h < |vChain| ==>
          vChain[h] != Ancestor(b, h)
        decreases if r == null then 0 else r.nHeight + 1
      {
        if r.nHeight > 0 { AncestorOfAncestor(b, r.nHeight, r.nHeight - 1); }
        r := r.pprev;
      }
    }

    /** Goes back to a height through the chain if possible, else through the skip list. */
    method GoBack(b: BlockIndex, height: nat) returns (r: BlockIndex?)
      requires Valid() && Linked(b) && SkipsOk(b) && height <= b.nHeight
      ensures r == Ancestor(b, height)
    {
      if Contains(b) {
        AncestorOfAncestor(vChain[|vChain| - 1], b.nHeight, height);
        r := At(height);
      } else {
        r := b.GetAncestor(height);
      }
    }

    /** The hashes of the ancestors at the locator heights. */
    method GetLocator(b: BlockIndex?) returns (vHave: seq<nat>)
      requires Valid() && (b != null ==> Linked(b) && SkipsOk(b)) && (vChain != [] ==> SkipsOk(vChain[|vChain| - 1]))
      ensures b == null && vChain == [] ==> vHave == []
      ensures var start := if b == null then Tip() else b;
        start != null ==> Located(vHave, start, LocatorHeights(start.nHeight, 1, 0))
    {
      var pindex := if b == null then Tip() else b;
      if pindex == null { return []; }
      vHave := LocatorFrom(pindex);
    }

    method LocatorFrom(start: BlockIndex) returns (vHave: seq<nat>)
      requires Valid() && Linked(start) && SkipsOk(start)
      ensures Located(vHave, start, LocatorHeights(start.nHeight, 1, 0))
    {
      var nStep := 1;
      vHave := [];
      var pindex: BlockIndex := start;
      ghost var heights: seq<nat> := [];
      LineageAllocated(start);
      while true
        invariant nStep > 0 && IsAncestor(pindex, start) && SkipsOk(start)
        invariant Located(vHave, start, heights)
        invariant LocatorHeights(start.nHeight, 1, 0) == heights + LocatorHeights(pindex.nHeight, nStep, |vHave|)
        decreases pindex.nHeight
      {
        ghost var h, done := pindex.nHeight, heights;
        vHave := vHave + [pindex.hash];
        heights := heights + [pindex.nHeight];
        if pindex.nHeight == 0 { break; }
        var nHeight := Max(pindex.nHeight - nStep, 0);
        AncestorOfAncestor(start, pindex.nHeight, nHeight);
        SkipsBelow(start, pindex.nHeight);
        pindex := GoBack(pindex, nHeight);
        if |vHave| > 10 { nStep := nStep * 2; }
        Regroup(done, h, LocatorHeights(pindex.nHeight, nStep, |vHave|));
      }
    }
  }

  function Resize(s: seq<BlockIndex?>, n: nat): seq<BlockIndex?> {
    if n <= |s| then s[..n] else s + seq(n - |s|, _ => null)
  }

  ghost predicate IsChainOf(s: seq<BlockIndex?>, tip: BlockIndex?) {
    && tip != null && Linked(tip) && |s| == tip.nHeight + 1
    && forall i :: 0 <= i < |s| ==> s[i] == Ancestor(tip, i)
  }

  /** The hashes are those of the ancestors of a block at the given heights. */
  ghost predicate Located(hashes: seq<nat>, b: BlockIndex, heights: seq<nat>)
    requires Linked(b)
  {
    |hashes| == |heights| &&
    forall i :: 0 <= i < |heights| ==> heights[i] <= b.nHeight && hashes[i] == Ancestor(b, heights[i]).hash
  }
}
