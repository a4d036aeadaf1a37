/** The block tree with its skip pointers, the active chain, and block locators. */
module Chain {
  // ---------- skip heights ----------

  function BitAnd(a: nat, b: nat): nat {
    if a == 0 || b == 0 then 0 else 2 * BitAnd(a / 2, b / 2) + (if a % 2 == 1 && b % 2 == 1 then 1 else 0)
  }

  lemma {:induction false} BitAndBelow(a: nat, b: nat)
    ensures BitAnd(a, b) <= b
  {
    if a != 0 && b != 0 { BitAndBelow(a / 2, b / 2); }
  }

  /** Turns the lowest one bit into a zero. */
  function InvertLowestOne(n: nat): (r: nat)
    ensures r < n || r == n == 0
  {
    if n == 0 then 0
    else
      BitAndBelow(n, n - 1);
      BitAnd(n, n - 1)
  }

  /** The height to which the skip pointer of a block leads. */
  function GetSkipHeight(height: nat): (r: nat)
    ensures r < height || r == height == 0
  {
    if height < 2 then 0
    else if height % 2 == 1 then InvertLowestOne(InvertLowestOne(height - 1)) + 1
    else InvertLowestOne(height)
  }

  // ---------- the block tree ----------

  class BlockIndex {
    const pprev: BlockIndex?
    const nHeight: nat
    const hash: nat
    var pskip: BlockIndex?

    constructor (pprev: BlockIndex?, hash: nat)
      requires pprev != null ==> Linked(pprev)
      ensures Linked(this) && this.pprev == pprev && this.hash == hash && pskip == null
    {
      this.pprev := pprev;
      this.hash := hash;
      nHeight := if pprev == null then 0 else pprev.nHeight + 1;
      pskip := null;
    }

    /** Points to an ancestor that is further back. */
    method BuildSkip()
      requires Linked(this) && SkipsOk(this)
      modifies this`pskip
      ensures pskip == if pprev == null then old(pskip) else Ancestor(this, GetSkipHeight(nHeight))
      ensures SkipsOk(this)
    {
      if pprev != null {
        OutOfLineage(pprev, this);
        LineageAllocated(pprev);
        pskip := pprev.GetAncestor(GetSkipHeight(nHeight));
      }
    }

    /** Walks back through skip and parent pointers to exactly the block that parent walking finds. */
    method GetAncestor(height: int) returns (r: BlockIndex?)
      requires Linked(this) && SkipsOk(this)
      ensures height > nHeight || height < 0 ==> r == null
      ensures 0 <= height <= nHeight ==> r == Ancestor(this, height)
    {
      if height > nHeight || height < 0 { return null; }
      var pindexWalk: BlockIndex, heightWalk := this, nHeight;
      while heightWalk > height
        invariant height <= heightWalk == pindexWalk.nHeight && Linked(pindexWalk) && SkipsOk(pindexWalk)
        invariant Ancestor(pindexWalk, height) == Ancestor(this, height)
      {
        var heightSkip := GetSkipHeight(heightWalk);
        var heightSkipPrev := GetSkipHeight(heightWalk - 1);
        if pindexWalk.pskip != null &&
           (heightSkip == height ||
            (heightSkip > height && !(heightSkipPrev < heightSkip - 2 && heightSkipPrev >= height)))
        {
          AncestorOfAncestor(pindexWalk, heightSkip, height);
          SkipsBelow(pindexWalk, heightSkip);
          pindexWalk := pindexWalk.pskip;
          heightWalk := heightSkip;
        } else {
          pindexWalk := pindexWalk.pprev;
          heightWalk := heightWalk - 1;
        }
      }
      r := pindexWalk;
    }
  }

  /** Heights count the parents down to a block of height zero without a parent. */
  ghost predicate Linked(b: BlockIndex)
    decreases b.nHeight
  {
    if b.nHeight == 0 then b.pprev == null
    else b.pprev != null && b.pprev.nHeight == b.nHeight - 1 && Linked(b.pprev)
  }

  /** The ancestor at a height by walking parents; a block is its own ancestor. */
  ghost function Ancestor(b: BlockIndex, h: nat): (a: BlockIndex)
    requires Linked(b) && h <= b.nHeight
    ensures Linked(a) && a.nHeight == h
    decreases b.nHeight
  {
    if h == b.nHeight then b else Ancestor(b.pprev, h)
  }

  lemma {:induction false} AncestorOfAncestor(b: BlockIndex, h: nat, k: nat)
    requires Linked(b) && k <= h <= b.nHeight
    ensures Ancestor(Ancestor(b, h), k) == Ancestor(b, k)
    decreases b.nHeight
  {
    if h < b.nHeight { AncestorOfAncestor(b.pprev, h, k); }
  }

  ghost function Lineage(b: BlockIndex): set<BlockIndex>
    requires Linked(b)
    decreases b.nHeight
  {
    {b} + if b.pprev == null then {} else Lineage(b.pprev)
  }

  /** Every skip pointer on the way to genesis is unset or leads to the ancestor at the skip height. */
  ghost predicate SkipsOk(b: BlockIndex)
    requires Linked(b)
    reads Lineage(b)
    decreases b.nHeight
  {
    SkipsBelowHeight(b) && (b.pprev != null ==> SkipsOk(b.pprev))
  }

  ghost predicate SkipsBelowHeight(b: BlockIndex)
    requires Linked(b)
    reads b
  {
    b.pskip != null ==> b.pskip == Ancestor(b, GetSkipHeight(b.nHeight))
  }

  lemma {:induction false} SkipsBelow(b: BlockIndex, h: nat)
    requires Linked(b) && h <= b.nHeight && SkipsOk(b)
    ensures SkipsOk(Ancestor(b, h))
    decreases b.nHeight
  {
    if h < b.nHeight { SkipsBelow(b.pprev, h); }
  }

  lemma {:induction false} OutOfLineage(b: BlockIndex, c: BlockIndex)
    requires Linked(b) && c.nHeight > b.nHeight
    ensures c !in Lineage(b)
    decreases b.nHeight
  {
    if b.pprev != null { OutOfLineage(b.pprev, c); }
  }

  /** All ancestors exist already, so nothing done elsewhere can change them unnoticed. */
  twostate lemma LineageAllocated(b: BlockIndex)
    requires Linked(b)
    ensures forall a :: a in Lineage(b) ==> old(allocated(a))
    decreases b.nHeight
  {
    if b.pprev != null { LineageAllocated(b.pprev); }
  }
}
