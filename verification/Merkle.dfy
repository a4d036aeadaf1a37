/** Partial Merkle trees: building, packing, and extracting a proof about some transactions of a block. */
module Merkle {
  import opened Basics
  import opened Bits

  const MAX_TRANSACTIONS := 4000000 / 240  // MAX_BLOCK_WEIGHT / MIN_TRANSACTION_WEIGHT

  type Hash = nat
  const ZERO: Hash := 0
  type HashFn = (Hash, Hash) -> Hash

  // ---------- the shape of the tree ----------

  /** The number of nodes at a height above the leaves. */
  function Width(n: nat, h: nat): nat {
    if h == 0 then n else (Width(n, h - 1) + 1) / 2
  }

  /** The first leaf below a node, if the tree were complete. */
  function Start(h: nat, pos: nat): nat
    decreases h
  {
    if h == 0 then pos else Start(h - 1, 2 * pos)
  }

  lemma StartDown(h: nat, pos: nat)
    requires h > 0
    ensures Start(h, pos) == Start(h - 1, 2 * pos)
  {
  }

  lemma {:induction false} StartMono(h: nat, a: nat, b: nat)
    requires a < b
    ensures Start(h, a) < Start(h, b)
    decreases h
  {
    if h > 0 { StartMono(h - 1, 2 * a, 2 * b); }
  }

  /** A node exists exactly when its first leaf does. */
  lemma {:induction false} InWidth(n: nat, h: nat, pos: nat)
    ensures pos < Width(n, h) <==> Start(h, pos) < n
    decreases h
  {
    if h > 0 { InWidth(n, h - 1, 2 * pos); }
  }

  /** Shifting a position left by the height gives its first leaf. */
  lemma {:induction false} StartIsShift(h: nat, pos: nat)
    ensures Start(h, pos) == pos * Pow2(h)
    decreases h
  {
    if h > 0 {
      StartIsShift(h - 1, 2 * pos);
      assert (2 * pos) * Pow2(h - 1) == pos * (2 * Pow2(h - 1));
    }
  }

  lemma {:induction false} MulMono(a: nat, b: nat, c: nat)
    requires a <= b
    ensures a * c <= b * c
  {
    if c > 0 { MulMono(a, b, c - 1); }
  }

  lemma MulLess(a: nat, b: nat, c: nat)
    requires a * c < b * c
    ensures a < b
  {
    if b <= a { MulMono(b, a, c); }
  }

  lemma RoundedUp(n: nat, p: nat, w: nat)
    requires p > 0 && n <= w * p && (w > 0 ==> (w - 1) * p < n)
    ensures (n + p - 1) / p == w
  {
    var q := (n + p - 1) / p;
    assert q * p <= n + p - 1 < (q + 1) * p;
    assert (w + 1) * p == w * p + p && (w > 0 ==> (w - 1) * p == w * p - p);
    MulLess(q, w + 1, p);
    MulLess(w, q + 1, p);
  }

  /** CalcTreeWidth computes the width by adding and shifting. */
  lemma WidthIsShift(n: nat, h: nat)
    ensures Width(n, h) == (n + Pow2(h) - 1) / Pow2(h)
  {
    var w := Width(n, h);
    InWidth(n, h, w);
    StartIsShift(h, w);
    if w > 0 {
      InWidth(n, h, w - 1);
      StartIsShift(h, w - 1);
    }
    RoundedUp(n, Pow2(h), w);
  }

  /** The lowest height, from h on, at which at most one node is left. */
  function HeightFrom(n: nat, h: nat): (r: nat)
    ensures Width(n, r) <= 1 && r >= h
    ensures Width(n, h) > 0 ==> Width(n, r) > 0
    decreases Width(n, h)
  {
    if Width(n, h) <= 1 then h else HeightFrom(n, h + 1)
  }

  function Height(n: nat): nat { HeightFrom(n, 0) }

  predicate HasRight(n: nat, h: nat, pos: nat)
    requires h > 0
  {
    2 * pos + 1 < Width(n, h - 1)
  }

  /** Both children of a node exist, or only the left one. */
  lemma ChildrenInside(n: nat, h: nat, pos: nat)
    requires h > 0 && pos < Width(n, h)
    ensures 2 * pos < Width(n, h - 1)
  {
  }

  /** The hash of a node; a missing right child counts as a copy of the left one. */
  function CalcHash(f: HashFn, txids: seq<Hash>, h: nat, pos: nat): Hash
    requires pos < Width(|txids|, h)
    decreases h
  {
    if h == 0 then txids[pos]
    else
      var left := CalcHash(f, txids, h - 1, 2 * pos);
      var right := if HasRight(|txids|, h, pos) then CalcHash(f, txids, h - 1, 2 * pos + 1) else left;
      f(left, right)
  }

  /** The node is above some matched transaction. */
  predicate ParentOfMatch(match_: seq<bool>, h: nat, pos: nat)
    requires pos < Width(|match_|, h)
    decreases h
  {
    if h == 0 then match_[pos]
    else ParentOfMatch(match_, h - 1, 2 * pos) ||
         (HasRight(|match_|, h, pos) && ParentOfMatch(match_, h - 1, 2 * pos + 1))
  }

  /** The matched positions below a node, in order. */
  function Matched(match_: seq<bool>, h: nat, pos: nat): seq<nat>
    requires pos < Width(|match_|, h)
    decreases h
  {
    if h == 0 then (if match_[pos] then [pos] else [])
    else Matched(match_, h - 1, 2 * pos) +
         (if HasRight(|match_|, h, pos) then Matched(match_, h - 1, 2 * pos + 1) else [])
  }

  // ---------- building ----------

  /** The bits and hashes of a subtree. */
  datatype Part = Part(bits: seq<bool>, hashes: seq<Hash>) {
    function Then(p: Part): Part { Part(bits + p.bits, hashes + p.hashes) }
  }

  function Build(f: HashFn, txids: seq<Hash>, match_: seq<bool>, h: nat, pos: nat): Part
    requires |txids| == |match_| && pos < Width(|txids|, h)
    decreases h
  {
    var m := ParentOfMatch(match_, h, pos);
    if h == 0 || !m then Part([m], [CalcHash(f, txids, h, pos)])
    else
      var left := Part([m], []).Then(Build(f, txids, match_, h - 1, 2 * pos));
      if HasRight(|txids|, h, pos) then left.Then(Build(f, txids, match_, h - 1, 2 * pos + 1)) else left
  }

  // ---------- extracting ----------

  /** The outcome for a subtree: its hash, the cursors, what was matched, and whether the data was bad. */
  datatype Found = Found(hash: Hash, bitsUsed: nat, hashesUsed: nat, txids: seq<Hash>, indexes: seq<nat>, bad: bool)
  {
    /** The outcome with what was found, and whether it was bad, before. */
    function After(txids: seq<Hash>, indexes: seq<nat>, bad: bool): Found {
      this.(txids := txids + this.txids, indexes := indexes + this.indexes, bad := bad || this.bad)
    }
  }

  function Extract(f: HashFn, n: nat, p: Part, h: nat, pos: nat, bitsUsed: nat, hashesUsed: nat): (r: Found)
    ensures |r.txids| == |r.indexes|
    decreases h
  {
    if bitsUsed >= |p.bits| then Found(ZERO, bitsUsed, hashesUsed, [], [], true)
    else
      var m := p.bits[bitsUsed];
      if h == 0 || !m then
        if hashesUsed >= |p.hashes| then Found(ZERO, bitsUsed + 1, hashesUsed, [], [], true)
        else
          var hash := p.hashes[hashesUsed];
          var hit := h == 0 && m;
          Found(hash, bitsUsed + 1, hashesUsed + 1, if hit then [hash] else [], if hit then [pos] else [], false)
      else
        var l := Extract(f, n, p, h - 1, 2 * pos, bitsUsed + 1, hashesUsed);
        if HasRight(n, h, pos) then
          var r := Extract(f, n, p, h - 1, 2 * pos + 1, l.bitsUsed, l.hashesUsed);
          Found(f(l.hash, r.hash), r.bitsUsed, r.hashesUsed, l.txids + r.txids, l.indexes + r.indexes,
                l.bad || r.bad || r.hash == l.hash)
        else l.(hash := f(l.hash, l.hash))
  }

  /** What extraction at an inner node adds to an earlier result, one child after the other. */
  lemma Children(f: HashFn, n: nat, p: Part, h: nat, pos: nat, bitsUsed: nat, hashesUsed: nat,
                 txids: seq<Hash>, indexes: seq<nat>, bad: bool)
    requires h > 0 && bitsUsed < |p.bits| && p.bits[bitsUsed]
    ensures var l := Extract(f, n, p, h - 1, pos * 2, bitsUsed + 1, hashesUsed).After(txids, indexes, bad);
      Extract(f, n, p, h, pos, bitsUsed, hashesUsed).After(txids, indexes, bad) ==
      if pos * 2 + 1 < Width(n, h - 1) then
        var r := Extract(f, n, p, h - 1, pos * 2 + 1, l.bitsUsed, l.hashesUsed).After(l.txids, l.indexes, l.bad);
        r.(hash := f(l.hash, r.hash), bad := r.bad || r.hash == l.hash)
      else l.(hash := f(l.hash, l.hash))
  {
    var l := Extract(f, n, p, h - 1, 2 * pos, bitsUsed + 1, hashesUsed);
    if HasRight(n, h, pos) {
      var r := Extract(f, n, p, h - 1, 2 * pos + 1, l.bitsUsed, l.hashesUsed);
      assert txids + l.txids + r.txids == txids + (l.txids + r.txids);
      assert indexes + l.indexes + r.indexes == indexes + (l.indexes + r.indexes);
    }
  }

  /** The checks of ExtractMatches before the traversal. */
  predicate Plausible(n: nat, p: Part) {
    0 < n <= MAX_TRANSACTIONS && |p.hashes| <= n && |p.bits| >= |p.hashes|
  }

  /** The checks of ExtractMatches after the traversal: nothing bad, all hashes and all bytes of bits consumed. */
  predicate Accepted(p: Part, r: Found) {
    !r.bad && (r.bitsUsed + 7) / 8 == (|p.bits| + 7) / 8 && r.hashesUsed == |p.hashes|
  }

  // ---------- soundness ----------

  ghost predicate Injective(f: HashFn) {
    forall a, b, c, d :: f(a, b) == f(c, d) ==> a == c && b == d
  }

  /** Every extracted transaction is the one the block has at that index. */
  ghost predicate Honest(txids: seq<Hash>, r: Found) {
    |r.txids| == |r.indexes| &&
    forall i :: 0 <= i < |r.txids| ==> r.indexes[i] < |txids| && r.txids[i] == txids[r.indexes[i]]
  }

  /** Whatever the bits and hashes are, a subtree that hashes to the true value holds true transactions only. */
  lemma LeafSound(f: HashFn, txids: seq<Hash>, p: Part, h: nat, pos: nat, bu: nat, hu: nat)
    requires pos < Width(|txids|, h) && !(bu < |p.bits| && h > 0 && p.bits[bu])
    requires Extract(f, |txids|, p, h, pos, bu, hu).hash == CalcHash(f, txids, h, pos)
    ensures Honest(txids, Extract(f, |txids|, p, h, pos, bu, hu))
  {
  }

  lemma NodeSound(f: HashFn, txids: seq<Hash>, p: Part, h: nat, pos: nat, bu: nat, hu: nat)
    requires h > 0 && bu < |p.bits| && p.bits[bu]
    requires var l := Extract(f, |txids|, p, h - 1, 2 * pos, bu + 1, hu);
      && Honest(txids, l)
      && (HasRight(|txids|, h, pos) ==>
            Honest(txids, Extract(f, |txids|, p, h - 1, 2 * pos + 1, l.bitsUsed, l.hashesUsed)))
    ensures Honest(txids, Extract(f, |txids|, p, h, pos, bu, hu))
  {
    hide Width;
  }

  lemma {:induction false} ExtractSound(f: HashFn, txids: seq<Hash>, p: Part, h: nat, pos: nat, bu: nat, hu: nat)
    requires Injective(f) && pos < Width(|txids|, h)
    requires var r := Extract(f, |txids|, p, h, pos, bu, hu); !r.bad && r.hash == CalcHash(f, txids, h, pos)
    ensures Honest(txids, Extract(f, |txids|, p, h, pos, bu, hu))
    decreases h
  {
    hide Width, Honest;
    if bu < |p.bits| && h > 0 && p.bits[bu] {
      ChildrenInside(|txids|, h, pos);
      var l := Extract(f, |txids|, p, h - 1, 2 * pos, bu + 1, hu);
      ExtractSound(f, txids, p, h - 1, 2 * pos, bu + 1, hu);
      if HasRight(|txids|, h, pos) {
        ExtractSound(f, txids, p, h - 1, 2 * pos + 1, l.bitsUsed, l.hashesUsed);
      }
      NodeSound(f, txids, p, h, pos, bu, hu);
    } else {
      LeafSound(f, txids, p, h, pos, bu, hu);
    }
  }

  // ---------- the round trip ----------

  /** No two sibling nodes have the same hash. */
  ghost predicate DistinctSiblings(f: HashFn, txids: seq<Hash>, h: nat, pos: nat)
    requires pos < Width(|txids|, h)
    decreases h
  {
    h == 0 ||
    (&& DistinctSiblings(f, txids, h - 1, 2 * pos)
     && (HasRight(|txids|, h, pos) ==>
           && DistinctSiblings(f, txids, h - 1, 2 * pos + 1)
           && CalcHash(f, txids, h - 1, 2 * pos) != CalcHash(f, txids, h - 1, 2 * pos + 1)))
  }

  lemma {:induction false} MatchedInside(match_: seq<bool>, h: nat, pos: nat)
    requires pos < Width(|match_|, h)
    ensures forall i :: 0 <= i < |Matched(match_, h, pos)| ==> Matched(match_, h, pos)[i] < |match_|
    ensures ParentOfMatch(match_, h, pos) <==> Matched(match_, h, pos) != []
    decreases h
  {
    if h > 0 {
      MatchedInside(match_, h - 1, 2 * pos);
      if HasRight(|match_|, h, pos) { MatchedInside(match_, h - 1, 2 * pos + 1); }
    }
  }

  /** What extraction finds in the part that was built for a subtree, wherever that part is embedded. */
  ghost predicate Recovers(f: HashFn, txids: seq<Hash>, match_: seq<bool>, h: nat, pos: nat, r: Found, bu: nat, hu: nat)
    requires |txids| == |match_| && pos < Width(|txids|, h)
  {
    var b := Build(f, txids, match_, h, pos);
    && r.hash == CalcHash(f, txids, h, pos) && !r.bad
    && r.bitsUsed == bu + |b.bits| && r.hashesUsed == hu + |b.hashes|
    && r.indexes == Matched(match_, h, pos) && Honest(txids, r)
  }

  predicate Embedded(p: Part, b: Part, bu: nat, hu: nat) {
    && bu + |b.bits| <= |p.bits| && p.bits[bu..bu + |b.bits|] == b.bits
    && hu + |b.hashes| <= |p.hashes| && p.hashes[hu..hu + |b.hashes|] == b.hashes
  }

  lemma EmbeddedThen(p: Part, a: Part, b: Part, bu: nat, hu: nat)
    requires Embedded(p, a.Then(b), bu, hu)
    ensures Embedded(p, a, bu, hu) && Embedded(p, b, bu + |a.bits|, hu + |a.hashes|)
  {
    var c := a.Then(b);
    assert p.bits[bu..bu + |a.bits|] == c.bits[..|a.bits|];
    assert p.bits[bu + |a.bits|..bu + |c.bits|] == c.bits[|a.bits|..];
    assert p.hashes[hu..hu + |a.hashes|] == c.hashes[..|a.hashes|];
    assert p.hashes[hu + |a.hashes|..hu + |c.hashes|] == c.hashes[|a.hashes|..];
  }

  lemma RecoversLeaf(f: HashFn, txids: seq<Hash>, match_: seq<bool>, p: Part, h: nat, pos: nat, bu: nat, hu: nat)
    requires |txids| == |match_| && pos < Width(|txids|, h) && (h == 0 || !ParentOfMatch(match_, h, pos))
    requires Embedded(p, Build(f, txids, match_, h, pos), bu, hu)
    ensures Recovers(f, txids, match_, h, pos, Extract(f, |txids|, p, h, pos, bu, hu), bu, hu)
  {
    MatchedInside(match_, h, pos);
    assert p.bits[bu] == p.bits[bu..bu + 1][0];
    assert p.hashes[hu] == p.hashes[hu..hu + 1][0];
  }

  lemma RecoversTwo(f: HashFn, txids: seq<Hash>, match_: seq<bool>, p: Part, h: nat, pos: nat, bu: nat, hu: nat)
    requires |txids| == |match_| && h > 0 && pos < Width(|txids|, h) && HasRight(|txids|, h, pos)
    requires ParentOfMatch(match_, h, pos) && bu < |p.bits| && p.bits[bu]
    requires CalcHash(f, txids, h - 1, 2 * pos) != CalcHash(f, txids, h - 1, 2 * pos + 1)
    requires var l := Extract(f, |txids|, p, h - 1, 2 * pos, bu + 1, hu);
      && Recovers(f, txids, match_, h - 1, 2 * pos, l, bu + 1, hu)
      && var r := Extract(f, |txids|, p, h - 1, 2 * pos + 1, l.bitsUsed, l.hashesUsed);
      Recovers(f, txids, match_, h - 1, 2 * pos + 1, r, l.bitsUsed, l.hashesUsed)
    ensures Recovers(f, txids, match_, h, pos, Extract(f, |txids|, p, h, pos, bu, hu), bu, hu)
  {
  }

  lemma RecoversOne(f: HashFn, txids: seq<Hash>, match_: seq<bool>, p: Part, h: nat, pos: nat, bu: nat, hu: nat)
    requires |txids| == |match_| && h > 0 && pos < Width(|txids|, h) && !HasRight(|txids|, h, pos)
    requires ParentOfMatch(match_, h, pos) && bu < |p.bits| && p.bits[bu]
    requires Recovers(f, txids, match_, h - 1, 2 * pos, Extract(f, |txids|, p, h - 1, 2 * pos, bu + 1, hu), bu + 1, hu)
    ensures Recovers(f, txids, match_, h, pos, Extract(f, |txids|, p, h, pos, bu, hu), bu, hu)
  {
  }

  /** Where the parts of the children of a descended node are. */
  lemma EmbeddedChildren(f: HashFn, txids: seq<Hash>, match_: seq<bool>, p: Part, h: nat, pos: nat, bu: nat, hu: nat)
    requires |txids| == |match_| && h > 0 && pos < Width(|txids|, h) && ParentOfMatch(match_, h, pos)
    requires Embedded(p, Build(f, txids, match_, h, pos), bu, hu)
    ensures bu < |p.bits| && p.bits[bu]
    ensures var l := Build(f, txids, match_, h - 1, 2 * pos);
      && Embedded(p, l, bu + 1, hu)
      && (HasRight(|txids|, h, pos) ==>
            Embedded(p, Build(f, txids, match_, h - 1, 2 * pos + 1), bu + 1 + |l.bits|, hu + |l.hashes|))
  {
    hide Width, Embedded, ParentOfMatch;
    ChildrenInside(|txids|, h, pos);
    var top, l := Part([true], []), Build(f, txids, match_, h - 1, 2 * pos);
    if HasRight(|txids|, h, pos) {
      EmbeddedThen(p, top.Then(l), Build(f, txids, match_, h - 1, 2 * pos + 1), bu, hu);
    }
    EmbeddedThen(p, top, l, bu, hu);
    assert p.bits[bu] == p.bits[bu..bu + 1][0];
  }

  /** Extraction of a built part gives back the hash and exactly the matched transactions, in order. */
  lemma {:induction false} ExtractBuilt(
    f: HashFn, txids: seq<Hash>, match_: seq<bool>, p: Part, h: nat, pos: nat, bu: nat, hu: nat)
    requires |txids| == |match_| && pos < Width(|txids|, h)
    requires DistinctSiblings(f, txids, h, pos)
    requires Embedded(p, Build(f, txids, match_, h, pos), bu, hu)
    ensures Recovers(f, txids, match_, h, pos, Extract(f, |txids|, p, h, pos, bu, hu), bu, hu)
    decreases h
  {
    hide Build, Extract, Embedded, ParentOfMatch, CalcHash;
    if h == 0 || !ParentOfMatch(match_, h, pos) {
      RecoversLeaf(f, txids, match_, p, h, pos, bu, hu);
    } else {
      EmbeddedChildren(f, txids, match_, p, h, pos, bu, hu);
      ExtractBuilt(f, txids, match_, p, h - 1, 2 * pos, bu + 1, hu);
      if HasRight(|txids|, h, pos) {
        var l := Build(f, txids, match_, h - 1, 2 * pos);
        ExtractBuilt(f, txids, match_, p, h - 1, 2 * pos + 1, bu + 1 + |l.bits|, hu + |l.hashes|);
        RecoversTwo(f, txids, match_, p, h, pos, bu, hu);
      } else {
        RecoversOne(f, txids, match_, p, h, pos, bu, hu);
      }
    }
  }

  // ---------- sizes ----------

  /** The number of leaves below a node. */
  function Leaves(n: nat, h: nat, pos: nat): nat
    requires pos < Width(n, h)
    decreases h
  {
    if h == 0 then 1
    else Leaves(n, h - 1, 2 * pos) + if HasRight(n, h, pos) then Leaves(n, h - 1, 2 * pos + 1) else 0
  }

  /** The number of descended nodes below and including this one that have a left child only. */
  function Singles(match_: seq<bool>, h: nat, pos: nat): nat
    requires pos < Width(|match_|, h)
    decreases h
  {
    if h == 0 || !ParentOfMatch(match_, h, pos) then 0
    else if HasRight(|match_|, h, pos) then Singles(match_, h - 1, 2 * pos) + Singles(match_, h - 1, 2 * pos + 1)
    else 1 + Singles(match_, h - 1, 2 * pos)
  }

  /** How many bits and hashes a part has. */
  lemma {:induction false} BuildSizes(f: HashFn, txids: seq<Hash>, match_: seq<bool>, h: nat, pos: nat)
    requires |txids| == |match_| && pos < Width(|txids|, h)
    ensures var b := Build(f, txids, match_, h, pos);
      && 1 <= |b.hashes| <= Leaves(|txids|, h, pos)
      && |b.bits| == 2 * |b.hashes| - 1 + Singles(match_, h, pos)
    decreases h
  {
    LeavesPositive(|txids|, h, pos);
    if h > 0 && ParentOfMatch(match_, h, pos) {
      BuildSizes(f, txids, match_, h - 1, 2 * pos);
      if HasRight(|txids|, h, pos) { BuildSizes(f, txids, match_, h - 1, 2 * pos + 1); }
    }
  }

  lemma {:induction false} LeavesPositive(n: nat, h: nat, pos: nat)
    requires pos < Width(n, h)
    ensures Leaves(n, h, pos) >= 1
    decreases h
  {
    if h > 0 { LeavesPositive(n, h - 1, 2 * pos); }
  }

  /** A proof for few transactions is small: one hash and then at most one for each level of each match. */
  lemma {:induction false} HashesFewMatches(f: HashFn, txids: seq<Hash>, match_: seq<bool>, h: nat, pos: nat)
    requires |txids| == |match_| && pos < Width(|txids|, h)
    ensures |Build(f, txids, match_, h, pos).hashes| <= 1 + |Matched(match_, h, pos)| * h
    decreases h
  {
    hide CalcHash;
    MatchedInside(match_, h, pos);
    if h > 0 && ParentOfMatch(match_, h, pos) {
      HashesFewMatches(f, txids, match_, h - 1, 2 * pos);
      var ml := |Matched(match_, h - 1, 2 * pos)|;
      if HasRight(|txids|, h, pos) {
        HashesFewMatches(f, txids, match_, h - 1, 2 * pos + 1);
        LevelCost(ml, |Matched(match_, h - 1, 2 * pos + 1)|, h);
      } else {
        LevelCost(ml, 0, h);
      }
    }
  }

  lemma LevelCost(a: nat, b: nat, h: nat)
    requires h > 0 && a + b >= 1
    ensures 1 + a * (h - 1) + 1 + b * (h - 1) <= 1 + (a + b) * h
  {
    assert (a + b) * h == a * (h - 1) + b * (h - 1) + (a + b);
  }

  // ---------- which leaves are below a node ----------

  /** The matched positions in a range. */
  function Indexes(match_: seq<bool>, lo: nat, hi: nat): seq<nat>
    requires lo <= hi <= |match_|
    decreases hi - lo
  {
    if lo == hi then [] else (if match_[lo] then [lo] else []) + Indexes(match_, lo + 1, hi)
  }

  lemma {:induction false} IndexesSplit(match_: seq<bool>, lo: nat, mid: nat, hi: nat)
    requires lo <= mid <= hi <= |match_|
    ensures Indexes(match_, lo, hi) == Indexes(match_, lo, mid) + Indexes(match_, mid, hi)
    decreases mid - lo
  {
    if lo < mid { IndexesSplit(match_, lo + 1, mid, hi); }
  }

  /** The first leaf below a node, or the number of leaves when the node is beyond the end. */
  function First(n: nat, h: nat, pos: nat): nat { Min(Start(h, pos), n) }

  lemma ChildRanges(n: nat, h: nat, pos: nat)
    requires h > 0 && pos < Width(n, h)
    ensures First(n, h, pos) == First(n, h - 1, 2 * pos) <= First(n, h - 1, 2 * pos + 1) <= First(n, h - 1, 2 * pos + 2)
    ensures First(n, h, pos + 1) == First(n, h - 1, 2 * pos + 2) <= n
    ensures !HasRight(n, h, pos) ==> First(n, h - 1, 2 * pos + 1) == First(n, h - 1, 2 * pos + 2) == n
  {
    hide Start, Width;
    StartDown(h, pos);
    StartDown(h, pos + 1);
    StartMono(h - 1, 2 * pos, 2 * pos + 1);
    StartMono(h - 1, 2 * pos + 1, 2 * pos + 2);
    InWidth(n, h - 1, 2 * pos + 1);
  }

  lemma CoversLeaf(match_: seq<bool>, pos: nat)
    requires pos < Width(|match_|, 0)
    ensures var n := |match_|; var lo, hi := First(n, 0, pos), First(n, 0, pos + 1);
      lo < hi && Leaves(n, 0, pos) == hi - lo && Matched(match_, 0, pos) == Indexes(match_, lo, hi)
  {
    assert Indexes(match_, pos + 1, pos + 1) == [];
  }

  /** A subtree covers a contiguous range of leaves, and its matches are the matches in that range. */
  lemma {:induction false} Covers(match_: seq<bool>, h: nat, pos: nat)
    requires pos < Width(|match_|, h)
    ensures var n := |match_|; var lo, hi := First(n, h, pos), First(n, h, pos + 1);
      lo < hi && Leaves(n, h, pos) == hi - lo && Matched(match_, h, pos) == Indexes(match_, lo, hi)
    decreases h
  {
    hide First, Indexes;
    var n := |match_|;
    if h == 0 {
      CoversLeaf(match_, pos);
    } else {
      ChildRanges(n, h, pos);
      Covers(match_, h - 1, 2 * pos);
      if HasRight(n, h, pos) {
        Covers(match_, h - 1, 2 * pos + 1);
        IndexesSplit(match_, First(n, h, pos), First(n, h - 1, 2 * pos + 1), First(n, h, pos + 1));
      }
    }
  }

  /** The loop that decides whether a node is above a match looks at exactly these leaves. */
  lemma AnyMatch(match_: seq<bool>, h: nat, pos: nat)
    requires pos < Width(|match_|, h)
    ensures ParentOfMatch(match_, h, pos) <==>
      exists p :: First(|match_|, h, pos) <= p < First(|match_|, h, pos + 1) && match_[p]
  {
    Covers(match_, h, pos);
    MatchedInside(match_, h, pos);
    IndexesAny(match_, First(|match_|, h, pos), First(|match_|, h, pos + 1));
  }

  lemma {:induction false} IndexesAny(match_: seq<bool>, lo: nat, hi: nat)
    requires lo <= hi <= |match_|
    ensures Indexes(match_, lo, hi) != [] <==> exists p :: lo <= p < hi && match_[p]
    decreases hi - lo
  {
    if lo < hi {
      IndexesAny(match_, lo + 1, hi);
    }
  }

  // ---------- the whole object ----------

  /** What the constructor stores for a block. */
  function Tree(f: HashFn, txids: seq<Hash>, match_: seq<bool>): Part
    requires |txids| == |match_| > 0
  {
    Build(f, txids, match_, Height(|txids|), 0)
  }

  function Root(f: HashFn, txids: seq<Hash>): Hash
    requires |txids| > 0
  {
    CalcHash(f, txids, Height(|txids|), 0)
  }

  /** ExtractMatches: the root, or ZERO when the data is rejected, and the transactions found on the way. */
  function ExtractMatches(f: HashFn, n: nat, p: Part): (r: (Hash, seq<Hash>, seq<nat>)) {
    if !Plausible(n, p) then (ZERO, [], [])
    else
      var r := Extract(f, n, p, Height(n), 0, 0, 0);
      (if Accepted(p, r) then r.hash else ZERO, r.txids, r.indexes)
  }

  /** A proof that yields the true root, for the true number of transactions, proves each transaction it yields. */
  lemma ProofsAreSound(f: HashFn, txids: seq<Hash>, p: Part)
    requires Injective(f) && |txids| > 0 && Root(f, txids) != ZERO
    requires ExtractMatches(f, |txids|, p).0 == Root(f, txids)
    ensures var (_, found, indexes) := ExtractMatches(f, |txids|, p);
      && |found| == |indexes|
      && forall i :: 0 <= i < |found| ==> indexes[i] < |txids| && found[i] == txids[indexes[i]]
  {
    ExtractSound(f, txids, p, Height(|txids|), 0, 0, 0);
  }

  /** The bytes hold the bits, least significant first, and zeros after them. */
  ghost predicate Packed(bits: seq<bool>, bytes: seq<bv8>) {
    && |bytes| == (|bits| + 7) / 8
    && forall p :: 0 <= p < 8 * |bytes| ==> HasBit(bytes[p / 8], p % 8) == (p < |bits| && bits[p])
  }

  function Unpack(bytes: seq<bv8>): (bits: seq<bool>)
    ensures |bits| == 8 * |bytes|
  {
    seq(8 * |bytes|, p requires 0 <= p < 8 * |bytes| => HasBit(bytes[p / 8], p % 8))
  }

  /** The root, and exactly the matched transactions and their positions, in order. */
  ghost predicate IsAnswer(f: HashFn, txids: seq<Hash>, match_: seq<bool>, r: (Hash, seq<Hash>, seq<nat>))
    requires 0 < |txids| == |match_|
  {
    && r.0 == Root(f, txids)
    && r.2 == Indexes(match_, 0, |match_|)
    && |r.1| == |r.2|
    && forall i :: 0 <= i < |r.1| ==> r.2[i] < |txids| && r.1[i] == txids[r.2[i]]
  }

  lemma ExtractTree(f: HashFn, txids: seq<Hash>, match_: seq<bool>, p: Part)
    requires 0 < |txids| == |match_| <= MAX_TRANSACTIONS
    requires DistinctSiblings(f, txids, Height(|txids|), 0)
    requires var b := Tree(f, txids, match_);
      p.hashes == b.hashes && b.bits <= p.bits && (|p.bits| + 7) / 8 == (|b.bits| + 7) / 8
    ensures IsAnswer(f, txids, match_, ExtractMatches(f, |txids|, p))
  {
    var h, b := Height(|txids|), Tree(f, txids, match_);
    assert p.bits[0..|b.bits|] == b.bits && p.hashes[0..|b.hashes|] == b.hashes;
    ExtractBuilt(f, txids, match_, p, h, 0, 0, 0);
    TreeSizes(f, txids, match_);
    WholeRange(match_, h);
  }

  /** Build, pack, unpack, extract: everything comes back. */
  lemma RoundTrip(f: HashFn, txids: seq<Hash>, match_: seq<bool>, bytes: seq<bv8>)
    requires 0 < |txids| == |match_| <= MAX_TRANSACTIONS
    requires DistinctSiblings(f, txids, Height(|txids|), 0)
    requires Packed(Tree(f, txids, match_).bits, bytes)
    ensures IsAnswer(f, txids, match_, ExtractMatches(f, |txids|, Part(Unpack(bytes), Tree(f, txids, match_).hashes)))
  {
    ExtractTree(f, txids, match_, Part(Unpack(bytes), Tree(f, txids, match_).hashes));
  }

  lemma WholeRange(match_: seq<bool>, h: nat)
    requires Width(|match_|, h) == 1
    ensures Matched(match_, h, 0) == Indexes(match_, 0, |match_|) && Leaves(|match_|, h, 0) == |match_|
  {
    Covers(match_, h, 0);
    InWidth(|match_|, h, 1);
    StartZero(h);
  }

  lemma {:induction false} StartZero(h: nat)
    ensures Start(h, 0) == 0
  {
    if h > 0 { StartZero(h - 1); }
  }

  /** The documented bounds on the number of hashes. */
  lemma TreeSizes(f: HashFn, txids: seq<Hash>, match_: seq<bool>)
    requires 0 < |txids| == |match_|
    ensures var t := Tree(f, txids, match_);
      && |t.hashes| <= |txids| && |t.hashes| <= |t.bits|
      && |t.hashes| <= 1 + |Indexes(match_, 0, |match_|)| * Height(|txids|)
  {
    var h := Height(|txids|);
    BuildSizes(f, txids, match_, h, 0);
    HashesFewMatches(f, txids, match_, h, 0);
    WholeRange(match_, h);
  }

  // ---------- the documented bound on the number of bits ----------

  /** At level h the last node has a left child only, and it is above a match. */
  predicate LonelyMatch(match_: seq<bool>, h: nat)
    requires h > 0 && Width(|match_|, h) > 0
  {
    Width(|match_|, h - 1) % 2 == 1 && ParentOfMatch(match_, h, Width(|match_|, h) - 1)
  }

  lemma {:induction false} WidthPositive(n: nat, h: nat)
    ensures Width(n, h) > 0 <==> n > 0
  {
    if h > 0 { WidthPositive(n, h - 1); }
  }

  ghost predicate NoLonelyMatch(match_: seq<bool>, h: nat)
    requires |match_| > 0
  {
    forall k :: 1 <= k <= h ==> (WidthPositive(|match_|, k); !LonelyMatch(match_, k))
  }

  lemma {:induction false} SinglesAreLonely(match_: seq<bool>, h: nat, pos: nat)
    requires |match_| > 0 && pos < Width(|match_|, h)
    ensures pos + 1 < Width(|match_|, h) ==> Singles(match_, h, pos) == 0
    ensures pos + 1 == Width(|match_|, h) ==> (Singles(match_, h, pos) == 0 <==> NoLonelyMatch(match_, h))
    decreases h
  {
    if h > 0 {
      WidthPositive(|match_|, h);
      SinglesAreLonely(match_, h - 1, 2 * pos);
      if HasRight(|match_|, h, pos) { SinglesAreLonely(match_, h - 1, 2 * pos + 1); }
      if pos + 1 == Width(|match_|, h) {
        assert NoLonelyMatch(match_, h) <==> NoLonelyMatch(match_, h - 1) && !LonelyMatch(match_, h);
      }
    }
  }

  /**
   * The comment in the source bounds the bits by 2 * hashes - 1. That is right exactly when no node
   * with a left child only is above a match.
   */
  lemma BitsBound(f: HashFn, txids: seq<Hash>, match_: seq<bool>)
    requires 0 < |txids| == |match_|
    ensures var t := Tree(f, txids, match_);
      |t.bits| <= 2 * |t.hashes| - 1 <==> NoLonelyMatch(match_, Height(|txids|))
  {
    BuildSizes(f, txids, match_, Height(|txids|), 0);
    SinglesAreLonely(match_, Height(|txids|), 0);
  }

  /** Five transactions of which the last is matched: five bits for two hashes. */
  lemma FiveTransactions(f: HashFn, txids: seq<Hash>)
    requires |txids| == 5
    ensures var t := Tree(f, txids, [false, false, false, false, true]); |t.bits| == 5 && |t.hashes| == 2
  {
    var m := [false, false, false, false, true];
    assert Width(5, 0) == 5 && Width(5, 1) == 3 && Width(5, 2) == 2 && Width(5, 3) == 1;
    assert Height(5) == 3 by {
      assert HeightFrom(5, 3) == 3;
      assert HeightFrom(5, 2) == 3;
      assert HeightFrom(5, 1) == 3;
    }
    assert !ParentOfMatch(m, 0, 0) && !ParentOfMatch(m, 0, 1) && !ParentOfMatch(m, 0, 2) && !ParentOfMatch(m, 0, 3);
    assert !ParentOfMatch(m, 1, 0) && !ParentOfMatch(m, 1, 1) && ParentOfMatch(m, 1, 2);
    assert !ParentOfMatch(m, 2, 0) && ParentOfMatch(m, 2, 1);
    assert |Build(f, txids, m, 1, 2).bits| == 2 && |Build(f, txids, m, 1, 2).hashes| == 1;
    assert |Build(f, txids, m, 2, 1).bits| == 3 && |Build(f, txids, m, 2, 1).hashes| == 1;
    assert |Build(f, txids, m, 2, 0).bits| == 1 && |Build(f, txids, m, 2, 0).hashes| == 1;
  }
}
