/** Selection of transaction packages for a new block. */
module Miner {
  import opened Basics
  import opened MinerPool
  import opened MinerPackages
  import opened MinerScore

  const MAX_BLOCK_WEIGHT := 4000000
  const MAX_BLOCK_SIGOPS_COST := 80000
  const COINBASE_WEIGHT := 4000
  const COINBASE_SIGOPS := 400
  const MAX_CONSECUTIVE_FAILURES := 1000

  /** A fee rate per thousand bytes applied to a size; the division truncates toward zero. */
  function GetFee(perK: int, size: nat): int {
    var fee := if perK < 0 then -((-perK * size) / 1000) else (perK * size) / 1000;
    if fee == 0 && size != 0 then (if perK > 0 then 1 else if perK < 0 then -1 else 0) else fee
  }

  /** A package total covers at least the transaction itself. */
  lemma TotalPositive(p: Pool, e: Modified, t: TxId, included: set<TxId>, failed: bool)
    requires PoolOk(p) && t in p.mapTx && t !in included && TotalOk(p, e, t, included, failed)
    ensures Positive(ScoreOf(p, t, e)) && e.sigOps >= 0
  {
    assert {t} <= Package(p, t) - included;
    TotalMonotone(p, Size, {t}, Package(p, t) - included);
    TotalMonotone(p, SigOps, {t}, Package(p, t) - included);
    SumSingle(p, Size, p.mapTx, t);
  }

  /** A package that passes the limits by its cached totals keeps the block within them. */
  lemma PackageFits(p: Pool, e: Modified, t: TxId, block: set<TxId>, failed: bool)
    requires PoolOk(p) && TotalOk(p, e, t, block, failed)
    ensures Total(p, Weight, block + Package(p, t)) <= Total(p, Weight, block) + WITNESS_SCALE_FACTOR * e.size
    ensures Total(p, SigOps, block + Package(p, t)) <= Total(p, SigOps, block) + e.sigOps
  {
    var rest := Package(p, t) - block;
    assert block + Package(p, t) == block + rest;
    SumUnion(p, Weight, p.mapTx, block, rest);
    SumUnion(p, SigOps, p.mapTx, block, rest);
    SizeCoversWeight(p, p.mapTx, rest);
  }

  /** A block after a sorted package has been put behind it. */
  lemma Grown(p: Pool, vtx: seq<TxId>, t: TxId, sorted: seq<TxId>, e: Modified)
    requires PoolOk(p) && Ordered(p, vtx) && Closed(p, Elements(vtx)) && Follows(p, vtx, t, sorted)
    requires TotalOk(p, e, t, Elements(vtx), true)
    ensures forall x :: x in sorted ==> x in p.mapTx && x !in vtx
    ensures var all := Elements(vtx + sorted);
      && all == Elements(vtx) + Elements(sorted)
      && Ordered(p, vtx + sorted) && Closed(p, all)
      && Total(p, Weight, all) <= Total(p, Weight, Elements(vtx)) + WITNESS_SCALE_FACTOR * e.size
      && Total(p, SigOps, all) <= Total(p, SigOps, Elements(vtx)) + e.sigOps
  {
    var block := Elements(vtx);
    AncestorsInPool(p, t);
    assert forall x :: x in sorted ==> x in Elements(sorted);
    assert Elements(vtx + sorted) == block + Elements(sorted) == block + Package(p, t);
    PackageFits(p, e, t, block, true);
    PackageClosed(p, block, t);
    PackageOrdered(p, vtx, t, sorted);
  }

  lemma Shrinks(all: set<TxId>, before: set<TxId>, block: set<TxId>, t: TxId)
    requires before <= block && t in all && t !in before && t in block
    ensures all - block < all - before
  {
    assert t in all - before && t !in all - block;
  }

  /** How far a block is filled. */
  datatype Filling = Filling(entries: set<TxId>, weight: int, sigOps: int)

  class BlockAssembler {
    const pool: Pool
    const before: (Score, Score) -> bool
    const minFeePerK: int
    const nBlockMaxWeight: nat
    const fIncludeWitness: bool

    var vtx: seq<TxId>
    var vTxFees: seq<int>
    var vTxSigOpsCost: seq<int>
    var nBlockWeight: int
    var nBlockTx: nat
    var nBlockSigOpsCost: int
    var nFees: int
    var inBlock: set<TxId>

    predicate Suitable(t: TxId) { pool.entry(t).isFinal && (fIncludeWitness || !pool.entry(t).hasWitness) }

    /** The counters and the set of included entries describe the block. */
    ghost predicate Counted()
      reads this
    {
      && inBlock == Elements(vtx)
      && nBlockTx == |vtx| == |vTxFees| == |vTxSigOpsCost|
      && Weighed(Now())
      && nFees == Total(pool, Fee, inBlock)
      && (forall i :: 0 <= i < |vtx| ==>
            vTxFees[i] == pool.entry(vtx[i]).fee && vTxSigOpsCost[i] == pool.entry(vtx[i]).sigOps)
    }

    ghost predicate Configured() {
      && PoolOk(pool) && IsOrder(before) && ScoreOrdered(pool, before)
      && COINBASE_WEIGHT <= nBlockMaxWeight <= MAX_BLOCK_WEIGHT - COINBASE_WEIGHT
    }

    /** The block can be mined: no repetition, ancestors first, suitable transactions, within the limits. */
    ghost predicate BlockOk()
      reads this
    {
      && Configured()
      && Counted()
      && Ordered(pool, vtx) && Closed(pool, inBlock)
      && (forall t :: t in inBlock ==> Suitable(t))
      && nBlockWeight <= nBlockMaxWeight
      && nBlockSigOpsCost < MAX_BLOCK_SIGOPS_COST
    }

    constructor (pool: Pool, before: (Score, Score) -> bool, maxWeight: nat, minFeePerK: int, fIncludeWitness: bool)
      requires PoolOk(pool) && IsOrder(before) && ScoreOrdered(pool, before)
      ensures BlockOk() && this.pool == pool && vtx == []
    {
      this.pool := pool;
      this.before := before;
      this.minFeePerK := minFeePerK;
      this.fIncludeWitness := fIncludeWitness;
      nBlockMaxWeight := Max(4000, if maxWeight < MAX_BLOCK_WEIGHT - 4000 then maxWeight else MAX_BLOCK_WEIGHT - 4000);
      new;
      ResetBlock();
    }

    method ResetBlock()
      requires Configured()
      modifies this
      ensures BlockOk() && vtx == []
    {
      inBlock, vtx, vTxFees, vTxSigOpsCost := {}, [], [], [];
      nBlockWeight, nBlockSigOpsCost, nBlockTx, nFees := COINBASE_WEIGHT, COINBASE_SIGOPS, 0, 0;
      SumAbsent(pool, Weight, pool.mapTx, {});
      SumAbsent(pool, SigOps, pool.mapTx, {});
      SumAbsent(pool, Fee, pool.mapTx, {});
    }

    method OnlyUnconfirmed(testSet: set<TxId>) returns (r: set<TxId>)
      ensures r == testSet - inBlock
    {
      r := testSet;
      var rest := testSet;
      while rest != {}
        invariant rest <= r && r == (testSet - inBlock) + rest
      {
        var it :| it in rest;
        rest := rest - {it};
        if it in inBlock { r := r - {it}; }
      }
    }

    method TestPackage(packageSize: int, packageSigOpsCost: int) returns (r: bool)
      ensures r == (
        && nBlockWeight + WITNESS_SCALE_FACTOR * packageSize < nBlockMaxWeight
        && nBlockSigOpsCost + packageSigOpsCost < MAX_BLOCK_SIGOPS_COST)
    {
      if nBlockWeight + WITNESS_SCALE_FACTOR * packageSize >= nBlockMaxWeight { return false; }
      if nBlockSigOpsCost + packageSigOpsCost >= MAX_BLOCK_SIGOPS_COST { return false; }
      return true;
    }

    method TestPackageTransactions(package: set<TxId>) returns (r: bool)
      ensures r <==> forall t :: t in package ==> Suitable(t)
    {
      var rest := package;
      while rest != {}
        invariant rest <= package && forall t :: t in package && t !in rest ==> Suitable(t)
      {
        var it :| it in rest;
        if !pool.entry(it).isFinal { return false; }
        if !fIncludeWitness && pool.entry(it).hasWitness { return false; }
        rest := rest - {it};
      }
      return true;
    }

    method AddToBlock(t: TxId)
      requires NoDuplicates(pool.mapTx) && t in pool.mapTx && t !in inBlock && Counted()
      modifies this
      ensures Counted() && vtx == old(vtx) + [t]
    {
      TotalAdd(pool, Weight, inBlock, t);
      TotalAdd(pool, SigOps, inBlock, t);
      TotalAdd(pool, Fee, inBlock, t);
      vtx := vtx + [t];
      vTxFees := vTxFees + [pool.entry(t).fee];
      vTxSigOpsCost := vTxSigOpsCost + [pool.entry(t).sigOps];
      nBlockWeight := nBlockWeight + pool.entry(t).weight;
      nBlockTx := nBlockTx + 1;
      nBlockSigOpsCost := nBlockSigOpsCost + pool.entry(t).sigOps;
      nFees := nFees + pool.entry(t).fee;
      inBlock := inBlock + {t};
    }

    method EarliestOf(package: set<TxId>) returns (first: TxId)
      requires package != {}
      ensures first in package && forall t :: t in package && t != first ==> Earlier(pool, first, t)
    {
      first :| first in package;
      var rest := package - {first};
      while rest != {}
        invariant rest <= package && first in package && first !in rest
        invariant forall t :: t in package && t !in rest && t != first ==> Earlier(pool, first, t)
      {
        var t :| t in rest;
        rest := rest - {t};
        if Earlier(pool, t, first) { first := t; }
      }
    }

    /** Sorts a package by ancestor count, then hash. */
    method SortForBlock(package: set<TxId>) returns (sorted: seq<TxId>)
      ensures SortedForBlock(pool, sorted) && Elements(sorted) == package
    {
      sorted := [];
      var rest := package;
      while rest != {}
        invariant rest !! Elements(sorted) && Elements(sorted) + rest == package
        invariant SortedForBlock(pool, sorted)
        invariant forall i, t :: 0 <= i < |sorted| && t in rest ==> Earlier(pool, sorted[i], t)
      {
        var t := EarliestOf(rest);
        sorted := sorted + [t];
        rest := rest - {t};
      }
    }

    /** Takes one included transaction out of the packages of its descendants outside `added`. */
    method UpdateDescendants(t: TxId, added: set<TxId>, modified: ModifiedSet) returns (r: ModifiedSet)
      requires LinksOk(pool) && t in pool.mapTx
      ensures r == Deducted(pool, modified, t, Descendants(pool, t) - added)
    {
      r := modified;
      var descendants := CalculateDescendants(pool, t);
      var rest := descendants - added;
      ghost var all := rest;
      while rest != {}
        invariant rest <= all && r == Deducted(pool, modified, t, all - rest)
      {
        var desc :| desc in rest;
        DeductedStep(pool, modified, t, all - rest, desc);
        r := r[desc := LessFor(pool, r, t, desc)];
        assert all - (rest - {desc}) == all - rest + {desc};
        rest := rest - {desc};
      }
      assert all - rest == all;
    }

    /** Accounts for newly included transactions in the packages that contain them. */
    method UpdatePackagesForAdded(alreadyAdded: set<TxId>, modified: ModifiedSet, ghost failed: set<TxId>)
      returns (r: ModifiedSet)
      requires PoolOk(pool) && Closed(pool, inBlock) && Closed(pool, inBlock - alreadyAdded) && alreadyAdded <= inBlock
      requires Tracked(pool, modified, inBlock - alreadyAdded, inBlock, failed)
      ensures Tracked(pool, r, inBlock, inBlock, failed) && modified.Keys <= r.Keys
    {
      hide Tracked, LinksOk, Descendants;
      r := modified;
      var rest := alreadyAdded;
      while rest != {}
        invariant rest <= alreadyAdded && modified.Keys <= r.Keys && Tracked(pool, r, inBlock - rest, inBlock, failed)
      {
        var it :| it in rest;
        NewDescendants(pool, inBlock - alreadyAdded, alreadyAdded, it);
        assert inBlock - alreadyAdded + alreadyAdded == inBlock;
        DeductedTracked(pool, r, inBlock - rest, inBlock, failed, it, Descendants(pool, it) - inBlock);
        r := UpdateDescendants(it, alreadyAdded, r);
        assert inBlock - (rest - {it}) == inBlock - rest + {it};
        rest := rest - {it};
      }
      assert inBlock - rest == inBlock;
    }

    /**
     * Whether an entry of mapTx needs no look: it is in the block, a candidate already, or has no room. Of an entry
     * that is not skipped the stored totals are exact, as no ancestor of it is in the block.
     */
    method SkipMapTxEntry(it: TxId, modified: ModifiedSet, failedTx: set<TxId>) returns (r: bool)
      requires PoolOk(pool) && it in pool.mapTx && Tracked(pool, modified, inBlock, inBlock, failedTx)
      requires Hopeless(Now(), failedTx)
      ensures r ==> Settled(Now(), modified, it)
      ensures !r ==> it !in modified && it !in inBlock && Ancestors(pool, it) !! inBlock
      ensures !r ==> TotalOk(pool, pool.entry(it).withAncestors, it, inBlock, false)
    {
      hide NoRoomIn;
      if it !in modified && it !in inBlock && it !in failedTx { StoredTotalOk(pool, it, inBlock, false); }
      r := it in modified || it in inBlock || it in failedTx;
    }

    /** The total that belongs to a candidate. */
    function TotalsOf(t: TxId, modified: ModifiedSet): Modified {
      if t in modified then modified[t] else pool.entry(t).withAncestors
    }

    /** Chooses the candidate to evaluate: no cached entry and no remaining entry of mapTx has a better score. */
    method NextCandidate(mi: nat, modified: ModifiedSet, ghost failed: set<TxId>)
      returns (t: TxId, fUsingModified: bool)
      requires PoolOk(pool) && ScoreOrdered(pool, before) && IsOrder(before)
      requires Tracked(pool, modified, inBlock, inBlock, failed)
      requires mi < |pool.mapTx| || modified != map[]
      requires mi < |pool.mapTx| ==> pool.mapTx[mi] !in modified && pool.mapTx[mi] !in inBlock
      ensures t in pool.mapTx && t !in inBlock
      ensures fUsingModified == (t in modified)
      ensures !fUsingModified ==> mi < |pool.mapTx| && t == pool.mapTx[mi]
      ensures forall u :: u in modified ==>
        !before(ScoreOf(pool, u, modified[u]), ScoreOf(pool, t, TotalsOf(t, modified)))
      ensures forall j :: mi <= j < |pool.mapTx| ==>
        !before(StoredScore(pool, pool.mapTx[j]), ScoreOf(pool, t, TotalsOf(t, modified)))
    {
      hide PoolOk;
      AllPositive(modified, failed);
      if mi >= |pool.mapTx| {
        t := First(pool, modified, before);
        fUsingModified := true;
        return;
      }
      t, fUsingModified := pool.mapTx[mi], false;
      if modified != map[] {
        var best := First(pool, modified, before);
        if before(ScoreOf(pool, best, modified[best]), StoredScore(pool, t)) {
          t, fUsingModified := best, true;
        }
      }
    }

    lemma AllPositive(modified: ModifiedSet, failed: set<TxId>)
      requires PoolOk(pool) && Tracked(pool, modified, inBlock, inBlock, failed)
      ensures forall u :: u in modified ==> Positive(ScoreOf(pool, u, modified[u]))
      ensures forall u :: u in pool.mapTx ==> Positive(StoredScore(pool, u))
    {
      forall u | u in modified ensures Positive(ScoreOf(pool, u, modified[u])) {
        TotalPositive(pool, modified[u], u, inBlock, u in failed);
      }
      forall u | u in pool.mapTx ensures Positive(StoredScore(pool, u)) {
        StoredTotalOk(pool, u, {}, true);
        TotalPositive(pool, pool.entry(u).withAncestors, u, {}, true);
      }
    }

    /** Adds a package in block order and takes its transactions out of mapModifiedTx. */
    method AddPackage(sorted: seq<TxId>, modified: ModifiedSet) returns (r: ModifiedSet)
      requires NoDuplicates(pool.mapTx) && Counted() && SortedForBlock(pool, sorted)
      requires forall t :: t in sorted ==> t in pool.mapTx && t !in inBlock
      modifies this
      ensures Counted() && vtx == old(vtx) + sorted && r == modified - Elements(sorted)
    {
      r := modified;
      for i := 0 to |sorted|
        invariant Counted() && vtx == old(vtx) + sorted[..i] && r == modified - Elements(sorted[..i])
      {
        assert sorted[i] !in sorted[..i];
        AddToBlock(sorted[i]);
        r := r - {sorted[i]};
        assert sorted[..i + 1] == sorted[..i] + [sorted[i]];
      }
      assert sorted[..|sorted|] == sorted;
    }

    /** Adds an accepted package: the block stays minable. */
    method Grow(iter: TxId, ancestors: set<TxId>, package: Modified, modified: ModifiedSet) returns (r: ModifiedSet)
      requires BlockOk() && Acceptable(iter, ancestors, package)
      modifies this
      ensures BlockOk() && old(vtx) <= vtx
      ensures inBlock == old(inBlock) + ancestors && r == modified - ancestors
    {
      var sorted := SortForBlock(ancestors);
      Grown(pool, vtx, iter, sorted, package);
      r := AddPackage(sorted, modified);
    }

    /** What has been checked of a package before it is added. */
    ghost predicate Acceptable(iter: TxId, ancestors: set<TxId>, package: Modified)
      reads this
    {
      && iter in pool.mapTx && iter !in inBlock && ancestors == Package(pool, iter) - inBlock
      && TotalOk(pool, package, iter, inBlock, true)
      && nBlockWeight + WITNESS_SCALE_FACTOR * package.size < nBlockMaxWeight
      && nBlockSigOpsCost + package.sigOps < MAX_BLOCK_SIGOPS_COST
      && forall t :: t in ancestors ==> Suitable(t)
    }

    /** Adds an accepted package and accounts for it. */
    method Include(iter: TxId, ancestors: set<TxId>, package: Modified, modified: ModifiedSet, ghost failed: set<TxId>)
      returns (r: ModifiedSet)
      requires BlockOk() && Acceptable(iter, ancestors, package) && Tracked(pool, modified, inBlock, inBlock, failed)
      modifies this
      ensures BlockOk() && old(vtx) <= vtx && inBlock == old(inBlock) + ancestors
      ensures Tracked(pool, r, inBlock, inBlock, failed) && modified.Keys - ancestors <= r.Keys
    {
      AddedTracked(pool, modified, inBlock, failed, ancestors);
      r := Grow(iter, ancestors, package, modified);
      assert inBlock - ancestors == old(inBlock);
      r := UpdatePackagesForAdded(ancestors, r, failed);
    }

    /** The whole package of an entry does not fit behind the block, or holds a transaction that must not be mined. */
    ghost predicate NoRoom(t: TxId)
      reads this
    {
      NoRoomIn(nBlockWeight, nBlockSigOpsCost, t)
    }

    ghost predicate NoRoomIn(weight: int, sigOps: int, t: TxId) {
      || weight + WITNESS_SCALE_FACTOR * pool.entry(t).withAncestors.size >= nBlockMaxWeight
      || sigOps + pool.entry(t).withAncestors.sigOps >= MAX_BLOCK_SIGOPS_COST
      || exists a :: a in Package(pool, t) && !Suitable(a)
    }

    /** The rest of a package pays less than the minimum. */
    ghost predicate Underpaid(t: TxId, e: Modified)
      reads this
    {
      && t in pool.mapTx && t !in inBlock && TotalOk(pool, e, t, inBlock, true)
      && e.size >= 0 && e.fees < GetFee(minFeePerK, e.size)
    }

    /** A block and its counters. */
    ghost function Now(): Filling
      reads this
    {
      Filling(inBlock, nBlockWeight, nBlockSigOpsCost)
    }

    /** Entries without room, and those before position mi that are not candidates any more. */
    ghost predicate Considered(b: Filling, mi: nat, modified: ModifiedSet, failed: set<TxId>)
      requires mi <= |pool.mapTx|
    {
      && Hopeless(b, failed)
      && forall i :: 0 <= i < mi ==> Settled(b, modified, pool.mapTx[i])
    }

    ghost predicate Hopeless(b: Filling, failed: set<TxId>) {
      forall t :: t in failed ==> NoRoomIn(b.weight, b.sigOps, t)
    }

    ghost predicate Settled(b: Filling, modified: ModifiedSet, t: TxId) {
      t in b.entries || t in modified || NoRoomIn(b.weight, b.sigOps, t)
    }

    /** The counters are those of the entries. */
    ghost predicate Weighed(b: Filling) {
      && b.weight == COINBASE_WEIGHT + Total(pool, Weight, b.entries)
      && b.sigOps == COINBASE_SIGOPS + Total(pool, SigOps, b.entries)
    }

    /** An entry without room does not get any later. */
    lemma StillNoRoom(a: Filling, b: Filling, t: TxId)
      requires Weighed(a) && Weighed(b) && a.entries <= b.entries && NoRoomIn(a.weight, a.sigOps, t)
      ensures NoRoomIn(b.weight, b.sigOps, t)
    {
      TotalMonotone(pool, Weight, a.entries, b.entries);
      TotalMonotone(pool, SigOps, a.entries, b.entries);
    }

    lemma StillConsidered(a: Filling, b: Filling, was: nat, mi: nat, m: ModifiedSet, f: set<TxId>,
                          modified: ModifiedSet, failed: set<TxId>, iter: TxId)
      requires was <= mi <= |pool.mapTx| && (mi == was || (mi == was + 1 && pool.mapTx[was] == iter))
      requires Weighed(a) && Weighed(b) && a.entries <= b.entries && Considered(a, was, m, f)
      requires failed <= f + {iter} && (failed == f || NoRoomIn(b.weight, b.sigOps, iter))
      requires iter in b.entries || NoRoomIn(b.weight, b.sigOps, iter)
      requires forall t :: t in m && t != iter ==> t in modified || t in b.entries
      ensures Considered(b, mi, modified, failed)
    {
      hide Weighed, NoRoomIn;
      forall t | t in f ensures NoRoomIn(b.weight, b.sigOps, t) { StillNoRoom(a, b, t); }
      forall i | 0 <= i < mi ensures Settled(b, modified, pool.mapTx[i]) {
        if i < was {
          assert Settled(a, m, pool.mapTx[i]);
          if NoRoomIn(a.weight, a.sigOps, pool.mapTx[i]) { StillNoRoom(a, b, pool.mapTx[i]); }
        }
      }
    }

    lemma NothingConsidered(modified: ModifiedSet)
      ensures Considered(Now(), 0, modified, {})
    {
    }

    lemma ConsideredFailed(mi: nat, modified: ModifiedSet, failed: set<TxId>)
      requires mi <= |pool.mapTx| && Considered(Now(), mi, modified, failed)
      ensures Hopeless(Now(), failed)
    {
    }

    lemma SkippedConsidered(mi: nat, modified: ModifiedSet, failed: set<TxId>)
      requires mi < |pool.mapTx| && Considered(Now(), mi, modified, failed)
      requires Settled(Now(), modified, pool.mapTx[mi])
      ensures Considered(Now(), mi + 1, modified, failed)
    {
      hide NoRoomIn;
    }

    lemma AllConsidered(modified: ModifiedSet, failed: set<TxId>)
      requires Considered(Now(), |pool.mapTx|, modified, failed) && modified == map[]
      ensures forall t :: t in pool.mapTx ==> t in inBlock || NoRoom(t)
    {
    }

    /** Judges a candidate and includes its package if it passes; `stop` when the search is over. */
    method Evaluate(iter: TxId, fUsingModified: bool, modified: ModifiedSet, failedTx: set<TxId>, nFailed: nat)
      returns (r: ModifiedSet, failed: set<TxId>, n: nat, stop: bool)
      requires BlockOk() && Tracked(pool, modified, inBlock, inBlock, failedTx)
      requires iter in pool.mapTx && iter !in inBlock && fUsingModified == (iter in modified)
      modifies this
      ensures BlockOk() && old(vtx) <= vtx && Tracked(pool, r, inBlock, inBlock, failed)
      ensures stop || iter in inBlock
        || (inBlock == old(inBlock) && if fUsingModified then |r| < |modified| else r == modified)
      ensures old(inBlock) <= inBlock
      ensures failedTx <= failed <= failedTx + {iter} && (failed != failedTx ==> NoRoom(iter))
      ensures !stop ==> iter in inBlock || NoRoom(iter)
      ensures forall t :: t in modified && t != iter ==> t in r || t in inBlock
      ensures stop ==> (exists e :: Underpaid(iter, e)) || nBlockWeight > nBlockMaxWeight - 4000
    {
      hide Counted, Ordered, Closed, Tracked, TotalOk, NoRoomIn, Underpaid, IsOrder, ScoreOrdered, GetFee, Ancestors,
        LinksOk;
      r, failed, n, stop := modified, failedTx, nFailed, false;
      var package := TotalsOf(iter, modified);
      CandidateOk(iter, modified, failedTx);
      if package.fees < GetFee(minFeePerK, package.size) {
        PaysLess(iter, package);
        stop := true;
        return;
      }
      var fits := TestPackage(package.size, package.sigOps);
      if !fits {
        TooLarge(iter, package);
        r, failed := Reject(iter, fUsingModified, modified, failedTx);
        n := nFailed + 1;
        stop := n > MAX_CONSECUTIVE_FAILURES && nBlockWeight > nBlockMaxWeight - 4000;
        return;
      }
      var ancestors := CalculateMemPoolAncestors(pool, iter);
      ancestors := OnlyUnconfirmed(ancestors);
      ancestors := ancestors + {iter};
      var suitable := TestPackageTransactions(ancestors);
      if !suitable {
        NotSuitable(iter, ancestors);
        r, failed := Reject(iter, fUsingModified, modified, failedTx);
        return;
      }
      n := 0;
      r := Include(iter, ancestors, package, modified, failedTx);
    }

    lemma CandidateOk(t: TxId, modified: ModifiedSet, failed: set<TxId>)
      requires PoolOk(pool) && Tracked(pool, modified, inBlock, inBlock, failed) && t in pool.mapTx && t !in inBlock
      ensures TotalOk(pool, TotalsOf(t, modified), t, inBlock, true)
      ensures TotalsOf(t, modified).size >= 0
    {
      CandidateTotalOk(pool, modified, inBlock, failed, t);
      TotalPositive(pool, TotalsOf(t, modified), t, inBlock, true);
    }

    lemma PaysLess(t: TxId, e: Modified)
      requires t in pool.mapTx && t !in inBlock && TotalOk(pool, e, t, inBlock, true)
      requires e.size >= 0 && e.fees < GetFee(minFeePerK, e.size)
      ensures exists e :: Underpaid(t, e)
    {
      assert Underpaid(t, e);
    }

    lemma TooLarge(t: TxId, e: Modified)
      requires TotalOk(pool, e, t, inBlock, true)
      requires nBlockWeight + WITNESS_SCALE_FACTOR * e.size >= nBlockMaxWeight
        || nBlockSigOpsCost + e.sigOps >= MAX_BLOCK_SIGOPS_COST
      ensures NoRoom(t)
    {
    }

    lemma NotSuitable(t: TxId, ancestors: set<TxId>)
      requires ancestors <= Package(pool, t) && exists a :: a in ancestors && !Suitable(a)
      ensures NoRoom(t)
    {
    }

    /** A candidate that failed leaves mapModifiedTx, so that the next best one can be considered. */
    method Reject(iter: TxId, fUsingModified: bool, modified: ModifiedSet, failedTx: set<TxId>)
      returns (r: ModifiedSet, failed: set<TxId>)
      requires Tracked(pool, modified, inBlock, inBlock, failedTx) && fUsingModified == (iter in modified)
      ensures Tracked(pool, r, inBlock, inBlock, failed)
      ensures r == modified - {iter} && if fUsingModified then |r| < |modified| else r == modified
      ensures failed == if fUsingModified then failedTx + {iter} else failedTx
    {
      r, failed := modified - {iter}, failedTx;
      if fUsingModified {
        FailedTracked(pool, modified, inBlock, failedTx, iter);
        failed := failedTx + {iter};
      } else {
        assert r == modified;
      }
    }

    /** Some entry is taken into the block, or at least there is one candidate less. */
    ghost predicate Progress(a: Filling, b: Filling, was: nat, mi: nat, m: ModifiedSet, modified: ModifiedSet) {
      || Elements(pool.mapTx) - b.entries < Elements(pool.mapTx) - a.entries
      || (b.entries == a.entries && (mi > was || (mi == was && |modified| < |m|)))
    }

    /** One round of the selection: the next candidate is judged. */
    method ConsiderNext(mi: nat, modified: ModifiedSet, failedTx: set<TxId>, nFailed: nat)
      returns (next: nat, r: ModifiedSet, failed: set<TxId>, n: nat, stop: bool)
      requires mi <= |pool.mapTx| && BlockOk()
      requires Tracked(pool, modified, inBlock, inBlock, failedTx) && Considered(Now(), mi, modified, failedTx)
      requires mi < |pool.mapTx| || modified != map[]
      requires mi < |pool.mapTx| ==> pool.mapTx[mi] !in modified && pool.mapTx[mi] !in inBlock
      modifies this
      ensures BlockOk() && old(vtx) <= vtx && Tracked(pool, r, inBlock, inBlock, failed) && mi <= next <= |pool.mapTx|
      ensures stop ==> (exists t, e :: Underpaid(t, e)) || nBlockWeight > nBlockMaxWeight - 4000
      ensures !stop ==> Considered(Now(), next, r, failed)
      ensures !stop ==> Progress(old(Now()), Now(), mi, next, modified, r)
    {
      hide Weighed, NoRoomIn, Considered, Underpaid, Tracked, Ordered, Closed;
      next := mi;
      var iter, fUsingModified := NextCandidate(mi, modified, failedTx);
      if !fUsingModified { next := mi + 1; }
      assert iter !in inBlock;
      r, failed, n, stop := Evaluate(iter, fUsingModified, modified, failedTx, nFailed);
      if iter in inBlock { Shrinks(Elements(pool.mapTx), old(inBlock), inBlock, iter); }
      if !stop { StillConsidered(old(Now()), Now(), mi, next, modified, failedTx, r, failed, iter); }
    }

    /**
     * Fills the block with packages. It ends only when no entry that was left out has room, when a package pays less
     * than the minimum, or when the block is nearly full.
     */
    method AddPackageTxs()
      requires BlockOk()
      modifies this
      ensures BlockOk() && old(vtx) <= vtx
      ensures (forall t :: t in pool.mapTx ==> t in inBlock || NoRoom(t))
        || (exists t, e :: Underpaid(t, e))
        || nBlockWeight > nBlockMaxWeight - 4000
    {
      hide Weighed, NoRoomIn, Considered, Hopeless, Settled, Underpaid, Tracked, TotalOk, Ordered, Closed;
      var mapModifiedTx: ModifiedSet := map[];
      var failedTx: set<TxId> := {};
      NothingIncluded(pool, inBlock);
      mapModifiedTx := UpdatePackagesForAdded(inBlock, mapModifiedTx, failedTx);
      var mi, nConsecutiveFailed, stop := 0, 0, false;
      NothingConsidered(mapModifiedTx);
      while !stop && (mi < |pool.mapTx| || mapModifiedTx != map[])
        invariant mi <= |pool.mapTx| && BlockOk() && old(vtx) <= vtx
        invariant Tracked(pool, mapModifiedTx, inBlock, inBlock, failedTx)
        invariant !stop ==> Considered(Now(), mi, mapModifiedTx, failedTx)
        invariant stop ==> (exists t, e :: Underpaid(t, e)) || nBlockWeight > nBlockMaxWeight - 4000
        decreases !stop, Elements(pool.mapTx) - inBlock, |pool.mapTx| - mi, |mapModifiedTx|
      {
        if mi < |pool.mapTx| {
          ConsideredFailed(mi, mapModifiedTx, failedTx);
          var skip := SkipMapTxEntry(pool.mapTx[mi], mapModifiedTx, failedTx);
          if skip {
            SkippedConsidered(mi, mapModifiedTx, failedTx);
            mi := mi + 1;
            continue;
          }
        }
        mi, mapModifiedTx, failedTx, nConsecutiveFailed, stop :=
          ConsiderNext(mi, mapModifiedTx, failedTx, nConsecutiveFailed);
      }
      if !stop { AllConsidered(mapModifiedTx, failedTx); }
    }
  }
}
