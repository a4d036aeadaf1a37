/**
 * What block assembly knows about packages while it runs: the totals cached in mapModifiedTx against the
 * ancestors that are not in the block yet, and the order of a package inside the block.
 */
module MinerPackages {
  import opened MinerPool

  type ModifiedSet = map<TxId, Modified>

  /** What a package still costs when the entries of `included` have been taken out of it. */
  ghost function Rest(p: Pool, m: Measure, t: TxId, included: set<TxId>): int {
    Total(p, m, Package(p, t) - included)
  }

  /**
   * A cached total never underestimates the rest of the package, nor does it exceed the whole, and it is exact unless
   * the entry failed before. No more fees are taken off than the included part of the package pays.
   */
  ghost predicate TotalOk(p: Pool, e: Modified, t: TxId, included: set<TxId>, failed: bool) {
    && p.entry(t).withAncestors.size >= e.size >= Rest(p, Size, t, included)
    && p.entry(t).withAncestors.sigOps >= e.sigOps >= Rest(p, SigOps, t, included)
    && e.fees >= p.entry(t).withAncestors.fees - Total(p, MostFee, Package(p, t) * included)
    && (!failed ==> e.size == Rest(p, Size, t, included) && e.sigOps == Rest(p, SigOps, t, included))
  }

  /**
   * The state of mapModifiedTx: it holds entries outside the block with totals that account for `included`,
   * and every other entry outside the block that has not failed has no included ancestor.
   */
  ghost predicate Tracked(p: Pool, modified: ModifiedSet, included: set<TxId>, block: set<TxId>, failed: set<TxId>) {
    && (forall t :: t in modified ==>
          t in p.mapTx && t !in block && TotalOk(p, modified[t], t, included, t in failed))
    && (forall t :: t in p.mapTx && t !in block && t !in modified && t !in failed ==> Ancestors(p, t) !! included)
  }

  /** The block holds pool entries together with all their ancestors. */
  ghost predicate Closed(p: Pool, block: set<TxId>) {
    forall t :: t in block ==> t in p.mapTx && Ancestors(p, t) <= block
  }

  // ---------- updating descendants ----------

  /** Taking `it` out of a package total; an entry already cached loses the base fee, a new one the modified fee. */
  function Less(p: Pool, e: Modified, it: TxId, cached: bool): Modified {
    Modified(e.size - TxSize(p, it), e.fees - (if cached then p.entry(it).fee else p.entry(it).modFee),
             e.sigOps - p.entry(it).sigOps)
  }

  function LessFor(p: Pool, modified: ModifiedSet, it: TxId, t: TxId): Modified {
    if t in modified then Less(p, modified[t], it, true) else Less(p, p.entry(t).withAncestors, it, false)
  }

  /** mapModifiedTx after `it` has been taken out of the packages of `descendants`. */
  function Deducted(p: Pool, modified: ModifiedSet, it: TxId, descendants: set<TxId>): ModifiedSet {
    map t | t in modified.Keys + descendants ::
      if t in descendants then LessFor(p, modified, it, t) else modified[t]
  }

  lemma DeductedStep(p: Pool, modified: ModifiedSet, it: TxId, done: set<TxId>, d: TxId)
    requires d !in done
    ensures LessFor(p, Deducted(p, modified, it, done), it, d) == LessFor(p, modified, it, d)
    ensures Deducted(p, modified, it, done + {d})
         == Deducted(p, modified, it, done)[d := LessFor(p, modified, it, d)]
  {
  }

  lemma RestLess(p: Pool, m: Measure, t: TxId, included: set<TxId>, it: TxId)
    requires NoDuplicates(p.mapTx) && it in p.mapTx && it in Package(p, t) && it !in included
    ensures Rest(p, m, t, included) == Rest(p, m, t, included + {it}) + Of(p, m, it)
  {
    var rest := Package(p, t) - (included + {it});
    assert Package(p, t) - included == rest + {it};
    TotalAdd(p, m, rest, it);
  }

  lemma RestSame(p: Pool, m: Measure, t: TxId, included: set<TxId>, it: TxId)
    requires it !in Package(p, t)
    ensures Rest(p, m, t, included) == Rest(p, m, t, included + {it})
  {
    assert Package(p, t) - included == Package(p, t) - (included + {it});
  }

  lemma RestWhole(p: Pool, m: Measure, t: TxId, included: set<TxId>)
    requires m != Fee
    ensures Total(p, m, Package(p, t)) >= Rest(p, m, t, included)
    ensures Package(p, t) !! included ==> Total(p, m, Package(p, t)) == Rest(p, m, t, included)
  {
    TotalMonotone(p, m, Package(p, t) - included, Package(p, t));
    if Package(p, t) !! included { assert Package(p, t) - included == Package(p, t); }
  }

  /** The stored total of an entry outside the block covers the rest, and is exact without included ancestors. */
  lemma StoredTotalOk(p: Pool, t: TxId, included: set<TxId>, failed: bool)
    requires PoolOk(p) && t in p.mapTx && t !in included && (failed || Ancestors(p, t) !! included)
    ensures TotalOk(p, p.entry(t).withAncestors, t, included, failed)
  {
    RestWhole(p, Size, t, included);
    RestWhole(p, SigOps, t, included);
    SumPositive(p, MostFee, p.mapTx, Package(p, t) * included);
    if !failed { assert Package(p, t) !! included; }
  }

  /** Deducting one more transaction from one total. */
  lemma LessTotalOk(p: Pool, e: Modified, t: TxId, included: set<TxId>, failed: bool, it: TxId, cached: bool)
    requires NoDuplicates(p.mapTx) && it in p.mapTx && it in Package(p, t) && it !in included
    requires TotalOk(p, e, t, included, failed)
    ensures TotalOk(p, Less(p, e, it, cached), t, included + {it}, failed)
  {
    RestLess(p, Size, t, included, it);
    RestLess(p, SigOps, t, included, it);
    assert Package(p, t) * (included + {it}) == Package(p, t) * included + {it};
    TotalAdd(p, MostFee, Package(p, t) * included, it);
  }

  lemma SameTotalOk(p: Pool, e: Modified, t: TxId, included: set<TxId>, failed: bool, it: TxId)
    requires it !in Package(p, t) && TotalOk(p, e, t, included, failed)
    ensures TotalOk(p, e, t, included + {it}, failed)
  {
    RestSame(p, Size, t, included, it);
    RestSame(p, SigOps, t, included, it);
    assert Package(p, t) * (included + {it}) == Package(p, t) * included;
  }

  /** After one transaction of the block has been accounted for in all its descendants. */
  lemma DeductedTracked(p: Pool, modified: ModifiedSet, included: set<TxId>, block: set<TxId>, failed: set<TxId>,
                        it: TxId, descendants: set<TxId>)
    requires PoolOk(p) && Tracked(p, modified, included, block, failed)
    requires it in p.mapTx && it in block && it !in included && included <= block
    requires descendants == Descendants(p, it) - block
    ensures Tracked(p, Deducted(p, modified, it, descendants), included + {it}, block, failed)
  {
    var after := Deducted(p, modified, it, descendants);
    forall t | t in after
      ensures t in p.mapTx && t !in block && TotalOk(p, after[t], t, included + {it}, t in failed)
    {
      if t in descendants {
        if t !in modified { StoredTotalOk(p, t, included, t in failed); }
        var e := if t in modified then modified[t] else p.entry(t).withAncestors;
        LessTotalOk(p, e, t, included, t in failed, it, t in modified);
      } else {
        SameTotalOk(p, modified[t], t, included, t in failed, it);
      }
    }
  }

  /** Descendants of new entries of a block are not among its old entries. */
  lemma NewDescendants(p: Pool, before: set<TxId>, added: set<TxId>, it: TxId)
    requires Closed(p, before) && before !! added && it in added
    ensures Descendants(p, it) - added == Descendants(p, it) - (before + added)
  {
  }

  lemma AddedTracked(p: Pool, modified: ModifiedSet, block: set<TxId>, failed: set<TxId>, added: set<TxId>)
    requires Tracked(p, modified, block, block, failed)
    ensures Tracked(p, modified - added, block, block + added, failed)
  {
  }

  lemma FailedTracked(p: Pool, modified: ModifiedSet, block: set<TxId>, failed: set<TxId>, t: TxId)
    requires Tracked(p, modified, block, block, failed)
    ensures Tracked(p, modified - {t}, block, block, failed + {t})
  {
  }

  lemma NothingIncluded(p: Pool, block: set<TxId>)
    ensures Closed(p, block - block) && Tracked(p, map[], block - block, block, {})
  {
  }

  /** The total by which a candidate is judged, cached or stored, covers the rest of its package. */
  lemma CandidateTotalOk(p: Pool, modified: ModifiedSet, block: set<TxId>, failed: set<TxId>, t: TxId)
    requires PoolOk(p) && Tracked(p, modified, block, block, failed) && t in p.mapTx && t !in block
    ensures TotalOk(p, if t in modified then modified[t] else p.entry(t).withAncestors, t, block, t in failed)
  {
    if t !in modified { StoredTotalOk(p, t, block, t in failed); }
  }

  // ---------- order inside a block ----------

  predicate Earlier(p: Pool, a: TxId, b: TxId) {
    if p.entry(a).count != p.entry(b).count then p.entry(a).count < p.entry(b).count else a.hash < b.hash
  }

  predicate SortedForBlock(p: Pool, s: seq<TxId>) {
    forall i, j :: 0 <= i < j < |s| ==> Earlier(p, s[i], s[j])
  }

  function Elements<T>(s: seq<T>): set<T> { set x | x in s }

  /** Every transaction comes after all its ancestors, and nothing comes twice. */
  ghost predicate Ordered(p: Pool, vtx: seq<TxId>) {
    && NoDuplicates(vtx)
    && forall i, a :: 0 <= i < |vtx| && a in Ancestors(p, vtx[i]) ==> a in vtx[..i]
  }

  lemma InPackage(p: Pool, t: TxId, x: TxId)
    requires LinksOk(p) && t in p.mapTx && x in Package(p, t)
    ensures x in p.mapTx && Ancestors(p, x) <= Package(p, t)
  {
    AncestorsInPool(p, t);
    if x != t { AncestorsTransitive(p, t, x); }
  }

  /** `package` is what is left of the package of `t`, in block order. */
  ghost predicate Follows(p: Pool, vtx: seq<TxId>, t: TxId, package: seq<TxId>) {
    && t in p.mapTx && t !in vtx && SortedForBlock(p, package)
    && Elements(package) == Package(p, t) - Elements(vtx)
  }

  lemma AncestorBefore(p: Pool, vtx: seq<TxId>, t: TxId, package: seq<TxId>, k: nat, a: TxId)
    requires LinksOk(p) && Follows(p, vtx, t, package) && k < |package| && a in Ancestors(p, package[k])
    ensures a in vtx || a in package[..k]
  {
    assert package[k] in Elements(package);
    InPackage(p, t, package[k]);
    AncestorsInPool(p, package[k]);
    if a !in vtx {
      assert a in Elements(package);
      var i :| 0 <= i < |package| && package[i] == a;
      assert !Earlier(p, package[k], a);
      assert package[..k][i] == a;
    }
  }

  /** A package sorted by ancestor count may follow a block that holds its other ancestors. */
  lemma PackageOrdered(p: Pool, vtx: seq<TxId>, t: TxId, package: seq<TxId>)
    requires LinksOk(p) && Ordered(p, vtx) && Follows(p, vtx, t, package)
    ensures Ordered(p, vtx + package)
  {
    var all := vtx + package;
    forall i, a | 0 <= i < |all| && a in Ancestors(p, all[i]) ensures a in all[..i] {
      if i < |vtx| {
        assert all[..i] == vtx[..i];
      } else {
        AncestorBefore(p, vtx, t, package, i - |vtx|, a);
        assert all[..i] == vtx + package[..i - |vtx|];
      }
    }
    forall i, j | 0 <= i < j < |all| ensures all[i] != all[j] {
      if |vtx| <= i {
        assert Earlier(p, package[i - |vtx|], package[j - |vtx|]);
      } else if |vtx| <= j {
        assert vtx[i] in Elements(vtx) && package[j - |vtx|] in Elements(package);
      }
    }
  }

  lemma PackageClosed(p: Pool, block: set<TxId>, t: TxId)
    requires LinksOk(p) && Closed(p, block) && t in p.mapTx
    ensures Closed(p, block + Package(p, t))
  {
    forall x | x in Package(p, t) ensures x in p.mapTx && Ancestors(p, x) <= Package(p, t) { InPackage(p, t, x); }
  }
}
