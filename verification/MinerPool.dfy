/**
 * The memory pool as block assembly sees it: entries with stored package totals, and the ancestors and
 * descendants that follow the parent links.
 */
module MinerPool {
  import opened Basics

  const WITNESS_SCALE_FACTOR := 4

  datatype TxId = TxId(hash: nat)

  /** An entry; `isFinal` is the lock-time check at the height and time of the block being assembled. */
  datatype Tx = Tx(weight: nat, sigOps: nat, fee: int, modFee: int, hasWitness: bool, isFinal: bool,
                   parents: set<TxId>, children: set<TxId>, count: nat, withAncestors: Modified)

  /** Package totals: size, modified fees and signature operations of a transaction and its ancestors. */
  datatype Modified = Modified(size: int, fees: int, sigOps: int)

  /** `mapTx` lists the entries in the order of the ancestor score index. */
  datatype Pool = Pool(mapTx: seq<TxId>, entry: TxId -> Tx, bytesPerSigOp: nat)

  function TxSize(p: Pool, t: TxId): nat {
    (Max(p.entry(t).weight, p.entry(t).sigOps * p.bytesPerSigOp) + WITNESS_SCALE_FACTOR - 1) / WITNESS_SCALE_FACTOR
  }

  // ---------- sums over sets of entries ----------

  /** `MostFee` is the base or the modified fee, whichever is more. */
  datatype Measure = Size | Weight | SigOps | Fee | MostFee

  function Of(p: Pool, m: Measure, t: TxId): int {
    match m
    case Size => TxSize(p, t)
    case Weight => p.entry(t).weight
    case SigOps => p.entry(t).sigOps
    case Fee => p.entry(t).fee
    case MostFee => Max(0, Max(p.entry(t).fee, p.entry(t).modFee))
  }

  function SumOver(p: Pool, m: Measure, o: seq<TxId>, s: set<TxId>): int {
    if o == [] then 0 else (if o[0] in s then Of(p, m, o[0]) else 0) + SumOver(p, m, o[1..], s)
  }

  /** The total of a measure over those entries of the pool that are in `s`. */
  function Total(p: Pool, m: Measure, s: set<TxId>): int { SumOver(p, m, p.mapTx, s) }

  predicate NoDuplicates<T(==)>(s: seq<T>) {
    forall i, j :: 0 <= i < j < |s| ==> s[i] != s[j]
  }

  lemma {:induction false} SumUnion(p: Pool, m: Measure, o: seq<TxId>, s: set<TxId>, t: set<TxId>)
    requires s !! t
    ensures SumOver(p, m, o, s + t) == SumOver(p, m, o, s) + SumOver(p, m, o, t)
  {
    if o != [] { SumUnion(p, m, o[1..], s, t); }
  }

  lemma {:induction false} SumAbsent(p: Pool, m: Measure, o: seq<TxId>, s: set<TxId>)
    requires forall x :: x in s ==> x !in o
    ensures SumOver(p, m, o, s) == 0
  {
    if o != [] { SumAbsent(p, m, o[1..], s); }
  }

  lemma {:induction false} SumSingle(p: Pool, m: Measure, o: seq<TxId>, x: TxId)
    requires NoDuplicates(o) && x in o
    ensures SumOver(p, m, o, {x}) == Of(p, m, x)
  {
    if o[0] == x {
      SumAbsent(p, m, o[1..], {x});
    } else {
      SumSingle(p, m, o[1..], x);
    }
  }

  lemma {:induction false} SumPositive(p: Pool, m: Measure, o: seq<TxId>, s: set<TxId>)
    requires m != Fee
    ensures SumOver(p, m, o, s) >= 0
  {
    if o != [] { SumPositive(p, m, o[1..], s); }
  }

  lemma TotalAdd(p: Pool, m: Measure, s: set<TxId>, x: TxId)
    requires NoDuplicates(p.mapTx) && x in p.mapTx && x !in s
    ensures Total(p, m, s + {x}) == Total(p, m, s) + Of(p, m, x)
  {
    SumUnion(p, m, p.mapTx, s, {x});
    SumSingle(p, m, p.mapTx, x);
  }

  lemma TotalMonotone(p: Pool, m: Measure, s: set<TxId>, t: set<TxId>)
    requires m != Fee && s <= t
    ensures 0 <= Total(p, m, s) <= Total(p, m, t)
  {
    assert t == s + (t - s);
    SumUnion(p, m, p.mapTx, s, t - s);
    SumPositive(p, m, p.mapTx, s);
    SumPositive(p, m, p.mapTx, t - s);
  }

  /** Virtual size rounds a quarter of the weight up, so four times the size covers the weight. */
  lemma {:induction false} SizeCoversWeight(p: Pool, o: seq<TxId>, s: set<TxId>)
    ensures SumOver(p, Weight, o, s) <= WITNESS_SCALE_FACTOR * SumOver(p, Size, o, s)
  {
    if o != [] {
      SizeCoversWeight(p, o[1..], s);
      var t := o[0];
      var vsize := Max(p.entry(t).weight, p.entry(t).sigOps * p.bytesPerSigOp);
      assert p.entry(t).weight <= vsize <= WITNESS_SCALE_FACTOR * ((vsize + 3) / WITNESS_SCALE_FACTOR);
    }
  }

  // ---------- ancestors and descendants ----------

  function Parents(p: Pool, t: TxId): set<TxId> { p.entry(t).parents }

  /** All entries reachable through parent links (which lead to smaller ancestor counts). */
  ghost function Ancestors(p: Pool, t: TxId): set<TxId>
    decreases p.entry(t).count
  {
    Parents(p, t) +
    set q, a | q in Parents(p, t) && p.entry(q).count < p.entry(t).count && a in Ancestors(p, q) :: a
  }

  ghost function Package(p: Pool, t: TxId): set<TxId> { Ancestors(p, t) + {t} }

  /** The entry itself and everything that descends from it. */
  ghost function Descendants(p: Pool, t: TxId): set<TxId> {
    set d | d in p.mapTx && (d == t || t in Ancestors(p, d))
  }

  /** Links stay inside the pool, mirror each other, and follow the stored ancestor counts. */
  ghost predicate LinksOk(p: Pool) {
    forall t :: t in p.mapTx ==>
      && (forall q :: q in Parents(p, t) ==> q in p.mapTx && p.entry(q).count < p.entry(t).count)
      && p.entry(t).children == set c | c in p.mapTx && t in Parents(p, c)
  }

  ghost predicate TotalsOk(p: Pool) {
    forall t :: t in p.mapTx ==>
      && p.entry(t).weight > 0
      && p.entry(t).withAncestors.size == Total(p, Size, Package(p, t))
      && p.entry(t).withAncestors.sigOps == Total(p, SigOps, Package(p, t))
  }

  /** What the memory pool promises block assembly: exact links and exact stored totals. */
  ghost predicate PoolOk(p: Pool) {
    NoDuplicates(p.mapTx) && LinksOk(p) && TotalsOk(p)
  }

  lemma {:induction false} AncestorsInPool(p: Pool, t: TxId)
    requires LinksOk(p) && t in p.mapTx
    ensures forall a :: a in Ancestors(p, t) ==> a in p.mapTx && p.entry(a).count < p.entry(t).count
    decreases p.entry(t).count
  {
    forall q | q in Parents(p, t) { AncestorsInPool(p, q); }
  }

  lemma {:induction false} AncestorsTransitive(p: Pool, t: TxId, a: TxId)
    requires LinksOk(p) && t in p.mapTx && a in Ancestors(p, t)
    ensures Ancestors(p, a) <= Ancestors(p, t)
    decreases p.entry(t).count
  {
    if a !in Parents(p, t) {
      var q :| q in Parents(p, t) && p.entry(q).count < p.entry(t).count && a in Ancestors(p, q);
      AncestorsTransitive(p, q, a);
    }
  }

  lemma {:induction false} ClosedHasAncestors(p: Pool, t: TxId, s: set<TxId>)
    requires LinksOk(p) && t in p.mapTx
    requires Parents(p, t) <= s && forall a :: a in s ==> a in p.mapTx && Parents(p, a) <= s
    ensures Ancestors(p, t) <= s
    decreases p.entry(t).count
  {
    forall q | q in Parents(p, t) { ClosedHasAncestors(p, q, s); }
  }

  lemma {:induction false} ClosedHasDescendants(p: Pool, t: TxId, s: set<TxId>, d: TxId)
    requires LinksOk(p) && t in s && forall a :: a in s ==> a in p.mapTx && p.entry(a).children <= s
    requires d in p.mapTx && t in Ancestors(p, d)
    ensures d in s
    decreases p.entry(d).count
  {
    if t !in Parents(p, d) {
      var q :| q in Parents(p, d) && p.entry(q).count < p.entry(d).count && t in Ancestors(p, q);
      ClosedHasDescendants(p, t, s, q);
      assert d in p.entry(q).children;
    } else {
      assert d in p.entry(t).children;
    }
  }

  lemma ChildDescends(p: Pool, t: TxId, a: TxId, c: TxId)
    requires LinksOk(p) && a in Descendants(p, t) && c in p.entry(a).children
    ensures c in Descendants(p, t)
  {
    assert c in p.mapTx && a in Parents(p, c);
  }

  /** The work list over parent links finds exactly the ancestors. */
  method CalculateMemPoolAncestors(p: Pool, t: TxId) returns (setAncestors: set<TxId>)
    requires LinksOk(p) && t in p.mapTx
    ensures setAncestors == Ancestors(p, t)
  {
    hide LinksOk;
    var parentHashes := Parents(p, t);
    setAncestors := {};
    AncestorsInPool(p, t);
    while parentHashes != {}
      invariant setAncestors + parentHashes <= Ancestors(p, t) && setAncestors !! parentHashes
      invariant Parents(p, t) <= setAncestors + parentHashes
      invariant forall a :: a in setAncestors ==> Parents(p, a) <= setAncestors + parentHashes
      decreases Ancestors(p, t) - setAncestors
    {
      var stage :| stage in parentHashes;
      AncestorsTransitive(p, t, stage);
      setAncestors := setAncestors + {stage};
      parentHashes := (parentHashes - {stage}) + (Parents(p, stage) - setAncestors);
    }
    ClosedHasAncestors(p, t, setAncestors);
  }

  /** The work list over child links finds exactly the descendants. */
  method CalculateDescendants(p: Pool, t: TxId) returns (setDescendants: set<TxId>)
    requires LinksOk(p) && t in p.mapTx
    ensures setDescendants == Descendants(p, t)
  {
    var stage := {t};
    setDescendants := {};
    while stage != {}
      invariant setDescendants + stage <= Descendants(p, t) && setDescendants !! stage
      invariant t in setDescendants + stage
      invariant forall a :: a in setDescendants ==> p.entry(a).children <= setDescendants + stage
      decreases Descendants(p, t) - setDescendants
    {
      var it :| it in stage;
      forall c | c in p.entry(it).children ensures c in Descendants(p, t) { ChildDescends(p, t, it, c); }
      setDescendants := setDescendants + {it};
      stage := (stage - {it}) + (p.entry(it).children - setDescendants);
    }
    forall d | d in Descendants(p, t) && d != t ensures d in setDescendants {
      ClosedHasDescendants(p, t, setDescendants, d);
    }
  }
}
