/** The ancestor score order of the memory pool and of mapModifiedTx, over exact numbers. */
module MinerScore {
  import opened MinerPool

  /** Fee and size of a transaction alone and with its ancestors. */
  datatype Score = Score(ownFee: int, ownSize: int, fees: int, size: int, hash: nat)

  predicate Positive(a: Score) { a.ownSize > 0 && a.size > 0 }

  function ScoreOf(p: Pool, t: TxId, e: Modified): Score {
    Score(p.entry(t).modFee, TxSize(p, t), e.fees, e.size, t.hash)
  }

  /** The lower of the two fee rates, as fee and size. */
  function Rate(a: Score): (r: (int, int))
    ensures Positive(a) ==> r.1 > 0
  {
    if a.ownFee * a.size > a.fees * a.ownSize then (a.fees, a.size) else (a.ownFee, a.ownSize)
  }

  /** Whether `a` comes before `b`: higher rate first, then lower hash. */
  predicate Better(a: Score, b: Score) {
    var (f, s) := Rate(a);
    var (g, r) := Rate(b);
    if f * r == s * g then a.hash < b.hash else f * r > s * g
  }

  /** Comparing fractions by cross multiplication is transitive. */
  lemma RatesTransitive(a: (int, int), b: (int, int), c: (int, int))
    requires a.1 > 0 && b.1 > 0 && c.1 > 0
    requires a.0 * b.1 >= a.1 * b.0 && b.0 * c.1 >= b.1 * c.0
    ensures a.0 * c.1 >= a.1 * c.0
    ensures a.0 * c.1 == a.1 * c.0 ==> a.0 * b.1 == a.1 * b.0 && b.0 * c.1 == b.1 * c.0
  {
    var x, y, z := a.0 * b.1 - a.1 * b.0, b.0 * c.1 - b.1 * c.0, a.0 * c.1 - a.1 * c.0;
    Distribute(a, b, c);
    SignOfProduct(c.1, x);
    SignOfProduct(a.1, y);
    SignOfProduct(b.1, z);
  }

  lemma SignOfProduct(k: int, x: int)
    requires k > 0
    ensures (k * x > 0 <==> x > 0) && (k * x < 0 <==> x < 0)
  {
    if x > 0 { assert k * x > 0; } else if x < 0 { assert k * x < 0; }
  }

  lemma Distribute(a: (int, int), b: (int, int), c: (int, int))
    ensures b.1 * (a.0 * c.1 - a.1 * c.0)
         == c.1 * (a.0 * b.1 - a.1 * b.0) + a.1 * (b.0 * c.1 - b.1 * c.0)
  {
    calc {
      c.1 * (a.0 * b.1 - a.1 * b.0) + a.1 * (b.0 * c.1 - b.1 * c.0);
      c.1 * (a.0 * b.1) - c.1 * (a.1 * b.0) + (a.1 * (b.0 * c.1) - a.1 * (b.1 * c.0));
      { assert c.1 * (a.1 * b.0) == a.1 * (b.0 * c.1); }
      c.1 * (a.0 * b.1) - a.1 * (b.1 * c.0);
      { assert c.1 * (a.0 * b.1) == b.1 * (a.0 * c.1) && a.1 * (b.1 * c.0) == b.1 * (a.1 * c.0); }
      b.1 * (a.0 * c.1) - b.1 * (a.1 * c.0);
    }
  }

  lemma BetterTransitive(a: Score, b: Score, c: Score)
    requires Positive(a) && Positive(b) && Positive(c) && Better(a, b) && Better(b, c)
    ensures Better(a, c)
  {
    RatesTransitive(Rate(a), Rate(b), Rate(c));
  }

  /** A comparator that orders all entries with positive sizes, strictly and totally. */
  ghost predicate IsOrder(before: (Score, Score) -> bool) {
    && (forall a, b, c :: Positive(a) && Positive(b) && Positive(c) && before(a, b) && before(b, c) ==> before(a, c))
    && (forall a, b :: before(a, b) || before(b, a) || a.hash == b.hash)
    && (forall a :: !before(a, a))
  }

  /** Comparing fee rates is such an order. */
  lemma RatesOrder()
    ensures IsOrder(Better)
  {
    forall a, b, c | Positive(a) && Positive(b) && Positive(c) && Better(a, b) && Better(b, c) ensures Better(a, c) {
      BetterTransitive(a, b, c);
    }
  }

  function StoredScore(p: Pool, t: TxId): Score { ScoreOf(p, t, p.entry(t).withAncestors) }

  /** The entries of the pool in index order: none comes before its predecessors. */
  ghost predicate ScoreOrdered(p: Pool, before: (Score, Score) -> bool) {
    forall i, j :: 0 <= i < j < |p.mapTx| ==> !before(StoredScore(p, p.mapTx[j]), StoredScore(p, p.mapTx[i]))
  }

  /** The first entry of mapModifiedTx in score order. */
  method First(p: Pool, modified: map<TxId, Modified>, before: (Score, Score) -> bool) returns (best: TxId)
    requires modified != map[] && IsOrder(before)
    requires forall t :: t in modified ==> Positive(ScoreOf(p, t, modified[t]))
    ensures best in modified
    ensures forall t :: t in modified ==> !before(ScoreOf(p, t, modified[t]), ScoreOf(p, best, modified[best]))
  {
    best :| best in modified;
    var rest := modified.Keys - {best};
    while rest != {}
      invariant rest <= modified.Keys && best in modified && best !in rest
      invariant forall t :: t in modified && t !in rest ==>
        !before(ScoreOf(p, t, modified[t]), ScoreOf(p, best, modified[best]))
    {
      var t :| t in rest;
      rest := rest - {t};
      if before(ScoreOf(p, t, modified[t]), ScoreOf(p, best, modified[best])) { best := t; }
    }
  }
}
