/** The layered UTXO cache: what each operation does to one layer, and to a stack of layers over a database. */
module Coins {
  import opened Basics

  const OP_RETURN := 0x6a
  const MAX_SCRIPT_SIZE := 10000

  datatype OutPoint = OutPoint(hash: nat, n: nat)

  datatype TxOut = TxOut(nValue: int, script: seq<nat>) {
    predicate IsNull() { nValue == -1 }

    predicate IsUnspendable() {
      (|script| > 0 && script[0] == OP_RETURN) || |script| > MAX_SCRIPT_SIZE
    }
  }

  datatype Coin = Coin(out: TxOut, fCoinBase: bool, nHeight: nat) {
    predicate IsSpent() { out.IsNull() }
  }

  /** A coin just constructed or cleared. */
  const EMPTY := Coin(TxOut(-1, []), false, 0)

  /** DIRTY: possibly different from the parent's version. FRESH: the parent has no unspent version. */
  datatype Entry = Entry(coin: Coin, dirty: bool, isFresh: bool)

  type CoinsMap = map<OutPoint, Entry>
  type Utxo = map<OutPoint, Coin>

  // ---------- one layer ----------

  /** What a layer shows, given what its parent shows. */
  function Over(c: CoinsMap, v: Utxo): Utxo {
    map o | o in c.Keys + v.Keys && (o in c ==> !c[o].coin.IsSpent()) :: if o in c then c[o].coin else v[o]
  }

  /** An entry agrees with its flags. */
  predicate EntryOk(e: Entry, v: Utxo, o: OutPoint) {
    && (e.isFresh ==> o !in v)
    && (!e.dirty ==> if e.coin.IsSpent() then o !in v else o in v && v[o] == e.coin)
  }

  ghost predicate LayerOk(c: CoinsMap, v: Utxo) {
    forall o :: o in c ==> EntryOk(c[o], v, o)
  }

  /** Only unspent coins are ever shown. */
  ghost predicate Unspent(v: Utxo) {
    forall o :: o in v ==> !v[o].IsSpent()
  }

  lemma OverUnspent(c: CoinsMap, v: Utxo)
    requires Unspent(v)
    ensures Unspent(Over(c, v))
  {
  }

  /** An entry copied from the parent. */
  function Fetched(coin: Coin): Entry {
    Entry(coin, false, coin.IsSpent())
  }

  lemma FetchLayer(c: CoinsMap, v: Utxo, o: OutPoint)
    requires LayerOk(c, v) && Unspent(v) && o !in c && o in v
    ensures LayerOk(c[o := Fetched(v[o])], v) && Over(c[o := Fetched(v[o])], v) == Over(c, v)
    ensures !Fetched(v[o]).isFresh
  {
  }

  /** The entry AddCoin starts from: the cached one, or a new empty one. */
  function Slot(c: CoinsMap, o: OutPoint): Entry {
    if o in c then c[o] else Entry(EMPTY, false, false)
  }

  /** AddCoin throws when told that nothing is overwritten while the layer has an unspent coin. */
  predicate AddThrows(c: CoinsMap, o: OutPoint, coin: Coin, overwrite: bool) {
    !coin.out.IsUnspendable() && !overwrite && !Slot(c, o).coin.IsSpent()
  }

  function AddLayer(c: CoinsMap, o: OutPoint, coin: Coin, overwrite: bool): CoinsMap {
    if coin.out.IsUnspendable() then c
    else
      var e := Slot(c, o);
      c[o := Entry(coin, true, e.isFresh || (!overwrite && !e.dirty))]
  }

  /** What a plain set of unspent coins becomes when a coin is added. */
  function AddSpec(v: Utxo, o: OutPoint, coin: Coin): Utxo {
    if coin.out.IsUnspendable() then v else v[o := coin]
  }

  /** The demand AddCoin makes of its callers: no overwrite unless announced. */
  predicate AddLegal(v: Utxo, o: OutPoint, coin: Coin, overwrite: bool) {
    !coin.IsSpent() && (coin.out.IsUnspendable() || overwrite || o !in v)
  }

  lemma AddLayerOk(c: CoinsMap, v: Utxo, o: OutPoint, coin: Coin, overwrite: bool)
    requires LayerOk(c, v) && Unspent(v) && AddLegal(Over(c, v), o, coin, overwrite)
    ensures !AddThrows(c, o, coin, overwrite)
    ensures LayerOk(AddLayer(c, o, coin, overwrite), v)
    ensures Over(AddLayer(c, o, coin, overwrite), v) == AddSpec(Over(c, v), o, coin)
  {
    var d := AddLayer(c, o, coin, overwrite);
    if !coin.out.IsUnspendable() {
      assert o !in Over(c, v) || overwrite;
      assert EntryOk(d[o], v, o);
    }
  }

  /** SpendCoin on a layer that has been asked to fetch the coin. */
  function SpendLayer(c: CoinsMap, o: OutPoint): CoinsMap {
    if o !in c then c
    else if c[o].isFresh then c - {o}
    else c[o := Entry(EMPTY, true, c[o].isFresh)]
  }

  lemma SpendLayerOk(c: CoinsMap, v: Utxo, o: OutPoint)
    requires LayerOk(c, v) && (o in v ==> o in c)
    ensures LayerOk(SpendLayer(c, o), v)
    ensures Over(SpendLayer(c, o), v) == Over(c, v) - {o}
  {
  }

  function UncacheLayer(c: CoinsMap, o: OutPoint): CoinsMap {
    if o in c && !c[o].dirty && !c[o].isFresh then c - {o} else c
  }

  lemma UncacheLayerOk(c: CoinsMap, v: Utxo, o: OutPoint)
    requires LayerOk(c, v)
    ensures LayerOk(UncacheLayer(c, o), v)
    ensures Over(UncacheLayer(c, o), v) == Over(c, v)
  {
  }

  // ---------- a batch of changes written into the layer below ----------

  /** The parent's entry after the child's entry is written, if any is left. */
  function MergeEntry(us: Option<Entry>, e: Entry): Option<Entry> {
    if !e.dirty then us
    else match us
      case None => if e.isFresh && e.coin.IsSpent() then None else Some(Entry(e.coin, true, e.isFresh))
      case Some(u) => if u.isFresh && e.coin.IsSpent() then None else Some(Entry(e.coin, true, u.isFresh))
  }

  /** A child entry claims to be FRESH although the parent has an unspent coin: BatchWrite throws. */
  predicate Misapplied(p: CoinsMap, c: CoinsMap, o: OutPoint) {
    o in c && o in p && c[o].dirty && c[o].isFresh && !p[o].coin.IsSpent()
  }

  function At(c: CoinsMap, o: OutPoint): Option<Entry> {
    if o in c then Some(c[o]) else None
  }

  function MergeAt(p: CoinsMap, c: CoinsMap, o: OutPoint): Option<Entry> {
    if o in c then MergeEntry(At(p, o), c[o]) else At(p, o)
  }

  function Merge(p: CoinsMap, c: CoinsMap): CoinsMap {
    map o | o in p.Keys + c.Keys && MergeAt(p, c, o).Some? :: MergeAt(p, c, o).value
  }

  /** Writing a layer into its parent gives one layer that shows the same and keeps the meaning of the flags. */
  lemma MergeOk(p: CoinsMap, c: CoinsMap, v: Utxo)
    requires Unspent(v) && LayerOk(p, v) && LayerOk(c, Over(p, v))
    ensures forall o :: !Misapplied(p, c, o)
    ensures LayerOk(Merge(p, c), v)
    ensures Over(Merge(p, c), v) == Over(c, Over(p, v))
  {
    forall o | o in Merge(p, c) ensures EntryOk(Merge(p, c)[o], v, o) {
      MergeAtOk(p, c, v, o);
    }
    forall o
      ensures o in Over(Merge(p, c), v) <==> o in Over(c, Over(p, v))
      ensures o in Over(Merge(p, c), v) ==> Over(Merge(p, c), v)[o] == Over(c, Over(p, v))[o]
    {
      MergeAtOk(p, c, v, o);
    }
  }

  lemma MergeAtOk(p: CoinsMap, c: CoinsMap, v: Utxo, o: OutPoint)
    requires Unspent(v) && LayerOk(p, v) && LayerOk(c, Over(p, v))
    ensures !Misapplied(p, c, o)
    ensures o in Merge(p, c) ==> EntryOk(Merge(p, c)[o], v, o)
    ensures o in Over(Merge(p, c), v) <==> o in Over(c, Over(p, v))
    ensures o in Over(Merge(p, c), v) ==> Over(Merge(p, c), v)[o] == Over(c, Over(p, v))[o]
  {
    assert o in c ==> EntryOk(c[o], Over(p, v), o);
    assert o in p ==> EntryOk(p[o], v, o);
  }

  /** The database keeps unspent coins only: dirty entries are erased or written. */
  function WriteDb(db: Utxo, c: CoinsMap): Utxo {
    map o | o in db.Keys + c.Keys && (o in c && c[o].dirty ==> !c[o].coin.IsSpent()) && (o in db || c[o].dirty)
      :: if o in c && c[o].dirty then c[o].coin else db[o]
  }

  lemma WriteDbOk(db: Utxo, c: CoinsMap)
    requires LayerOk(c, db)
    ensures WriteDb(db, c) == Over(c, db)
  {
    forall o
      ensures o in WriteDb(db, c) <==> o in Over(c, db)
      ensures o in WriteDb(db, c) ==> WriteDb(db, c)[o] == Over(c, db)[o]
    {
      assert o in c ==> EntryOk(c[o], db, o);
    }
  }
}
