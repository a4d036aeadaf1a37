/** The caches as objects: each holds its own entries and a reference to the cache or database below it. */
module CoinsCaches {
  import opened Basics
  import opened Coins
  import opened CoinsStack

  class CoinsDb {
    var coins: Utxo

    constructor (coins: Utxo)
      ensures this.coins == coins
    {
      this.coins := coins;
    }

    method GetCoin(o: OutPoint) returns (r: Option<Coin>)
      ensures r == Lookup(coins, o)
    {
      r := if o in coins then Some(coins[o]) else None;
    }

    /** Writes the dirty entries of a batch, which is used up. */
    method BatchWrite(batch: CoinsMap)
      modifies this
      ensures coins == WriteDb(old(coins), batch)
    {
      var rest := batch;
      while rest != map[]
        invariant Remains(batch, rest)
        invariant forall o ::
          Lookup(coins, o) == if o in batch && o !in rest then WriteAt(old(coins), batch, o) else Lookup(old(coins), o)
        decreases rest.Keys
      {
        var o :| o in rest.Keys;
        if rest[o].dirty {
          if rest[o].coin.IsSpent() {
            coins := coins - {o};
          } else {
            coins := coins[o := rest[o].coin];
          }
        }
        rest := rest - {o};
      }
      WriteDbAt(old(coins), batch, coins);
    }
  }

  /** The entries of a batch that are still to be dealt with. */
  ghost predicate Remains(batch: CoinsMap, rest: CoinsMap) {
    forall o :: o in rest ==> o in batch && rest[o] == batch[o]
  }

  function WriteAt(db: Utxo, c: CoinsMap, o: OutPoint): Option<Coin>
    requires o in c
  {
    if !c[o].dirty then Lookup(db, o) else if c[o].coin.IsSpent() then None else Some(c[o].coin)
  }

  lemma WriteDbAt(db: Utxo, c: CoinsMap, r: Utxo)
    requires forall o :: Lookup(r, o) == if o in c then WriteAt(db, c, o) else Lookup(db, o)
    ensures r == WriteDb(db, c)
  {
    forall o
      ensures o in r <==> o in WriteDb(db, c)
      ensures o in r ==> r[o] == WriteDb(db, c)[o]
    {
      assert Lookup(r, o) == if o in c then WriteAt(db, c, o) else Lookup(db, o);
    }
  }

  lemma MergeFromAt(p: CoinsMap, c: CoinsMap, r: CoinsMap)
    requires forall o :: At(r, o) == MergeAt(p, c, o)
    ensures r == Merge(p, c)
  {
    forall o
      ensures o in r <==> o in Merge(p, c)
      ensures o in r ==> r[o] == Merge(p, c)[o]
    {
      assert At(r, o) == MergeAt(p, c, o);
    }
  }

  /** The loop of BatchWrite over the entries of a parent; after throwing, r is half done. */
  method MergeBatch(us: CoinsMap, batch: CoinsMap) returns (threw: bool, r: CoinsMap)
    ensures threw <==> exists o :: Misapplied(us, batch, o)
    ensures !threw ==> r == Merge(us, batch)
  {
    r := us;
    var rest := batch;
    while rest != map[]
      invariant Remains(batch, rest)
      invariant forall o :: o in batch && o !in rest ==> !Misapplied(us, batch, o)
      invariant forall o :: At(r, o) == if o in rest then At(us, o) else MergeAt(us, batch, o)
      decreases rest.Keys
    {
      var o :| o in rest.Keys;
      var e := rest[o];
      assert At(r, o) == At(us, o);
      if e.dirty {
        if o !in r {
          if !(e.isFresh && e.coin.IsSpent()) {
            r := r[o := Entry(e.coin, true, e.isFresh)];
          }
        } else {
          if e.isFresh && !r[o].coin.IsSpent() {
            assert Misapplied(us, batch, o);
            return true, r;
          }
          if r[o].isFresh && e.coin.IsSpent() {
            r := r - {o};
          } else {
            r := r[o := Entry(e.coin, true, r[o].isFresh)];
          }
        }
      }
      rest := rest - {o};
    }
    MergeFromAt(us, batch, r);
    threw := false;
  }

  class CoinsCache {
    const base: CoinsCache?
    const db: CoinsDb
    const depth: nat
    var cacheCoins: CoinsMap

    /** Each cache is below the ones built on it. */
    ghost predicate Chained()
      decreases depth
    {
      if base == null then depth == 0 else depth == base.depth + 1 && base.db == db && base.Chained()
    }

    /** This cache and all caches below it. */
    ghost function Chain(): (r: set<CoinsCache>)
      requires Chained()
      ensures this in r && forall c :: c in r ==> c.depth <= depth
      decreases depth
    {
      {this} + if base == null then {} else base.Chain()
    }

    ghost function Layers(): (l: Layers)
      requires Chained()
      reads Chain()
      ensures |l| == depth + 1 && l[0] == cacheCoins
      decreases depth
    {
      [cacheCoins] + if base == null then [] else base.Layers()
    }

    ghost predicate Valid()
      reads if Chained() then Chain() else {}, db
    {
      Chained() && StackOk(Layers(), db.coins)
    }

    /** What this cache shows. */
    ghost function Shows(): Utxo
      requires Chained()
      reads Chain(), db
    {
      View(Layers(), db.coins)
    }

    constructor OnDb(db: CoinsDb)
      ensures Chained() && base == null && this.db == db && cacheCoins == map[]
    {
      this.base, this.db, depth := null, db, 0;
      cacheCoins := map[];
    }

    constructor OnCache(base: CoinsCache)
      requires base.Chained()
      ensures Chained() && this.base == base && db == base.db && cacheCoins == map[]
    {
      this.base, db, depth := base, base.db, base.depth + 1;
      cacheCoins := map[];
    }

    method FetchCoin(o: OutPoint) returns (found: bool)
      requires Chained()
      modifies Chain()
      ensures Layers() == Fetch(old(Layers()), db.coins, o)
      ensures found == (o in cacheCoins)
      decreases depth, 0
    {
      if o in cacheCoins { return true; }
      ghost var l := Layers();
      assert l[1..] == if base == null then [] else base.Layers();
      assert base != null ==> this !in base.Chain();
      var tmp: Option<Coin>;
      if base == null {
        tmp := db.GetCoin(o);
      } else {
        tmp := base.GetCoin(o);
      }
      assert Layers() == [l[0]] + Get(l[1..], db.coins, o).0;
      if tmp.None? { return false; }
      cacheCoins := cacheCoins[o := Entry(tmp.value, false, false)];
      if tmp.value.IsSpent() {
        cacheCoins := cacheCoins[o := cacheCoins[o].(isFresh := true)];
      }
      found := true;
      assert cacheCoins == l[0][o := Fetched(tmp.value)];
      assert Layers() == [cacheCoins] + Get(l[1..], db.coins, o).0;
    }

    method GetCoin(o: OutPoint) returns (r: Option<Coin>)
      requires Chained()
      modifies Chain()
      ensures (Layers(), r) == Get(old(Layers()), db.coins, o)
      decreases depth, 1
    {
      var found := FetchCoin(o);
      if found && !cacheCoins[o].coin.IsSpent() {
        r := Some(cacheCoins[o].coin);
      } else {
        r := None;
      }
    }

    method HaveCoin(o: OutPoint) returns (r: bool)
      requires Chained()
      modifies Chain()
      ensures Layers() == Get(old(Layers()), db.coins, o).0 && r == Get(old(Layers()), db.coins, o).1.Some?
    {
      var found := FetchCoin(o);
      r := found && !cacheCoins[o].coin.IsSpent();
    }

    /** Like HaveCoin, but only this cache is asked: it is right about the coins it holds. */
    method HaveCoinInCache(o: OutPoint) returns (r: bool)
      requires Chained()
      ensures r <==> o in cacheCoins && o in Shows()
    {
      r := o in cacheCoins && !cacheCoins[o].coin.IsSpent();
    }

    /** threw: a coin would have been replaced although the caller ruled that out. */
    method AddCoin(o: OutPoint, coin: Coin, possibleOverwrite: bool) returns (threw: bool)
      requires Chained() && !coin.IsSpent()
      modifies this
      ensures threw == AddThrows(old(cacheCoins), o, coin, possibleOverwrite)
      ensures !threw ==> Layers() == Top(old(Layers()), AddLayer(old(cacheCoins), o, coin, possibleOverwrite))
    {
      assert base != null ==> this !in base.Chain();
      if coin.out.IsUnspendable() {
        OnlyOwnLayerChanged();
        return false;
      }
      if o !in cacheCoins {
        cacheCoins := cacheCoins[o := Entry(EMPTY, false, false)];
      }
      var isFresh := false;
      if !possibleOverwrite {
        if !cacheCoins[o].coin.IsSpent() { return true; }
        isFresh := !cacheCoins[o].dirty;
      }
      cacheCoins := cacheCoins[o := Entry(coin, true, cacheCoins[o].isFresh || isFresh)];
      threw := false;
      assert cacheCoins == AddLayer(old(cacheCoins), o, coin, possibleOverwrite);
      OnlyOwnLayerChanged();
    }

    method SpendCoin(o: OutPoint) returns (r: bool, moved: Coin)
      requires Chained()
      modifies Chain()
      ensures var f := Fetch(old(Layers()), db.coins, o);
        && Layers() == Top(f, SpendLayer(f[0], o))
        && r == (o in f[0])
        && (r ==> moved == f[0][o].coin)
    {
      assert base != null ==> this !in base.Chain();
      r := FetchCoin(o);
      moved := EMPTY;
      if !r { return; }
      moved := cacheCoins[o].coin;
      if cacheCoins[o].isFresh {
        cacheCoins := cacheCoins - {o};
      } else {
        cacheCoins := cacheCoins[o := Entry(EMPTY, true, cacheCoins[o].isFresh)];
      }
    }

    method Uncache(o: OutPoint)
      requires Chained()
      modifies this
      ensures Layers() == Top(old(Layers()), UncacheLayer(old(cacheCoins), o))
    {
      assert base != null ==> this !in base.Chain();
      if o in cacheCoins && !cacheCoins[o].dirty && !cacheCoins[o].isFresh {
        cacheCoins := cacheCoins - {o};
      }
      OnlyOwnLayerChanged();
    }

    /** Writes the dirty entries of a child's batch; threw: the child's FRESH flag was wrong. */
    method BatchWrite(batch: CoinsMap) returns (threw: bool)
      requires Chained()
      modifies this
      ensures threw <==> exists o :: Misapplied(old(cacheCoins), batch, o)
      ensures !threw ==> Layers() == Top(old(Layers()), Merge(old(cacheCoins), batch))
    {
      var r;
      if base != null { base.ChainAllocated(); }
      threw, r := MergeBatch(cacheCoins, batch);
      assert base != null ==> this !in base.Chain() && base.Layers() == old(base.Layers());
      cacheCoins := r;
      OnlyOwnLayerChanged();
    }

    /** All caches below exist already, so nothing done elsewhere can change them unnoticed. */
    twostate lemma ChainAllocated()
      requires Chained()
      ensures forall c :: c in Chain() ==> old(allocated(c))
      decreases depth
    {
      if base != null {
        base.ChainAllocated();
      }
    }

    /** A change to this cache alone changes the top layer alone. */
    twostate lemma OnlyOwnLayerChanged()
      requires Chained() && (base != null ==> base.Layers() == old(base.Layers()))
      ensures Layers() == Top(old(Layers()), cacheCoins)
    {
      assert old(Layers())[1..] == if base == null then [] else old(base.Layers());
    }

    /** Pushes the changes to the cache or database below; the views there become this one's. */
    method Flush() returns (threw: bool)
      requires Valid()
      modifies Chain(), db
      ensures !threw && State(Layers(), db.coins) == CoinsStack.Flush(State(old(Layers()), old(db.coins)))
    {
      hide LayerOk, Over, Misapplied, View, Views, Merge, WriteDb;
      ghost var l := Layers();
      if base == null {
        db.BatchWrite(cacheCoins);
        threw := false;
      } else {
        FlushToParentOk(State(l, db.coins));
        threw := base.BatchWrite(cacheCoins);
      }
      cacheCoins := map[];
    }
  }
}
