/** A stack of caches of any depth, top first, over a database: indistinguishable from plain maps. */
module CoinsStack {
  import opened Basics
  import opened Coins

  type Layers = seq<CoinsMap>

  function View(l: Layers, db: Utxo): Utxo {
    if l == [] then db else Over(l[0], View(l[1..], db))
  }

  ghost predicate StackOk(l: Layers, db: Utxo) {
    if l == [] then Unspent(db) else LayerOk(l[0], View(l[1..], db)) && StackOk(l[1..], db)
  }

  lemma {:induction false} StackUnspent(l: Layers, db: Utxo)
    requires StackOk(l, db)
    ensures Unspent(View(l, db))
  {
    if l != [] {
      StackUnspent(l[1..], db);
      OverUnspent(l[0], View(l[1..], db));
    }
  }

  /** What every level shows, from the top layer down to the database. */
  function Views(l: Layers, db: Utxo): (vs: seq<Utxo>)
    ensures |vs| == |l| + 1 && vs[0] == View(l, db)
  {
    if l == [] then [db] else [View(l, db)] + Views(l[1..], db)
  }

  // ---------- reading fills the caches ----------

  /** FetchCoin: the layers after asking the top layer for an entry. */
  function Fetch(l: Layers, db: Utxo, o: OutPoint): (r: Layers)
    requires l != []
    ensures |r| == |l|
    decreases |l|, 0
  {
    if o in l[0] then l
    else
      var (rest, coin) := Get(l[1..], db, o);
      [match coin case None => l[0] case Some(c) => l[0][o := Fetched(c)]] + rest
  }

  /** GetCoin: the layers afterwards, and the coin if an unspent one was found. */
  function Get(l: Layers, db: Utxo, o: OutPoint): (r: (Layers, Option<Coin>))
    ensures |r.0| == |l|
    decreases |l|, 1
  {
    if l == [] then ([], if o in db then Some(db[o]) else None)
    else
      var f := Fetch(l, db, o);
      (f, if o in f[0] && !f[0][o].coin.IsSpent() then Some(f[0][o].coin) else None)
  }

  function Lookup(v: Utxo, o: OutPoint): Option<Coin> {
    if o in v then Some(v[o]) else None
  }

  /** Reading changes no view at any level, keeps the flags meaningful, and finds what the top view has. */
  lemma {:induction false} GetOk(l: Layers, db: Utxo, o: OutPoint)
    requires StackOk(l, db)
    ensures StackOk(Get(l, db, o).0, db)
    ensures Views(Get(l, db, o).0, db) == Views(l, db)
    ensures Get(l, db, o).1 == Lookup(View(l, db), o)
    decreases |l|, 1
  {
    if l != [] {
      FetchOk(l, db, o);
    }
  }

  lemma {:induction false} FetchOk(l: Layers, db: Utxo, o: OutPoint)
    requires StackOk(l, db) && l != []
    ensures StackOk(Fetch(l, db, o), db)
    ensures Views(Fetch(l, db, o), db) == Views(l, db)
    ensures o in View(l[1..], db) ==> o in Fetch(l, db, o)[0]
    decreases |l|, 0
  {
    if o !in l[0] {
      GetOk(l[1..], db, o);
      StackUnspent(l[1..], db);
      var v := View(l[1..], db);
      if o in v {
        FetchLayer(l[0], v, o);
      }
      var f := Fetch(l, db, o);
      assert f[1..] == Get(l[1..], db, o).0;
      assert View(f[1..], db) == v;
    }
  }

  // ---------- runs ----------

  datatype State = State(layers: Layers, db: Utxo)

  datatype Op =
    | GetOp(o: OutPoint)
    | AddOp(o: OutPoint, coin: Coin, overwrite: bool)
    | SpendOp(o: OutPoint)
    | UncacheOp(o: OutPoint)
    | FlushOp
    | PushOp
    | PopOp

  function Top(l: Layers, c: CoinsMap): Layers
    requires l != []
  {
    [c] + l[1..]
  }

  /** Flush: the top layer is written into the layer or database below and emptied. */
  function Flush(s: State): State
    requires s.layers != []
  {
    var l := s.layers;
    if |l| == 1 then State([map[]], WriteDb(s.db, l[0]))
    else State([map[], Merge(l[1], l[0])] + l[2..], s.db)
  }

  function Step(s: State, op: Op): State
    requires op.GetOp? || op.PushOp? || s.layers != []
  {
    var l := s.layers;
    match op
    case GetOp(o) => s.(layers := Get(l, s.db, o).0)
    case AddOp(o, coin, overwrite) => s.(layers := Top(l, AddLayer(l[0], o, coin, overwrite)))
    case SpendOp(o) => var f := Fetch(l, s.db, o); s.(layers := Top(f, SpendLayer(f[0], o)))
    case UncacheOp(o) => s.(layers := Top(l, UncacheLayer(l[0], o)))
    case FlushOp => Flush(s)
    case PushOp => s.(layers := [map[]] + l)
    case PopOp => s.(layers := l[1..])
  }

  /** The same operations on plain maps, one for each level. */
  function Spec(vs: seq<Utxo>, op: Op): seq<Utxo>
    requires vs != [] && (op.GetOp? || op.PushOp? || |vs| > 1)
  {
    match op
    case GetOp(_) => vs
    case AddOp(o, coin, _) => vs[0 := AddSpec(vs[0], o, coin)]
    case SpendOp(o) => vs[0 := vs[0] - {o}]
    case UncacheOp(_) => vs
    case FlushOp => vs[1 := vs[0]]
    case PushOp => [vs[0]] + vs
    case PopOp => vs[1..]
  }

  predicate Legal(vs: seq<Utxo>, op: Op) {
    && vs != [] && (op.GetOp? || op.PushOp? || |vs| > 1)
    && (op.AddOp? ==> AddLegal(vs[0], op.o, op.coin, op.overwrite))
  }

  ghost predicate Ok(s: State) { StackOk(s.layers, s.db) }

  function Shown(s: State): (vs: seq<Utxo>)
    ensures |vs| == |s.layers| + 1
  {
    Views(s.layers, s.db)
  }

  /** Replacing the top layer by one that means something on the same parent. */
  lemma TopOk(l: Layers, db: Utxo, c: CoinsMap)
    requires l != [] && StackOk(l, db) && LayerOk(c, View(l[1..], db))
    ensures StackOk(Top(l, c), db)
    ensures Views(Top(l, c), db) == Views(l, db)[0 := Over(c, View(l[1..], db))]
  {
    assert Top(l, c)[1..] == l[1..];
  }

  lemma EmptyOver(v: Utxo)
    ensures Over(map[], v) == v && LayerOk(map[], v)
  {
  }

  lemma FlushToDbOk(s: State)
    requires |s.layers| == 1 && Ok(s)
    ensures Ok(Flush(s)) && Shown(Flush(s)) == Shown(s)[1 := Shown(s)[0]]
  {
    var c, db := s.layers[0], s.db;
    assert s.layers[1..] == [];
    assert StackOk([], db);
    WriteDbOk(db, c);
    OverUnspent(c, db);
    EmptyOver(WriteDb(db, c));
  }

  /** The two top levels of a stack written out. */
  lemma TopTwo(a: CoinsMap, b: CoinsMap, l: Layers, db: Utxo)
    ensures View([a, b] + l, db) == Over(a, Over(b, View(l, db)))
    ensures Views([a, b] + l, db) == [Over(a, Over(b, View(l, db))), Over(b, View(l, db))] + Views(l, db)
    ensures StackOk([a, b] + l, db) <==>
      StackOk(l, db) && LayerOk(b, View(l, db)) && LayerOk(a, Over(b, View(l, db)))
  {
    hide Over, LayerOk;
    assert ([a, b] + l)[1..] == [b] + l;
    assert ([b] + l)[1..] == l;
  }

  lemma FlushToParentOk(s: State)
    requires |s.layers| > 1 && Ok(s)
    ensures Ok(Flush(s)) && Shown(Flush(s)) == Shown(s)[1 := Shown(s)[0]]
    ensures forall o :: !Misapplied(s.layers[1], s.layers[0], o)
  {
    hide LayerOk, Over, StackOk, View, Views, Merge, Misapplied;
    var a, b, l, db := s.layers[0], s.layers[1], s.layers[2..], s.db;
    assert s.layers == [a, b] + l;
    TopTwo(a, b, l, db);
    TopTwo(map[], Merge(b, a), l, db);
    StackUnspent(l, db);
    MergeOk(b, a, View(l, db));
    EmptyOver(Over(Merge(b, a), View(l, db)));
  }

  lemma FlushOk(s: State)
    requires s.layers != [] && Ok(s)
    ensures Ok(Flush(s)) && Shown(Flush(s)) == Shown(s)[1 := Shown(s)[0]]
  {
    if |s.layers| == 1 {
      FlushToDbOk(s);
    } else {
      FlushToParentOk(s);
    }
  }

  /** Every operation does to the plain maps exactly what it says. */
  lemma StepRefines(s: State, op: Op)
    requires Ok(s) && Legal(Shown(s), op)
    ensures Ok(Step(s, op)) && Shown(Step(s, op)) == Spec(Shown(s), op)
  {
    var l, db := s.layers, s.db;
    match op
    case GetOp(o) => GetOk(l, db, o);
    case AddOp(o, coin, overwrite) =>
      StackUnspent(l[1..], db);
      AddLayerOk(l[0], View(l[1..], db), o, coin, overwrite);
      TopOk(l, db, AddLayer(l[0], o, coin, overwrite));
    case SpendOp(o) =>
      FetchOk(l, db, o);
      var f := Fetch(l, db, o);
      assert Views(f, db)[1] == View(f[1..], db) && Views(l, db)[1] == View(l[1..], db);
      SpendLayerOk(f[0], View(f[1..], db), o);
      TopOk(f, db, SpendLayer(f[0], o));
    case UncacheOp(o) =>
      UncacheLayerOk(l[0], View(l[1..], db), o);
      TopOk(l, db, UncacheLayer(l[0], o));
    case FlushOp => FlushOk(s);
    case PushOp =>
      var m := Step(s, op).layers;
      assert m[1..] == l;
      assert Over(map[], View(l, db)) == View(l, db);
    case PopOp =>
  }

  /** A run in which every operation is legal when it is made, judged on the plain maps alone. */
  predicate LegalRun(vs: seq<Utxo>, ops: seq<Op>)
    decreases |ops|
  {
    ops == [] || (Legal(vs, ops[0]) && LegalRun(Spec(vs, ops[0]), ops[1..]))
  }

  function SpecRun(vs: seq<Utxo>, ops: seq<Op>): seq<Utxo>
    requires LegalRun(vs, ops)
    decreases |ops|
  {
    if ops == [] then vs else SpecRun(Spec(vs, ops[0]), ops[1..])
  }

  ghost function Run(s: State, ops: seq<Op>): State
    requires Ok(s) && LegalRun(Shown(s), ops)
    decreases |ops|
  {
    if ops == [] then s
    else
      StepRefines(s, ops[0]);
      Run(Step(s, ops[0]), ops[1..])
  }

  /** Over any legal run, a stack of any depth shows at every level what plain maps would. */
  lemma {:induction false} RunRefines(s: State, ops: seq<Op>)
    requires Ok(s) && LegalRun(Shown(s), ops)
    ensures Ok(Run(s, ops)) && Shown(Run(s, ops)) == SpecRun(Shown(s), ops)
    decreases |ops|
  {
    if ops != [] {
      StepRefines(s, ops[0]);
      RunRefines(Step(s, ops[0]), ops[1..]);
    }
  }

  /**
   * SpendCoin answers true when it finds an entry. That tells whether an unspent coin was there
   * exactly when the top layer does not already hold the coin as spent.
   */
  lemma SpendAnswer(l: Layers, db: Utxo, o: OutPoint)
    requires StackOk(l, db) && l != []
    ensures (o in Fetch(l, db, o)[0] <==> o in View(l, db)) <==> !(o in l[0] && l[0][o].coin.IsSpent())
  {
    if o !in l[0] {
      GetOk(l[1..], db, o);
    }
  }
}
