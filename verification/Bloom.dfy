/** The rolling Bloom filter, against a plain Bloom filter over the most recent keys. */
module Bloom {
  import opened Division

  const TWO_32 := 0x1_0000_0000

  type Key = seq<bv8>

  /** A 64-bit word as the set of its one bits. */
  type Word = set<nat>

  /** A position of the filter: a pair of data words and a bit in them. */
  datatype Cell = Cell(word: nat, bit: nat)

  /** What fixes the cells of a key: the hash for the current tweak, the number of hashes, and the data size. */
  datatype Hashing = Hashing(hash: (nat, Key) -> nat, funcs: nat, size: nat)

  /** Sizes the constructor can produce: a positive even number of words. */
  predicate SizeOk(size: nat) { 0 < size < 0x1_0000_0000 && size % 2 == 0 }

  /** Maps a 32-bit number into [0, n) by the high half of a product that fits 64 bits. */
  function FastMod(x: nat, n: nat): (r: nat)
    requires x < 0x1_0000_0000 && 0 < n < 0x1_0000_0000
    ensures r < n
  {
    MulBelow(x, n);
    (x * n) / 0x1_0000_0000
  }

  lemma MulBelow(x: nat, n: nat)
    requires x < 0x1_0000_0000 && 0 < n < 0x1_0000_0000
    ensures x * n < 0x1_0000_0000 * n < 0x1_0000_0000_0000_0000
  {
    assert (0x1_0000_0000 - x) * n > 0;
  }

  function CellOf(h: Hashing, n: nat, key: Key): (c: Cell)
    requires SizeOk(h.size)
    ensures c.word < h.size / 2 && c.bit < 64
  {
    var x := h.hash(n, key) % 0x1_0000_0000;
    Cell(FastMod(x, h.size) / 2, x % 64)
  }

  predicate InFilter(h: Hashing, c: Cell) { c.word < h.size / 2 && c.bit < 64 }

  predicate Touches(h: Hashing, key: Key, c: Cell)
    requires SizeOk(h.size)
  {
    exists n :: 0 <= n < h.funcs && CellOf(h, n, key) == c
  }

  // ---------- generations ----------

  /** The generation, counted from the last reset, in which the newest of n keys was inserted. */
  function Generation(n: nat, perGeneration: nat): int
    requires perGeneration > 0
  {
    if n == 0 then 0 else (n - 1) / perGeneration
  }

  /** The label, 1 to 3, of a generation. */
  function Label(g: int): int { g % 3 + 1 }

  /** The first of n keys that has not been wiped: the newest three generations are kept. */
  function Oldest(n: nat, perGeneration: nat): nat
    requires perGeneration > 0
  {
    var g := Generation(n, perGeneration);
    if g < 2 then 0 else (g - 2) * perGeneration
  }

  /** The generation of the last key that touches a cell, or -1. */
  ghost function LastTouch(h: Hashing, e: nat, keys: seq<Key>, c: Cell): (g: int)
    requires SizeOk(h.size) && e > 0
    ensures -1 <= g <= Generation(|keys|, e)
  {
    hide Touches, Generation;
    GenerationRises(|keys|, e);
    if keys == [] then -1
    else
      var n := |keys| - 1;
      GenerationRises(n, e);
      if Touches(h, keys[n], c) then Generation(n + 1, e) else LastTouch(h, e, keys[..n], c)
  }

  /** What a cell holds after the keys: the label of its last touch if one of the newest three generations did it. */
  ghost function Stored(h: Hashing, e: nat, keys: seq<Key>, c: Cell): (l: int)
    requires SizeOk(h.size) && e > 0
  {
    var g := LastTouch(h, e, keys, c);
    if g >= 0 && g >= Generation(|keys|, e) - 2 then Label(g) else 0
  }

  lemma DivideStep(n: nat, e: nat)
    requires e > 0
    ensures (n + 1) / e == n / e + (if (n + 1) % e == 0 then 1 else 0)
  {
    var q, r := n / e, n % e;
    assert n + 1 == q * e + (r + 1);
    if r + 1 == e {
      QuotientIs(n + 1, e, q + 1, 0);
    } else {
      QuotientIs(n + 1, e, q, r + 1);
    }
  }

  lemma RemainderStep(n: nat, e: nat)
    requires e > 0
    ensures (n + 1) % e == if n % e + 1 == e then 0 else n % e + 1
  {
    var q, r := n / e, n % e;
    assert n + 1 == q * e + (r + 1);
    if r + 1 == e { QuotientIs(n + 1, e, q + 1, 0); } else { QuotientIs(n + 1, e, q, r + 1); }
  }

  lemma GenerationGrows(n: nat, e: nat)
    requires e > 0
    ensures Generation(n + 1, e) == Generation(n, e) + (if n > 0 && n % e == 0 then 1 else 0)
  {
    if n > 0 { DivideStep(n - 1, e); }
  }

  lemma GenerationRises(n: nat, e: nat)
    requires e > 0
    ensures 0 <= Generation(n, e) <= Generation(n + 1, e)
  {
    GenerationGrows(n, e);
  }

  /** Among three generations in a row, only the oldest has the label of the next one. */
  lemma LabelReused(g: int, a: int)
    requires a - 2 <= g <= a
    ensures 1 <= Label(g) <= 3 && (Label(g) == Label(a + 1) <==> g == a - 2)
  {
  }

  /** What becomes of a label, after n keys, when the next key comes: wiped if a new generation takes it over. */
  function Rolled(l: int, n: nat, e: nat): int
    requires e > 0
  {
    if n > 0 && n % e == 0 && l == Label(Generation(n + 1, e)) then 0 else l
  }

  /** How one more key changes a cell: wipe the label that is reused, then stamp. */
  lemma StoredStep(h: Hashing, e: nat, keys: seq<Key>, key: Key, c: Cell)
    requires SizeOk(h.size) && e > 0
    ensures Stored(h, e, keys + [key], c) ==
      if Touches(h, key, c) then Label(Generation(|keys| + 1, e)) else Rolled(Stored(h, e, keys, c), |keys|, e)
  {
    var a, last := Generation(|keys|, e), LastTouch(h, e, keys, c);
    GenerationGrows(|keys|, e);
    assert (keys + [key])[..|keys|] == keys;
    if a - 2 <= last { LabelReused(last, a); }
  }

  /** One of the kept keys touches a cell: the plain Bloom filter over these keys has the bit. */
  ghost predicate InWindow(h: Hashing, e: nat, keys: seq<Key>, c: Cell)
    requires SizeOk(h.size) && e > 0
  {
    exists i :: Oldest(|keys|, e) <= i < |keys| && Touches(h, keys[i], c)
  }

  /** A cell holds a label exactly when one of the kept keys touches it. */
  lemma StoredIsWindow(h: Hashing, e: nat, keys: seq<Key>, c: Cell)
    requires SizeOk(h.size) && e > 0
    ensures Stored(h, e, keys, c) != 0 <==> InWindow(h, e, keys, c)
  {
    var a := Generation(|keys|, e);
    var g := if a < 2 then 0 else a - 2;
    forall n: nat ensures n / e >= g <==> n >= Oldest(|keys|, e) { AtLeast(n, e, g); }
    TouchedSince(h, e, keys, c, g, Oldest(|keys|, e));
  }

  lemma {:induction false} TouchedSince(h: Hashing, e: nat, keys: seq<Key>, c: Cell, g: nat, lo: nat)
    requires SizeOk(h.size) && e > 0
    requires forall n: nat :: n / e >= g <==> n >= lo
    ensures LastTouch(h, e, keys, c) >= g <==> (exists i :: lo <= i < |keys| && Touches(h, keys[i], c))
    decreases |keys|
  {
    if keys != [] {
      var n := |keys| - 1;
      assert n / e >= g <==> n >= lo;
      if !Touches(h, keys[n], c) {
        TouchedSince(h, e, keys[..n], c, g, lo);
      }
    }
  }

  lemma AtLeast(n: nat, e: nat, g: int)
    requires e > 0
    ensures n / e >= g <==> n >= g * e
  {
    var q := n / e;
    DivMod(n, e);
    MulAtLeast(q - g, e);
    Distribute(e, q - g, g);
  }

  function EntriesThisGeneration(n: nat, e: nat): nat
    requires e > 0
  {
    if n == 0 then 0 else (n - 1) % e + 1
  }

  /** A full generation gives way to the next label, any other goes on. */
  lemma GenerationEnds(n: nat, e: nat)
    requires e > 0
    ensures EntriesThisGeneration(n, e) == e <==> n > 0 && n % e == 0
    ensures n % e == if EntriesThisGeneration(n, e) == e then 0 else EntriesThisGeneration(n, e)
    ensures var l, full := Label(Generation(n, e)), EntriesThisGeneration(n, e) == e;
      Label(Generation(n + 1, e)) == if !full then l else if l + 1 == 4 then 1 else l + 1
    ensures 1 <= Label(Generation(n, e)) <= 3
  {
    GenerationGrows(n, e);
    if n > 0 { RemainderStep(n - 1, e); }
  }

  /** The keys kept are the last two full generations and those of the current one. */
  lemma OldestKept(n: nat, e: nat)
    requires e > 0
    ensures var kept := 2 * e + EntriesThisGeneration(n, e);
      Oldest(n, e) == if n < kept then 0 else n - kept
  {
    if n > 0 {
      var q, r := (n - 1) / e, (n - 1) % e;
      DivMod(n - 1, e);
      KeptFrom(n, e, q, r);
    }
  }

  lemma KeptFrom(n: nat, e: nat, q: nat, r: nat)
    requires n == q * e + r + 1 && r < e
    ensures (if q < 2 then 0 else (q - 2) * e) == if n < 2 * e + r + 1 then 0 else n - (2 * e + r + 1)
  {
    assert q * e == (q - 2) * e + 2 * e;
    MulAtLeast(q - 2, e);
  }

  /** Each of the last keys is reported present. */
  lemma RecentKeysPresent(h: Hashing, e: nat, keys: seq<Key>, i: nat)
    requires SizeOk(h.size) && e > 0
    requires |keys| - (2 * e + EntriesThisGeneration(|keys|, e)) <= i < |keys|
    ensures forall n :: 0 <= n < h.funcs ==> Stored(h, e, keys, CellOf(h, n, keys[i])) != 0
  {
    OldestKept(|keys|, e);
    forall n | 0 <= n < h.funcs ensures Stored(h, e, keys, CellOf(h, n, keys[i])) != 0 {
      StoredIsWindow(h, e, keys, CellOf(h, n, keys[i]));
    }
  }

  // ---------- the filter ----------

  /** The two-bit value of a position, low bit in the even word. */
  function LabelIn(w1: Word, w2: Word, b: nat): int {
    (if b in w1 then 1 else 0) + (if b in w2 then 2 else 0)
  }

  const AllBits: Word := set b: nat | b < 64

  /** Zero minus a bit: all bits or none. */
  function Ones(bit: int): Word { if bit == 1 then AllBits else {} }

  function Xor(x: Word, y: Word): Word { (x - y) + (y - x) }

  function Shifted(v: int, bit: nat): Word { if v == 1 then {bit} else {} }

  /** The hash functions of a filter with a tweak. */
  function HashFor(murmur: (nat, Key) -> nat, tweak: nat): (nat, Key) -> nat {
    (n, key) => murmur((n * 0xFBA4C795 + tweak) % 0x1_0000_0000, key)
  }

  /** When the roundings of the constructor work out in 32 bits. */
  lemma Roundings(nElements: nat, nFilterBits: nat)
    requires nElements < TWO_32 && nFilterBits < TWO_32
    ensures SizeOk((nFilterBits + 63) % TWO_32 / 64 * 2) <==> 0 < nFilterBits <= TWO_32 - 64
    ensures (nElements + 1) % TWO_32 / 2 > 0 <==> 0 < nElements < TWO_32 - 1
  {
  }

  class RollingBloomFilter {
    const murmur: (nat, Key) -> nat
    const nHashFuncs: nat
    const nEntriesPerGeneration: nat
    const data: array<Word>
    var nTweak: nat
    var nEntriesThisGeneration: nat
    var nGeneration: int
    /** The keys inserted since the last reset. */
    ghost var keys: seq<Key>

    function Hashes(): Hashing
      reads this`nTweak
    {
      Hashing(HashFor(murmur, nTweak), nHashFuncs, data.Length)
    }

    function LabelAt(c: Cell): int
      requires 2 * c.word + 1 < data.Length && c.bit < 64
      reads data
    {
      LabelIn(data[2 * c.word], data[2 * c.word + 1], c.bit)
    }

    ghost predicate Valid()
      reads this, data
    {
      && SizeOk(data.Length) && nEntriesPerGeneration > 0
      && nGeneration == Label(Generation(|keys|, nEntriesPerGeneration))
      && nEntriesThisGeneration == EntriesThisGeneration(|keys|, nEntriesPerGeneration)
      && forall c :: InFilter(Hashes(), c) ==> LabelAt(c) == Stored(Hashes(), nEntriesPerGeneration, keys, c)
    }

    /**
     * The size of the filter and the number of hashes come from formulas over real numbers. The roundings are done in
     * 32 bits, so the filter works exactly when neither of them wraps around or has nothing to round.
     */
    constructor (murmur: (nat, Key) -> nat, nElements: nat, nFilterBits: nat, nHashFuncs: nat, tweak: nat)
      requires nElements < TWO_32 && nFilterBits < TWO_32
      ensures keys == [] && fresh(data)
      ensures Valid() <==> 0 < nElements < TWO_32 - 1 && 0 < nFilterBits <= TWO_32 - 64
      ensures Valid() ==> 2 * nEntriesPerGeneration >= nElements
    {
      Roundings(nElements, nFilterBits);
      this.murmur := murmur;
      this.nHashFuncs := nHashFuncs;
      nEntriesPerGeneration := (nElements + 1) % TWO_32 / 2;
      data := new Word[((nFilterBits + 63) % TWO_32 / 64) * 2](_ => {});
      new;
      Reset(tweak);
    }

    method Reset(tweak: nat)
      modifies this, data
      ensures keys == [] && (SizeOk(data.Length) && nEntriesPerGeneration > 0 ==> Valid())
    {
      nTweak := tweak;
      nEntriesThisGeneration := 0;
      nGeneration := 1;
      keys := [];
      for i := 0 to data.Length
        modifies data
        invariant forall j :: 0 <= j < i ==> data[j] == {}
      {
        data[i] := {};
      }
    }

    method Wipe(g: int)
      requires SizeOk(data.Length) && 1 <= g <= 3
      modifies data
      ensures forall c :: InFilter(Hashes(), c) ==>
        LabelAt(c) == if old(LabelAt(c)) == g then 0 else old(LabelAt(c))
    {
      var p := 0;
      while p < data.Length
        invariant p % 2 == 0 && p <= data.Length
        invariant forall j :: p <= j < data.Length ==> data[j] == old(data[j])
        invariant forall c :: InFilter(Hashes(), c) && 2 * c.word < p ==>
          LabelAt(c) == if old(LabelAt(c)) == g then 0 else old(LabelAt(c))
      {
        var p1, p2 := data[p], data[p + 1];
        var mask := Xor(p1, Ones(g % 2)) + Xor(p2, Ones(g / 2));
        data[p], data[p + 1] := p1 * mask, p2 * mask;
        p := p + 2;
      }
    }

    /** Stamps one cell with a label. */
    method Put(c: Cell, g: int)
      requires SizeOk(data.Length) && InFilter(Hashes(), c) && 1 <= g <= 3
      modifies data
      ensures forall d :: InFilter(Hashes(), d) ==> LabelAt(d) == if d == c then g else old(LabelAt(d))
    {
      var w := 2 * c.word;
      data[w] := data[w] * (AllBits - {c.bit}) + Shifted(g % 2, c.bit);
      data[w + 1] := data[w + 1] * (AllBits - {c.bit}) + Shifted(g / 2, c.bit);
    }

    method Stamp(key: Key, g: int)
      requires SizeOk(data.Length) && 1 <= g <= 3
      modifies data
      ensures forall c :: InFilter(Hashes(), c) ==>
        LabelAt(c) == if Touches(Hashes(), key, c) then g else old(LabelAt(c))
    {
      for n := 0 to nHashFuncs
        invariant forall c :: InFilter(Hashes(), c) ==>
          LabelAt(c) == if exists m :: 0 <= m < n && CellOf(Hashes(), m, key) == c then g else old(LabelAt(c))
      {
        Put(CellOf(Hashes(), n, key), g);
      }
    }

    /** Starts a new generation when the current one is full. */
    method Roll()
      requires Valid()
      modifies this`nEntriesThisGeneration, this`nGeneration, data
      ensures nGeneration == Label(Generation(|keys| + 1, nEntriesPerGeneration))
      ensures nEntriesThisGeneration == |keys| % nEntriesPerGeneration
      ensures forall c :: InFilter(Hashes(), c) ==>
        LabelAt(c) == Rolled(Stored(Hashes(), nEntriesPerGeneration, keys, c), |keys|, nEntriesPerGeneration)
    {
      hide Stored, Generation, EntriesThisGeneration, Label;
      GenerationEnds(|keys|, nEntriesPerGeneration);
      if nEntriesThisGeneration == nEntriesPerGeneration {
        nEntriesThisGeneration := 0;
        nGeneration := nGeneration + 1;
        if nGeneration == 4 { nGeneration := 1; }
        Wipe(nGeneration);
      }
    }

    method Insert(key: Key)
      requires Valid()
      modifies this, data
      ensures Valid() && keys == old(keys) + [key] && nTweak == old(nTweak)
    {
      Roll();
      nEntriesThisGeneration := nEntriesThisGeneration + 1;
      Stamp(key, nGeneration);
      ghost var h, e := Hashes(), nEntriesPerGeneration;
      forall c | InFilter(h, c) ensures LabelAt(c) == Stored(h, e, keys + [key], c) {
        StoredStep(h, e, keys, key, c);
      }
      keys := keys + [key];
    }

    /** Membership in the plain Bloom filter over the keys of the newest three generations. */
    method Contains(key: Key) returns (r: bool)
      requires Valid()
      ensures r <==> forall n :: 0 <= n < nHashFuncs ==>
        InWindow(Hashes(), nEntriesPerGeneration, keys, CellOf(Hashes(), n, key))
      ensures key in keys[Oldest(|keys|, nEntriesPerGeneration)..] ==> r
    {
      ghost var h, e := Hashes(), nEntriesPerGeneration;
      OldestKept(|keys|, e);
      for n := 0 to nHashFuncs
        invariant forall m :: 0 <= m < n ==> InWindow(h, e, keys, CellOf(h, m, key))
      {
        var c := CellOf(Hashes(), n, key);
        StoredIsWindow(h, e, keys, c);
        if c.bit !in data[2 * c.word] + data[2 * c.word + 1] { return false; }
      }
      return true;
    }
  }
}
