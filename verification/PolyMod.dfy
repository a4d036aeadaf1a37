/** The checksum remainder of Bech32 and Bech32m over five-bit symbols. */
module PolyMod {
  import opened Basics
  import opened BitOps

  predicate Symbols(s: seq<nat>) { forall i :: 0 <= i < |s| ==> s[i] < 32 }

  /** A 30-bit number: six coefficients of five bits. */
  predicate Remainder(c: nat) { Shr(c, 30) == 0 }

  function Select(b: bool, k: nat): nat { if b then k else 0 }

  /** The sum of those constants whose bits are set in c0. */
  function Chosen(c0: nat, ks: seq<nat>): nat {
    if ks == [] then 0 else Xor(Select(c0 % 2 == 1, ks[0]), Chosen(c0 / 2, ks[1..]))
  }

  /** The generator polynomial less its leading term, times 1, 2, 4, 8 and 16. */
  const GENERATOR: seq<nat> := [0x3b6a57b2, 0x26508e6d, 0x1ea119fa, 0x3d4233dd, 0x2a1462b3]

  /** Multiplies the remainder by x, modulo the generator. */
  function Advance(c: nat): nat { Xor(Shl(Trunc(c, 25), 5), Chosen(Shr(c, 25), GENERATOR)) }

  /** Takes one symbol into the remainder. */
  function Step(c: nat, v: nat): nat { Xor(Advance(c), v) }

  /** The remainder after a sequence of symbols, from a remainder. */
  function PolyFrom(c: nat, s: seq<nat>): nat
    decreases |s|
  {
    if s == [] then c else PolyFrom(Step(c, s[0]), s[1..])
  }

  // ---------- linearity ----------

  lemma SelectXor(a: bool, b: bool, k: nat)
    ensures Select(a != b, k) == Xor(Select(a, k), Select(b, k))
  {
    XorSelf(k);
  }

  lemma {:induction false} ChosenXor(a: nat, b: nat, ks: seq<nat>)
    ensures Chosen(Xor(a, b), ks) == Xor(Chosen(a, ks), Chosen(b, ks))
    decreases |ks|
  {
    if ks != [] {
      XorStep(a, b);
      ChosenXor(a / 2, b / 2, ks[1..]);
      SelectXor(a % 2 == 1, b % 2 == 1, ks[0]);
      XorRegroup(Select(a % 2 == 1, ks[0]), Select(b % 2 == 1, ks[0]), Chosen(a / 2, ks[1..]), Chosen(b / 2, ks[1..]));
    }
  }

  lemma AdvanceXor(c: nat, d: nat)
    ensures Advance(Xor(c, d)) == Xor(Advance(c), Advance(d))
  {
    TruncXor(c, d, 25);
    ShlXor(Trunc(c, 25), Trunc(d, 25), 5);
    ShrXor(c, d, 25);
    ChosenXor(Shr(c, 25), Shr(d, 25), GENERATOR);
    XorRegroup(Shl(Trunc(c, 25), 5), Shl(Trunc(d, 25), 5),
               Chosen(Shr(c, 25), GENERATOR), Chosen(Shr(d, 25), GENERATOR));
  }

  lemma StepXor(c: nat, d: nat, v: nat, w: nat)
    ensures Step(Xor(c, d), Xor(v, w)) == Xor(Step(c, v), Step(d, w))
  {
    AdvanceXor(c, d);
    XorRegroup(Advance(c), Advance(d), v, w);
  }

  function XorAll(s: seq<nat>, t: seq<nat>): (r: seq<nat>)
    requires |s| == |t|
    ensures |r| == |s| && forall i :: 0 <= i < |s| ==> r[i] == Xor(s[i], t[i])
  {
    seq(|s|, i requires 0 <= i < |s| => Xor(s[i], t[i]))
  }

  /** The remainder of a sum is the sum of the remainders. */
  lemma {:induction false} PolyLinear(c: nat, d: nat, s: seq<nat>, t: seq<nat>)
    requires |s| == |t|
    ensures PolyFrom(Xor(c, d), XorAll(s, t)) == Xor(PolyFrom(c, s), PolyFrom(d, t))
    decreases |s|
  {
    if s != [] {
      StepXor(c, d, s[0], t[0]);
      assert XorAll(s, t)[1..] == XorAll(s[1..], t[1..]);
      PolyLinear(Step(c, s[0]), Step(d, t[0]), s[1..], t[1..]);
    }
  }

  lemma {:induction false} PolyConcat(c: nat, s: seq<nat>, t: seq<nat>)
    ensures PolyFrom(c, s + t) == PolyFrom(PolyFrom(c, s), t)
    decreases |s|
  {
    if s == [] {
      assert s + t == t;
    } else {
      assert (s + t)[1..] == s[1..] + t;
      PolyConcat(Step(c, s[0]), s[1..], t);
    }
  }

  // ---------- injectivity ----------

  lemma XorShort(x: nat, y: nat, k: nat)
    requires Shr(x, k) == 0 && Shr(y, k) == 0
    ensures Shr(Xor(x, y), k) == 0
  {
    ShrXor(x, y, k);
  }

  lemma {:induction false} ChosenShort(c0: nat, ks: seq<nat>)
    requires forall i :: 0 <= i < |ks| ==> Remainder(ks[i])
    ensures Remainder(Chosen(c0, ks))
    decreases |ks|
  {
    ShrZero(30);
    if ks != [] {
      ChosenShort(c0 / 2, ks[1..]);
      XorShort(Select(c0 % 2 == 1, ks[0]), Chosen(c0 / 2, ks[1..]), 30);
    }
  }

  lemma GeneratorShort()
    ensures forall i :: 0 <= i < |GENERATOR| ==> Remainder(GENERATOR[i])
  {
    forall i | 0 <= i < |GENERATOR| ensures Remainder(GENERATOR[i]) { Below30(GENERATOR[i]); }
  }

  lemma Below30(x: nat)
    ensures Remainder(x) <==> x < 0x4000_0000
  {
    assert Shl(1, 10) == 0x400 && Shl(0x400, 10) == 0x10_0000 && Shl(0x10_0000, 10) == 0x4000_0000;
    ShlShl(1, 10, 10);
    ShlShl(1, 20, 10);
    ShrBelow(x, 30);
  }

  lemma TruncShort(c: nat)
    ensures Remainder(Shl(Trunc(c, 25), 5))
  {
    var t := Trunc(c, 25);
    ShrShr(Shl(t, 5), 5, 25);
    ShrShl(t, 5);
    TruncShr(c, 25);
  }

  lemma {:induction false} TruncShr(x: nat, k: nat)
    ensures Shr(Trunc(x, k), k) == 0
    decreases k
  {
    if k > 0 {
      assert Trunc(x, k) / 2 == Trunc(x / 2, k - 1);
      TruncShr(x / 2, k - 1);
    }
  }

  lemma StepShort(c: nat, v: nat)
    requires v < 32
    ensures Remainder(Step(c, v))
  {
    GeneratorShort();
    ChosenShort(Shr(c, 25), GENERATOR);
    TruncShort(c);
    XorShort(Shl(Trunc(c, 25), 5), Chosen(Shr(c, 25), GENERATOR), 30);
    ShrShr(v, 5, 25);
    assert Shr(v, 5) == 0;
    ShrZero(25);
    XorShort(Advance(c), v, 30);
  }

  /** Bit b of the sum of the chosen constants. */
  predicate Parity(c0: nat, ks: seq<nat>, b: nat) {
    ks != [] && ((c0 % 2 == 1 && Bit(ks[0], b)) != Parity(c0 / 2, ks[1..], b))
  }

  lemma {:induction false} ChosenBit(c0: nat, ks: seq<nat>, b: nat)
    ensures Bit(Chosen(c0, ks), b) == Parity(c0, ks, b)
    decreases |ks|
  {
    ShrZero(b);
    if ks != [] {
      ChosenBit(c0 / 2, ks[1..], b);
      BitXor(Select(c0 % 2 == 1, ks[0]), Chosen(c0 / 2, ks[1..]), b);
    }
  }

  lemma Parity5(c0: nat, ks: seq<nat>, b: nat)
    requires |ks| == 5
    ensures Parity(c0, ks, b) == ((c0 % 2 == 1 && Bit(ks[0], b)) != ((c0 / 2 % 2 == 1 && Bit(ks[1], b)) !=
      ((c0 / 4 % 2 == 1 && Bit(ks[2], b)) !=
        ((c0 / 8 % 2 == 1 && Bit(ks[3], b)) != (c0 / 16 % 2 == 1 && Bit(ks[4], b))))))
  {
    var t1, t2, t3, t4 := ks[1..], ks[1..][1..], ks[1..][1..][1..], ks[1..][1..][1..][1..];
    assert Parity(c0 / 16, t4, b) == (c0 / 16 % 2 == 1 && Bit(ks[4], b)) by { assert t4[1..] == []; }
    assert Parity(c0 / 8, t3, b) == ((c0 / 8 % 2 == 1 && Bit(ks[3], b)) != Parity(c0 / 16, t4, b));
    assert Parity(c0 / 4, t2, b) == ((c0 / 4 % 2 == 1 && Bit(ks[2], b)) != Parity(c0 / 8, t3, b));
    assert Parity(c0 / 2, t1, b) == ((c0 / 2 % 2 == 1 && Bit(ks[1], b)) != Parity(c0 / 4, t2, b));
  }

  /** A nonzero leading coefficient leaves a nonzero constant term. */
  lemma GeneratorIndependent(c0: nat)
    requires c0 < 32 && (forall b :: 0 <= b < 5 ==> !Bit(Chosen(c0, GENERATOR), b))
    ensures c0 == 0
  {
    var g := GENERATOR;
    GeneratorBits();
    forall b | 0 <= b < 5 ensures !Parity(c0, g, b) { ChosenBit(c0, g, b); }
    Parity5(c0, g, 0);
    Parity5(c0, g, 1);
    Parity5(c0, g, 2);
    Parity5(c0, g, 3);
    Parity5(c0, g, 4);
  }

  lemma GeneratorBits()
    ensures !Bit(GENERATOR[0], 0) && Bit(GENERATOR[1], 0) && !Bit(GENERATOR[2], 0)
         && Bit(GENERATOR[3], 0) && Bit(GENERATOR[4], 0)
    ensures Bit(GENERATOR[0], 1) && !Bit(GENERATOR[1], 1) && Bit(GENERATOR[2], 1)
         && !Bit(GENERATOR[3], 1) && Bit(GENERATOR[4], 1)
    ensures !Bit(GENERATOR[0], 2) && Bit(GENERATOR[1], 2) && !Bit(GENERATOR[2], 2)
         && Bit(GENERATOR[3], 2) && !Bit(GENERATOR[4], 2)
    ensures !Bit(GENERATOR[0], 3) && Bit(GENERATOR[1], 3) && Bit(GENERATOR[2], 3)
         && Bit(GENERATOR[3], 3) && !Bit(GENERATOR[4], 3)
    ensures Bit(GENERATOR[0], 4) && !Bit(GENERATOR[1], 4) && Bit(GENERATOR[2], 4)
         && Bit(GENERATOR[3], 4) && Bit(GENERATOR[4], 4)
  {
  }

  lemma {:induction false} ChosenZero(ks: seq<nat>)
    ensures Chosen(0, ks) == 0
  {
    if ks != [] { ChosenZero(ks[1..]); }
  }

  /** A remainder that fits five coefficients is only shifted. */
  lemma AdvanceShort(c: nat)
    requires Shr(c, 25) == 0
    ensures Advance(c) == Shl(c, 5)
  {
    ChosenZero(GENERATOR);
    SplitJoin(c, 25);
    ShrZero(25);
  }

  lemma AdvanceZero(c: nat)
    requires Remainder(c) && Advance(c) == 0
    ensures c == 0
  {
    var low, c0 := Trunc(c, 25), Shr(c, 25);
    XorCancels(Shl(low, 5), Chosen(c0, GENERATOR));
    forall b | 0 <= b < 5 ensures !Bit(Chosen(c0, GENERATOR), b) { ShlBit(low, 5, b); }
    ShrShr(c, 25, 5);
    assert c0 < 32;
    GeneratorIndependent(c0);
    AdvanceShort(c);
    ShrShl(c, 5);
    ShrZero(5);
  }

  /** Two remainders that agree after a symbol were equal before it. */
  lemma StepInjective(c: nat, d: nat, v: nat)
    requires Remainder(c) && Remainder(d) && Step(c, v) == Step(d, v)
    ensures c == d
  {
    StepXor(c, d, v, v);
    XorSelf(v);
    XorSelf(Step(c, v));
    XorShort(c, d, 30);
    AdvanceZero(Xor(c, d));
    XorCancels(c, d);
  }

  lemma {:induction false} PolyInjective(c: nat, d: nat, s: seq<nat>)
    requires Remainder(c) && Remainder(d) && Symbols(s) && PolyFrom(c, s) == PolyFrom(d, s)
    ensures c == d
    decreases |s|
  {
    if s != [] {
      StepShort(c, s[0]);
      StepShort(d, s[0]);
      PolyInjective(Step(c, s[0]), Step(d, s[0]), s[1..]);
      StepInjective(c, d, s[0]);
    }
  }

  lemma {:induction false} PolyRemainder(c: nat, s: seq<nat>)
    requires Remainder(c) && Symbols(s)
    ensures Remainder(PolyFrom(c, s))
    decreases |s|
  {
    if s != [] {
      StepShort(c, s[0]);
      PolyRemainder(Step(c, s[0]), s[1..]);
    }
  }

  // ---------- six symbols in a remainder ----------

  /** Up to six symbols side by side, the first highest. */
  function Pack(s: seq<nat>): nat {
    if s == [] then 0 else Xor(Shl(Pack(s[..|s| - 1]), 5), s[|s| - 1])
  }

  lemma {:induction false} PackShort(s: seq<nat>)
    requires Symbols(s)
    ensures Shr(Pack(s), 5 * |s|) == 0
  {
    if s != [] {
      var p, x, k := Pack(s[..|s| - 1]), s[|s| - 1], 5 * (|s| - 1);
      PackShort(s[..|s| - 1]);
      ShrShr(Shl(p, 5), 5, k);
      ShrShl(p, 5);
      ShrShr(x, 5, k);
      assert Shr(x, 5) == 0;
      ShrZero(k);
      XorShort(Shl(p, 5), x, 5 * |s|);
    }
  }

  /** Starting from zero, up to six symbols are just collected. */
  lemma {:induction false} PolyPacks(s: seq<nat>)
    requires Symbols(s) && |s| <= 6
    ensures PolyFrom(0, s) == Pack(s)
  {
    hide Xor, Advance;
    if s != [] {
      var t, x := s[..|s| - 1], s[|s| - 1];
      PolyPacks(t);
      PackShort(t);
      ShrShr(Pack(t), 5 * |t|, 25 - 5 * |t|);
      ShrZero(25 - 5 * |t|);
      AdvanceShort(Pack(t));
      assert s == t + [x];
      PolyConcat(0, t, [x]);
    }
  }

  lemma {:induction false} PackZero(s: seq<nat>)
    requires Symbols(s) && Pack(s) == 0
    ensures forall i :: 0 <= i < |s| ==> s[i] == 0
  {
    if s != [] {
      var p, x := Pack(s[..|s| - 1]), s[|s| - 1];
      XorCancels(Shl(p, 5), x);
      ShrShl(p, 5);
      assert Shr(x, 5) == 0;
      ShrZero(5);
      PackZero(s[..|s| - 1]);
    }
  }

  /** The k lowest five-bit groups of a number, the highest first. */
  function Unpack(n: nat, k: nat): (s: seq<nat>)
    ensures |s| == k
  {
    if k == 0 then [] else Unpack(Shr(n, 5), k - 1) + [Trunc(n, 5)]
  }

  lemma {:induction false} UnpackSymbols(n: nat, k: nat)
    ensures Symbols(Unpack(n, k))
  {
    if k > 0 {
      UnpackSymbols(Shr(n, 5), k - 1);
      TruncShr(n, 5);
    }
  }

  lemma {:induction false} PackUnpack(n: nat, k: nat)
    requires Shr(n, 5 * k) == 0
    ensures Pack(Unpack(n, k)) == n
    decreases k
  {
    if k > 0 {
      ShrShr(n, 5, 5 * (k - 1));
      PackUnpack(Shr(n, 5), k - 1);
      var s := Unpack(n, k);
      assert s[..k - 1] == Unpack(Shr(n, 5), k - 1);
      SplitJoin(n, 5);
    }
  }

  // ---------- checksums ----------

  const CHECKSUM_SIZE: nat := 6

  /** The six symbols that bring the remainder to a target. */
  function Checksum(s: seq<nat>, target: nat): (r: seq<nat>)
    ensures |r| == CHECKSUM_SIZE && Symbols(r)
  {
    var mod := Xor(PolyFrom(1, s + Zeros(CHECKSUM_SIZE)), target);
    UnpackSymbols(mod, CHECKSUM_SIZE);
    Unpack(mod, CHECKSUM_SIZE)
  }

  /** From a remainder p, the difference to the target after six zeros, as symbols, leads to the target. */
  lemma SixSymbols(p: nat, z: seq<nat>, r: seq<nat>, mod: nat, target: nat)
    requires z == Zeros(CHECKSUM_SIZE) && mod == Xor(PolyFrom(p, z), target) && Remainder(mod)
    requires r == Unpack(mod, CHECKSUM_SIZE) && Symbols(r)
    ensures PolyFrom(p, r) == target
  {
    var q := PolyFrom(p, z);
    PackUnpack(mod, CHECKSUM_SIZE);
    PolyPacks(r);
    PolyLinear(p, 0, z, r);
    assert XorAll(z, r) == r && Xor(p, 0) == p;
    XorAssociates(q, q, target);
    XorSelf(q);
  }

  /** Appending the checksum makes the remainder the target. */
  lemma ChecksumWorks(s: seq<nat>, target: nat)
    requires Symbols(s) && Remainder(target)
    ensures PolyFrom(1, s + Checksum(s, target)) == target
  {
    var p, z := PolyFrom(1, s), Zeros(CHECKSUM_SIZE);
    Below30(1);
    PolyRemainder(1, s);
    PolyRemainder(p, z);
    PolyConcat(1, s, z);
    var mod := Xor(PolyFrom(p, z), target);
    XorShort(PolyFrom(p, z), target, 30);
    SixSymbols(p, z, Checksum(s, target), mod, target);
    PolyConcat(1, s, Checksum(s, target));
  }

  lemma Behind(x: seq<nat>, data: seq<nat>, c: seq<nat>)
    ensures x + (data + c) == x + data + c
  {
  }

  /** The checksum of a prefix and data, put behind the data. */
  lemma ChecksumBehind(x: seq<nat>, data: seq<nat>, target: nat)
    requires Symbols(x) && Symbols(data) && Remainder(target)
    ensures PolyFrom(1, x + (data + Checksum(x + data, target))) == target
  {
    ChecksumWorks(x + data, target);
    Behind(x, data, Checksum(x + data, target));
  }

  /** Six symbols that lead to the target are the checksum. */
  lemma ChecksumUnique(x: seq<nat>, data: seq<nat>, c: seq<nat>, target: nat)
    requires Symbols(x) && Symbols(data) && Symbols(c) && |c| == CHECKSUM_SIZE && Remainder(target)
    requires PolyFrom(1, x + (data + c)) == target
    ensures c == Checksum(x + data, target)
  {
    var s := x + data;
    ChecksumWorks(s, target);
    Behind(x, data, c);
    PolyConcat(1, s, c);
    PolyConcat(1, s, Checksum(s, target));
    SameWindow(PolyFrom(1, s), c, Checksum(s, target));
  }

  /** Changing anything within six symbols in a row changes the remainder. */
  lemma BurstDetected(before: seq<nat>, s: seq<nat>, t: seq<nat>, after: seq<nat>)
    requires Symbols(before) && Symbols(s) && Symbols(t) && Symbols(after) && |s| == |t| <= 6 && s != t
    ensures PolyFrom(1, before + s + after) != PolyFrom(1, before + t + after)
  {
    var p, d := PolyFrom(1, before), XorAll(s, t);
    PolyConcat(1, before + s, after);
    PolyConcat(1, before + t, after);
    PolyConcat(1, before, s);
    PolyConcat(1, before, t);
    Below30(1);
    PolyRemainder(1, before);
    PolyRemainder(p, s);
    PolyRemainder(p, t);
    if PolyFrom(p, s) == PolyFrom(p, t) { SameWindow(p, s, t); }
    if PolyFrom(1, before + s + after) == PolyFrom(1, before + t + after) {
      PolyInjective(PolyFrom(p, s), PolyFrom(p, t), after);
    }
  }

  lemma SameWindow(p: nat, s: seq<nat>, t: seq<nat>)
    requires Symbols(s) && Symbols(t) && |s| == |t| <= 6 && PolyFrom(p, s) == PolyFrom(p, t)
    ensures s == t
  {
    var d := XorAll(s, t);
    PolyLinear(p, p, s, t);
    XorSelf(p);
    XorSelf(PolyFrom(p, s));
    forall i | 0 <= i < |d| ensures d[i] < 32 { Below5(s[i], t[i]); }
    PolyPacks(d);
    PackZero(d);
    forall i | 0 <= i < |s| ensures s[i] == t[i] {
      assert d[i] == 0;
      XorCancels(s[i], t[i]);
    }
  }

  lemma Below5(x: nat, y: nat)
    requires x < 32 && y < 32
    ensures Xor(x, y) < 32
  {
    XorShort(x, y, 5);
  }

  /** Two sequences that differ in exactly one symbol have different remainders. */
  lemma SubstitutionDetected(s: seq<nat>, k: nat, x: nat)
    requires Symbols(s) && k < |s| && x < 32 && x != s[k]
    ensures PolyFrom(1, s) != PolyFrom(1, s[k := x])
  {
    var before, after := s[..k], s[k + 1..];
    assert s == before + [s[k]] + after && s[k := x] == before + [x] + after;
    BurstDetected(before, [s[k]], [x], after);
  }
}
