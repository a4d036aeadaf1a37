/** Bit shifts and bitwise or on limbs. */
module LimbShifts {
  import opened Division
  import opened Digits
  import opened Limbs

  function BitOr(x: nat, y: nat): nat {
    if x == 0 then y
    else if y == 0 then x
    else 2 * BitOr(x / 2, y / 2) + (if x % 2 == 1 || y % 2 == 1 then 1 else 0)
  }

  /** Bits that do not meet are added. */
  lemma {:induction false} OrIsSum(x: nat, t: nat, s: nat)
    requires x < Pow(2, s)
    ensures BitOr(x, Pow(2, s) * t) == x + Pow(2, s) * t
    ensures BitOr(Pow(2, s) * t, x) == x + Pow(2, s) * t
    decreases s
  {
    if s > 0 {
      var h := Pow(2, s - 1) * t;
      Associate(2, Pow(2, s - 1), t);
      OrIsSum(x / 2, t, s - 1);
    }
  }

  /** Bits above stay as they are. */
  lemma {:induction false} OrBelow(x: nat, y: nat, t: nat, s: nat)
    requires x < Pow(2, s) && y < Pow(2, s)
    ensures BitOr(x + Pow(2, s) * t, y) == BitOr(x, y) + Pow(2, s) * t
    decreases s
  {
    if s > 0 {
      var h := Pow(2, s - 1) * t;
      Associate(2, Pow(2, s - 1), t);
      assert (x + 2 * h) / 2 == x / 2 + h && (x + 2 * h) % 2 == x % 2;
      OrBelow(x / 2, y / 2, t, s - 1);
      OrIsSum(x, t, s);
    }
  }

  lemma Pow32()
    ensures Pow(2, 32) == BASE
  {
    PowAdd(2, 4, 4);
    assert Pow(2, 4) == 16;
    PowAdd(2, 8, 8);
    PowAdd(2, 16, 16);
  }

  lemma ModulusIsPower(n: nat)
    ensures Modulus(n) == Pow(2, 32 * n)
  {
    Pow32();
    PowMul(2, 32, n);
  }

  /** The part of a limb that leaves it, and the part that stays, when it is shifted left by s bits. */
  function Hi(x: nat, s: nat): nat
    requires s <= 32
  {
    x / Pow(2, 32 - s)
  }

  function Lo(x: nat, s: nat): nat
    requires s <= 32
  {
    (Pow(2, s) * x) % BASE
  }

  lemma SplitProduct(x: nat, p: nat, q: nat, hi: nat, r: nat)
    requires p * q == BASE && x == q * hi + r && r < q
    ensures p * r + BASE * hi == p * x
  {
    Distribute(p, q * hi, r);
    Associate(p, q, hi);
  }

  lemma SplitBounds(x: nat, p: nat, q: nat, hi: nat, r: nat)
    requires p * q == BASE && x == q * hi + r && r < q && x < BASE
    ensures hi < p && p * r + p <= BASE
  {
    MulMonotone(r + 1, q, p);
    Distribute(p, r, 1);
    if hi >= p { MulMonotone(p, hi, q); }
  }

  lemma ProductIsBase(s: nat)
    requires s <= 32
    ensures Pow(2, s) * Pow(2, 32 - s) == BASE
  {
    Pow32();
    PowAdd(2, s, 32 - s);
  }

  lemma SplitAt(x: nat, p: nat, q: nat)
    requires p * q == BASE && x < BASE
    ensures q > 0 && x / q < p && (p * x) % BASE == p * (x % q)
    ensures p * (x % q) + p <= BASE
    ensures p * (x % q) + BASE * (x / q) == p * x
  {
    DivMod(x, q);
    var hi, r := x / q, x % q;
    SplitProduct(x, p, q, hi, r);
    SplitBounds(x, p, q, hi, r);
    QuotientIs(p * x, BASE, hi, p * r);
  }

  lemma LimbSplit(x: nat, s: nat)
    requires s <= 32 && x < BASE
    ensures Hi(x, s) < Pow(2, s) && Lo(x, s) + Pow(2, s) <= BASE
    ensures Lo(x, s) == Pow(2, s) * (x % Pow(2, 32 - s))
    ensures Lo(x, s) + BASE * Hi(x, s) == Pow(2, s) * x
  {
    ProductIsBase(s);
    SplitAt(x, Pow(2, s), Pow(2, 32 - s));
  }

  // ---------- shifting left ----------

  /** Products of limbs with a factor, split into low and high parts. */
  predicate Split(a: seq<nat>, lo: seq<nat>, hi: seq<nat>, p: nat) {
    |a| == |lo| == |hi| && forall m :: 0 <= m < |a| ==> lo[m] + BASE * hi[m] == p * a[m]
  }

  /** Each limb takes what the one below lost; `c` enters at the bottom. */
  predicate ShiftedUp(lo: seq<nat>, hi: seq<nat>, r: seq<nat>, c: nat) {
    |r| == |lo| == |hi| && forall m :: 0 <= m < |r| ==> r[m] == lo[m] + (if m == 0 then c else hi[m - 1])
  }

  lemma {:induction false} ShiftedUpValue(a: seq<nat>, lo: seq<nat>, hi: seq<nat>, r: seq<nat>, p: nat, c: nat)
    requires Split(a, lo, hi, p) && ShiftedUp(lo, hi, r, c)
    ensures V(r) + Modulus(|a|) * (if a == [] then c else hi[|a| - 1]) == p * V(a) + c
  {
    if a != [] {
      var out := hi[|a| - 1];
      ShiftedUpValue(a[1..], lo[1..], hi[1..], r[1..], p, hi[0]);
      UpStep(p, a[0], r[0], hi[0], c, V(a[1..]), V(r[1..]), Modulus(|a| - 1), out);
    }
  }

  lemma UpStep(p: nat, x: nat, r0: nat, hi: nat, c: nat, a: nat, r: nat, m: nat, out: nat)
    requires r0 + BASE * hi == p * x + c && r + m * out == p * a + hi
    ensures (r0 + BASE * r) + (BASE * m) * out == p * (x + BASE * a) + c
  {
    Associate(BASE, m, out);
    Swap(p, BASE, a);
    Distribute(p, x, BASE * a);
  }

  /** Limb m of a number shifted left by k limbs and s bits. */
  function ShlLimb(a: seq<nat>, k: nat, s: nat, m: nat): nat
    requires s < 32 && m < |a|
  {
    if m < k then 0 else Lo(a[m - k], s) + (if m == k then 0 else Hi(a[m - k - 1], s))
  }

  /** The limbs of `r` are those of `a` shifted left by k limbs and s bits. */
  predicate ShiftedLeft(a: seq<nat>, r: seq<nat>, k: nat, s: nat)
    requires s < 32
  {
    |r| == |a| && forall m :: 0 <= m < |a| ==> r[m] == ShlLimb(a, k, s, m)
  }

  lemma ShiftFactor(k: nat, s: nat)
    ensures Pow(2, 32 * k + s) == Modulus(k) * Pow(2, s)
  {
    PowAdd(2, 32 * k, s);
    ModulusIsPower(k);
  }

  function Los(a: seq<nat>, s: nat): seq<nat>
    requires s <= 32
  {
    seq(|a|, i requires 0 <= i < |a| => Lo(a[i], s))
  }

  function His(a: seq<nat>, s: nat): seq<nat>
    requires s <= 32
  {
    seq(|a|, i requires 0 <= i < |a| => Hi(a[i], s))
  }

  lemma LimbsSplit(a: seq<nat>, s: nat)
    requires s <= 32 && LimbsOk(a)
    ensures Split(a, Los(a, s), His(a, s), Pow(2, s))
  {
    forall m | 0 <= m < |a| ensures Lo(a[m], s) + BASE * Hi(a[m], s) == Pow(2, s) * a[m] { LimbSplit(a[m], s); }
  }

  lemma ShiftAllOut(a: seq<nat>, r: seq<nat>, k: nat, s: nat)
    requires s < 32 && ShiftedLeft(a, r, k, s) && k >= |a|
    ensures V(r) == 0 && (V(a) * (Modulus(k) * Pow(2, s))) % Modulus(|a|) == 0
  {
    ValueZeros(BASE, r);
    PowAdd(BASE, |a|, k - |a|);
    ShiftedOut(V(a), Modulus(k) * Pow(2, s), Modulus(|a|), Modulus(k - |a|), Pow(2, s));
  }

  lemma UpperShifted(a: seq<nat>, r: seq<nat>, k: nat, s: nat)
    requires s < 32 && LimbsOk(a) && ShiftedLeft(a, r, k, s) && k < |a|
    ensures ShiftedUp(Los(a[..|a| - k], s), His(a[..|a| - k], s), r[k..], 0)
  {
    hide Value, Pow, Lo, Hi;
    var up := r[k..];
    var lo, hi := Los(a[..|a| - k], s), His(a[..|a| - k], s);
    forall m | 0 <= m < |up| ensures up[m] == lo[m] + (if m == 0 then 0 else hi[m - 1]) {
      assert up[m] == ShlLimb(a, k, s, m + k);
    }
  }

  lemma ShiftUpper(a: seq<nat>, r: seq<nat>, k: nat, s: nat)
    requires s < 32 && LimbsOk(a) && ShiftedLeft(a, r, k, s) && k < |a|
    ensures V(r[k..]) + Modulus(|a| - k) * Hi(a[|a| - k - 1], s) == Pow(2, s) * V(a[..|a| - k])
  {
    hide V, Modulus, Pow, Lo, Hi, Los, Split, ShiftedUp, ShlLimb;
    var low := a[..|a| - k];
    var hi := His(low, s);
    LimbsSplit(low, s);
    UpperShifted(a, r, k, s);
    ShiftedUpValue(low, Los(low, s), hi, r[k..], Pow(2, s), 0);
    assert hi[|low| - 1] == Hi(a[|a| - k - 1], s);
  }

  lemma ShiftParts(a: seq<nat>, r: seq<nat>, k: nat, s: nat)
    requires s < 32 && ShiftedLeft(a, r, k, s) && k < |a|
    ensures V(r) == Modulus(k) * V(r[k..])
    ensures V(a) == V(a[..|a| - k]) + Modulus(|a| - k) * V(a[|a| - k..])
  {
    assert a == a[..|a| - k] + a[|a| - k..] && r == r[..k] + r[k..];
    ValueConcat(BASE, a[..|a| - k], a[|a| - k..]);
    ValueConcat(BASE, r[..k], r[k..]);
    ValueZeros(BASE, r[..k]);
  }

  lemma ShiftSome(a: seq<nat>, r: seq<nat>, k: nat, s: nat) returns (over: nat)
    requires s < 32 && LimbsOk(a) && ShiftedLeft(a, r, k, s) && k < |a|
    ensures V(a) * (Modulus(k) * Pow(2, s)) == V(r) + Modulus(|a|) * over
  {
    ShiftUpper(a, r, k, s);
    ShiftParts(a, r, k, s);
    PowAdd(BASE, k, |a| - k);
    var high, out := V(a[|a| - k..]), Hi(a[|a| - k - 1], s);
    ShiftedPart(Modulus(k), Pow(2, s), Modulus(|a| - k), V(a[..|a| - k]), high, V(r[k..]), out);
    over := out + Pow(2, s) * high;
  }

  /** A left shift multiplies by a power of two, modulo the width. */
  lemma ShiftLeftValue(a: seq<nat>, r: seq<nat>, k: nat, s: nat)
    requires s < 32 && LimbsOk(a) && ShiftedLeft(a, r, k, s)
    ensures LimbsOk(r) && V(r) == (V(a) * Pow(2, 32 * k + s)) % Modulus(|a|)
  {
    ShiftFactor(k, s);
    LimbsBelow(a, r, k, s);
    if k >= |a| {
      ShiftAllOut(a, r, k, s);
    } else {
      var f := Modulus(k) * Pow(2, s);
      var over := ShiftSome(a, r, k, s);
      ValueBelow(BASE, r);
      QuotientIs(V(a) * f, Modulus(|a|), over, V(r));
    }
  }

  lemma ShiftedOut(v: nat, f: nat, m: nat, j: nat, p: nat)
    requires m > 0 && f == (m * j) * p
    ensures (v * f) % m == 0
  {
    assert v * f == (v * (j * p)) * m;
    QuotientIs(v * f, m, v * (j * p), 0);
  }

  lemma ShiftedPart(mk: nat, p: nat, mnk: nat, low: nat, high: nat, r: nat, over: nat)
    requires r + mnk * over == p * low
    ensures (low + mnk * high) * (mk * p) == mk * r + (mk * mnk) * (over + p * high)
  {
    calc {
      (low + mnk * high) * (mk * p);
      { Distribute(mk * p, low, mnk * high); }
      (mk * p) * low + (mk * p) * (mnk * high);
      { Associate(mk, p, low); Associate(mk, p, mnk * high); Swap(p, mnk, high); }
      mk * (p * low) + mk * (mnk * (p * high));
      { Distribute(mk, r, mnk * over); Associate(mk, mnk, over); Associate(mk, mnk, p * high); }
      mk * r + (mk * mnk) * over + (mk * mnk) * (p * high);
      { Distribute(mk * mnk, over, p * high); }
      mk * r + (mk * mnk) * (over + p * high);
    }
  }

  lemma LimbsBelow(a: seq<nat>, r: seq<nat>, k: nat, s: nat)
    requires s < 32 && LimbsOk(a) && ShiftedLeft(a, r, k, s)
    ensures LimbsOk(r)
  {
    forall m | 0 <= m < |r| ensures r[m] < BASE {
      if m >= k {
        LimbSplit(a[m - k], s);
        if m > k { LimbSplit(a[m - k - 1], s); }
      }
    }
  }

  // ---------- shifting right ----------

  /** Limb m of a number shifted right by k limbs and s bits. */
  function ShrLimb(a: seq<nat>, k: nat, s: nat, m: nat): nat
    requires s < 32
  {
    if m + k >= |a| then 0
    else Hi(a[m + k], 32 - s) + (if m + k + 1 < |a| then Lo(a[m + k + 1], 32 - s) else 0)
  }

  predicate ShiftedRight(a: seq<nat>, r: seq<nat>, k: nat, s: nat)
    requires s < 32
  {
    |r| == |a| && forall m :: 0 <= m < |a| ==> r[m] == ShrLimb(a, k, s, m)
  }

  /** A number shifted left by at most a limb, with room for the limb that leaves it. */
  function LeftAll(a: seq<nat>, u: nat): (l: seq<nat>)
    requires u <= 32
    ensures |l| == |a| + 1
  {
    seq(|a| + 1, m requires 0 <= m <= |a| => LeftLimb(a, u, m))
  }

  function LeftLimb(a: seq<nat>, u: nat, m: nat): nat
    requires u <= 32 && m <= |a|
  {
    var low: nat := if m < |a| then Lo(a[m], u) else 0;
    var high: nat := if m > 0 then Hi(a[m - 1], u) else 0;
    low + high
  }

  lemma LeftAllParts(a: seq<nat>, u: nat, low: seq<nat>)
    requires u <= 32 && a != [] && low == LeftAll(a, u)[..|a|]
    ensures ShiftedUp(Los(a, u), His(a, u), low, 0) && LeftAll(a, u) == low + [His(a, u)[|a| - 1]]
  {
    hide Lo, Hi;
  }

  lemma LeftAllValue(a: seq<nat>, u: nat)
    requires u <= 32 && LimbsOk(a) && a != []
    ensures V(LeftAll(a, u)) == Pow(2, u) * V(a)
  {
    hide Value, Pow, LeftAll, Los, His, Split, ShiftedUp;
    var low, lo, hi := LeftAll(a, u)[..|a|], Los(a, u), His(a, u);
    LimbsSplit(a, u);
    LeftAllParts(a, u, low);
    ShiftedUpValue(a, lo, hi, low, Pow(2, u), 0);
    ValueAppend(BASE, low, hi[|a| - 1]);
  }

  lemma LeftAllLimbs(a: seq<nat>, u: nat)
    requires u <= 32 && LimbsOk(a)
    ensures LimbsOk(LeftAll(a, u))
  {
    ProductIsBase(u);
    MulMonotone(1, Pow(2, 32 - u), Pow(2, u));
    forall m | 0 <= m <= |a| ensures LeftAll(a, u)[m] < BASE {
      if m < |a| { LimbSplit(a[m], u); }
      if m > 0 { LimbSplit(a[m - 1], u); }
    }
  }

  lemma DivideBoth(u: nat, v: nat, f: nat, low: nat, q: nat)
    requires u > 0 && f > 0 && u * v == low + (u * f) * q && low < u * f
    ensures v / f == q
  {
    DivMod(v, f);
    var d, r := v / f, v % f;
    assert u * v == (u * f) * d + u * r by {
      Distribute(u, f * d, r);
      Associate(u, f, d);
    }
    MulMonotone(r + 1, f, u);
    Distribute(u, r, 1);
    QuotientIs(u * v, u * f, d, u * r);
    QuotientIs(u * v, u * f, q, low);
  }

  lemma RightParts(a: seq<nat>, r: seq<nat>, k: nat, s: nat)
    requires s < 32 && LimbsOk(a) && ShiftedRight(a, r, k, s) && k < |a|
    ensures var l := LeftAll(a, 32 - s); V(l) == V(l[..k + 1]) + Modulus(k + 1) * V(r)
  {
    hide Value, Pow, Lo, Hi;
    var l := LeftAll(a, 32 - s);
    assert l == l[..k + 1] + l[k + 1..];
    ValueConcat(BASE, l[..k + 1], l[k + 1..]);
    assert r == l[k + 1..] + r[|a| - k..] by {
      forall m | 0 <= m < |a| - k ensures r[m] == l[m + k + 1] { assert r[m] == ShrLimb(a, k, s, m); }
      assert r[..|a| - k] == l[k + 1..];
    }
    ValueConcat(BASE, l[k + 1..], r[|a| - k..]);
    ValueZeros(BASE, r[|a| - k..]);
  }

  /** A right shift divides by a power of two. */
  lemma ShiftRightValue(a: seq<nat>, r: seq<nat>, k: nat, s: nat)
    requires s < 32 && LimbsOk(a) && ShiftedRight(a, r, k, s)
    ensures V(r) == V(a) / Pow(2, 32 * k + s)
  {
    hide Value, Pow;
    var f := Pow(2, 32 * k + s);
    if k >= |a| {
      ValueZeros(BASE, r);
      ValueBelow(BASE, a);
      ModulusIsPower(|a|);
      PowMonotone(2, 32 * |a|, 32 * k + s);
      QuotientIs(V(a), f, 0, V(a));
    } else {
      var u, l := Pow(2, 32 - s), LeftAll(a, 32 - s);
      RightParts(a, r, k, s);
      LeftAllValue(a, 32 - s);
      LeftAllLimbs(a, 32 - s);
      ValueBelow(BASE, l[..k + 1]);
      ModulusIsPower(k + 1);
      PowAdd(2, 32 - s, 32 * k + s);
      DivideBoth(u, V(a), f, V(l[..k + 1]), V(r));
    }
  }

  lemma RightLimbs(a: seq<nat>, r: seq<nat>, k: nat, s: nat)
    requires s < 32 && LimbsOk(a) && ShiftedRight(a, r, k, s)
    ensures LimbsOk(r)
  {
    ProductIsBase(32 - s);
    MulMonotone(1, Pow(2, s), Pow(2, 32 - s));
    forall m | 0 <= m < |r| ensures r[m] < BASE {
      if m + k < |a| {
        LimbSplit(a[m + k], 32 - s);
        if m + k + 1 < |a| { LimbSplit(a[m + k + 1], 32 - s); }
      }
    }
  }
}
