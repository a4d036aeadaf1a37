/** Arithmetic on sequences of 32-bit limbs: how carries, borrows and shifts act on the number they stand for. */
module Limbs {
  import opened Division
  import opened Digits

  const BASE := 0x1_0000_0000

  function V(s: seq<nat>): nat { Value(BASE, s) }

  predicate LimbsOk(s: seq<nat>) { AreDigits(BASE, s) }

  /** One more than the largest number n limbs can hold. */
  function Modulus(n: nat): (m: nat)
    ensures m > 0
  {
    Pow(BASE, n)
  }

  /** A number that overflows a limb leaves its low part in place and carries the rest. */
  lemma CarryMoves(p: nat, n: nat, low: nat, carry: nat)
    requires n == low + BASE * carry
    ensures p * n == p * low + (BASE * p) * carry
  {
    Distribute(p, low, BASE * carry);
    Associate(p, BASE, carry);
  }

  /** A sum of limbs one place further. */
  lemma AddStep(r: seq<nat>, a: seq<nat>, b: seq<nat>, carry: nat, x: nat, y: nat, low: nat, carry': nat)
    requires |r| == |a| == |b| && V(r) + Modulus(|r|) * carry == V(a) + V(b)
    requires carry + x + y == low + BASE * carry'
    ensures V(r + [low]) + Modulus(|r| + 1) * carry' == V(a + [x]) + V(b + [y])
  {
    var p := Modulus(|r|);
    ValueAppend(BASE, r, low);
    ValueAppend(BASE, a, x);
    ValueAppend(BASE, b, y);
    CarryMoves(p, carry + x + y, low, carry');
    Distribute(p, carry + x, y);
    Distribute(p, carry, x);
  }

  /** A product with one limb, added to a number, one place further. */
  lemma MulStep(r: seq<nat>, a: seq<nat>, b: seq<nat>, carry: nat, k: nat, x: nat, y: nat, low: nat, carry': nat)
    requires |r| == |a| == |b| && V(r) + Modulus(|r|) * carry == V(a) + k * V(b)
    requires carry + x + k * y == low + BASE * carry'
    ensures V(r + [low]) + Modulus(|r| + 1) * carry' == V(a + [x]) + k * V(b + [y])
  {
    var p := Modulus(|r|);
    ValueAppend(BASE, r, low);
    ValueAppend(BASE, a, x);
    ValueAppend(BASE, b, y);
    CarryMoves(p, carry + x + k * y, low, carry');
    Distribute(p, carry + x, k * y);
    Distribute(p, carry, x);
    Distribute(k, V(b), p * y);
    Swap(k, p, y);
  }

  /** A product with one limb, one place further. */
  lemma ScaleStep(r: seq<nat>, b: seq<nat>, carry: nat, k: nat, y: nat, low: nat, carry': nat)
    requires |r| == |b| && V(r) + Modulus(|r|) * carry == k * V(b)
    requires carry + k * y == low + BASE * carry'
    ensures V(r + [low]) + Modulus(|r| + 1) * carry' == k * V(b + [y])
  {
    var p := Modulus(|r|);
    ValueAppend(BASE, r, low);
    ValueAppend(BASE, b, y);
    CarryMoves(p, carry + k * y, low, carry');
    Distribute(p, carry, k * y);
    Distribute(k, V(b), p * y);
    Swap(k, p, y);
  }

  lemma SplitValue(s: seq<nat>, j: nat)
    requires j <= |s|
    ensures V(s) == V(s[..j]) + Modulus(j) * V(s[j..])
  {
    assert s == s[..j] + s[j..];
    ValueConcat(BASE, s[..j], s[j..]);
  }

  lemma Swap(k: int, p: int, y: int)
    ensures k * (p * y) == p * (k * y)
  {
    Associate(k, p, y);
    Associate(p, k, y);
  }

  /** Flipping all bits subtracts from the largest number. */
  lemma {:induction false} Complemented(s: seq<nat>, t: seq<nat>)
    requires |s| == |t| && LimbsOk(s) && forall i :: 0 <= i < |s| ==> t[i] == BASE - 1 - s[i]
    ensures LimbsOk(t) && V(s) + V(t) == Modulus(|s|) - 1
  {
    if s != [] { Complemented(s[1..], t[1..]); }
  }

  /** Adding one turns a run of largest limbs to zeros and raises the next limb. */
  lemma {:induction false} Incremented(s: seq<nat>, t: seq<nat>, k: nat)
    requires |s| == |t| && k <= |s|
    requires forall i :: 0 <= i < k ==> s[i] == BASE - 1 && t[i] == 0
    requires k < |s| ==> t[k] == s[k] + 1
    requires forall i :: k < i < |s| ==> t[i] == s[i]
    ensures V(t) == V(s) + 1 - (if k == |s| then Modulus(|s|) else 0)
  {
    if k > 0 {
      Incremented(s[1..], t[1..], k - 1);
    } else if s != [] {
      assert s[1..] == t[1..];
    }
  }

  /** The product of a number with the first limbs of another, when the rows so far overflowed `over` times. */
  lemma RowAdded(n: nat, j: nat, acc: nat, low: nat, high: nat, acc': nat, high': nat, carry: nat,
                 k: nat, b: nat, bLow: nat, bHigh: nat, m: nat, over: nat)
    requires j <= n
    requires acc == low + Modulus(j) * high && acc' == low + Modulus(j) * high'
    requires high' + Modulus(n - j) * carry == high + k * bLow
    requires b == bLow + Modulus(n - j) * bHigh
    requires acc + Modulus(n) * over == m * b
    ensures acc' + Modulus(n) * (over + carry + k * bHigh) == (m + Modulus(j) * k) * b
  {
    var p, q := Modulus(j), Modulus(n - j);
    PowAdd(BASE, j, n - j);
    calc {
      p * high' + Modulus(n) * carry + Modulus(n) * (k * bHigh);
      { Associate(p, q, carry); Associate(p, q, k * bHigh); }
      p * high' + p * (q * carry) + p * (q * (k * bHigh));
      { Distribute(p, high', q * carry); Distribute(p, high' + q * carry, q * (k * bHigh)); }
      p * (high' + q * carry + q * (k * bHigh));
      { Swap(k, q, bHigh); Distribute(k, bLow, q * bHigh); }
      p * (high + k * b);
      { Distribute(p, high, k * b); Associate(p, k, b); }
      p * high + (p * k) * b;
    }
    Distribute(Modulus(n), over + carry, k * bHigh);
    Distribute(Modulus(n), over, carry);
    Distribute(b, m, p * k);
  }

  /** One row of a product: the accumulator after k = x[j] times y has been added from limb j on. */
  lemma RowDone(a: seq<nat>, a': seq<nat>, x: seq<nat>, y: seq<nat>, j: nat, carry: nat, over: nat) returns (over': nat)
    requires |a| == |a'| == |x| == |y| && j < |a| && a'[..j] == a[..j]
    requires V(a'[j..]) + Modulus(|a| - j) * carry == V(a[j..]) + x[j] * V(y[..|a| - j])
    requires V(a) + Modulus(|a|) * over == V(x[..j]) * V(y)
    ensures V(a') + Modulus(|a|) * over' == V(x[..j + 1]) * V(y)
  {
    var n := |a|;
    SplitValue(a, j);
    SplitValue(a', j);
    SplitValue(y, n - j);
    assert x[..j + 1] == x[..j] + [x[j]];
    ValueAppend(BASE, x[..j], x[j]);
    RowAdded(n, j, V(a), V(a[..j]), V(a[j..]), V(a'), V(a'[j..]), carry,
             x[j], V(y), V(y[..n - j]), V(y[n - j..]), V(x[..j]), over);
    MulPositive(x[j], V(y[n - j..]));
    over' := over + carry + x[j] * V(y[n - j..]);
  }
}
