/** Powers, and numbers written as little-endian digit sequences in any base. */
module Digits {
  import opened Division

  function Pow(b: nat, n: nat): (r: nat)
    ensures b > 0 ==> r > 0
    decreases n
  {
    if n == 0 then 1 else
    var p := Pow(b, n - 1);
    MulPositive(b, p);
    b * p
  }

  lemma MulPositive(a: nat, b: nat)
    ensures a * b >= 0 && (a > 0 && b > 0 ==> a * b > 0)
  {
  }

  lemma MulMonotone(a: nat, b: nat, c: nat)
    requires a <= b
    ensures a * c <= b * c && c * a <= c * b
  {
    assert (b - a) * c >= 0;
  }

  lemma {:induction false} PowAdd(b: nat, m: nat, n: nat)
    ensures Pow(b, m + n) == Pow(b, m) * Pow(b, n)
    decreases m
  {
    if m > 0 {
      PowAdd(b, m - 1, n);
      Associate(b, Pow(b, m - 1), Pow(b, n));
    }
  }

  lemma {:induction false} PowMul(b: nat, m: nat, n: nat)
    ensures Pow(b, m * n) == Pow(Pow(b, m), n)
    decreases n
  {
    if n > 0 {
      PowMul(b, m, n - 1);
      assert m * n == m + m * (n - 1);
      PowAdd(b, m, m * (n - 1));
    }
  }

  lemma {:induction false} PowMonotone(b: nat, m: nat, n: nat)
    requires b > 0 && m <= n
    ensures Pow(b, m) <= Pow(b, n)
    decreases n
  {
    if m < n {
      PowMonotone(b, m, n - 1);
      MulMonotone(1, b, Pow(b, n - 1));
    }
  }

  /** The number a digit sequence stands for, least significant digit first. */
  function Value(b: nat, s: seq<nat>): nat {
    if s == [] then 0 else s[0] + b * Value(b, s[1..])
  }

  predicate AreDigits(b: nat, s: seq<nat>) { forall i :: 0 <= i < |s| ==> s[i] < b }

  lemma {:induction false} ValueConcat(b: nat, s: seq<nat>, t: seq<nat>)
    ensures Value(b, s + t) == Value(b, s) + Pow(b, |s|) * Value(b, t)
  {
    if s == [] {
      assert s + t == t;
    } else {
      assert (s + t)[1..] == s[1..] + t;
      ValueConcat(b, s[1..], t);
      var v, p, w := Value(b, s[1..]), Pow(b, |s| - 1), Value(b, t);
      Distribute(b, v, p * w);
      Associate(b, p, w);
    }
  }

  lemma ValueAppend(b: nat, s: seq<nat>, x: nat)
    ensures Value(b, s + [x]) == Value(b, s) + Pow(b, |s|) * x
  {
    ValueConcat(b, s, [x]);
    assert Value(b, [x]) == x + b * Value(b, []);
  }

  lemma {:induction false} ValueBelow(b: nat, s: seq<nat>)
    requires AreDigits(b, s)
    ensures Value(b, s) < Pow(b, |s|)
  {
    if s != [] {
      ValueBelow(b, s[1..]);
      MulMonotone(Value(b, s[1..]) + 1, Pow(b, |s| - 1), b);
    }
  }

  lemma {:induction false} ValueZeros(b: nat, s: seq<nat>)
    requires forall i :: 0 <= i < |s| ==> s[i] == 0
    ensures Value(b, s) == 0
  {
    if s != [] { ValueZeros(b, s[1..]); }
  }

  /** Digit sequences of one length are ordered by their values like their highest differing digits. */
  lemma ValueOrder(b: nat, s: seq<nat>, t: seq<nat>, i: nat)
    requires |s| == |t| && i < |s| && AreDigits(b, s) && AreDigits(b, t)
    requires s[i] < t[i] && s[i + 1..] == t[i + 1..]
    ensures Value(b, s) < Value(b, t)
  {
    ValueSplit(b, s, i);
    ValueSplit(b, t, i);
    ValueBelow(b, s[..i]);
    var p, h := Pow(b, i), b * Value(b, s[i + 1..]);
    MulMonotone(s[i] + h + 1, t[i] + h, p);
    Distribute(p, s[i] + h, 1);
  }

  lemma ValueSplit(b: nat, s: seq<nat>, i: nat)
    requires i < |s|
    ensures Value(b, s) == Value(b, s[..i]) + Pow(b, i) * (s[i] + b * Value(b, s[i + 1..]))
  {
    assert s == s[..i] + s[i..];
    ValueConcat(b, s[..i], s[i..]);
    assert s[i..][1..] == s[i + 1..];
  }
}
