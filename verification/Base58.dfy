/** Base 58 text for byte strings. */
module Base58 {
  import opened Basics
  import opened Division
  import opened Digits

  // ---------- room for the digits ----------

  lemma {:induction false} PowStrict(x: nat, y: nat, m: nat)
    requires x < y && m > 0
    ensures Pow(x, m) < Pow(y, m)
    decreases m
  {
    if m == 1 {
      assert Pow(x, 1) == x * Pow(x, 0) == x && Pow(y, 1) == y * Pow(y, 0) == y;
    } else {
      PowStrict(x, y, m - 1);
      var p, q := Pow(x, m - 1), Pow(y, m - 1);
      MulMonotone(x, y, p);
      MulMonotone(p + 1, q, y);
      Distribute(y, p, 1);
    }
  }

  lemma {:induction false} PowWeak(x: nat, y: nat, m: nat)
    requires x <= y
    ensures Pow(x, m) <= Pow(y, m)
    decreases m
  {
    if m > 0 {
      PowWeak(x, y, m - 1);
      MulMonotone(x, y, Pow(x, m - 1));
      MulMonotone(Pow(x, m - 1), Pow(y, m - 1), y);
    }
  }

  lemma Root(x: nat, y: nat, m: nat)
    requires m > 0 && Pow(x, m) <= Pow(y, m)
    ensures x <= y
  {
    if x > y { PowStrict(y, x, m); }
  }

  lemma PowSwap(a: nat, m: nat, n: nat)
    ensures Pow(Pow(a, m), n) == Pow(Pow(a, n), m) == Pow(a, m * n)
  {
    PowMul(a, m, n);
    PowMul(a, n, m);
    assert m * n == n * m;
  }

  lemma PowersOrdered(b: nat, p: nat, n: nat, k: nat, q: nat, u: nat, w: nat)
    requires b > 0 && u == p * n && w == k * q && u <= w
    ensures Pow(Pow(b, p), n) <= Pow(Pow(b, k), q)
  {
    PowMul(b, p, n);
    PowMul(b, k, q);
    PowMonotone(b, u, w);
  }

  /** If q digits of one base fit in p digits of another, then n digits fit in k whenever k/n is at least p/q. */
  lemma DigitsFit(a: nat, b: nat, q: nat, p: nat, n: nat, k: nat)
    requires b > 0 && q > 0 && Pow(a, q) <= Pow(b, p) && p * n <= k * q
    ensures Pow(a, n) <= Pow(b, k)
  {
    var x, y, c, d := Pow(a, n), Pow(b, k), Pow(a, q), Pow(b, p);
    assert Pow(c, n) <= Pow(d, n) by { PowWeak(c, d, n); }
    assert Pow(c, n) == Pow(x, q) by { PowSwap(a, q, n); }
    assert Pow(d, n) <= Pow(y, q) by { MulPositive(p, n); PowersOrdered(b, p, n, k, q, p * n, k * q); }
    Root(x, y, q);
  }

  lemma Bytes8()
    ensures Pow(256, 8) <= Pow(58, 11)
  {
  }

  lemma Square(x: nat, a: nat, y: nat)
    requires x <= a * y
    ensures x * x <= (a * a) * (y * y)
  {
    MulMonotone(x, a * y, x);
    MulMonotone(x, a * y, a * y);
    Associate(a * y, a, y);
    Associate(a, y, a);
    Associate(a, a, y * y);
    Associate(a, y, y);
  }

  lemma Digits16()
    ensures Pow(58, 16) <= 53 * Pow(256, 11)
  {
    assert Pow(58, 8) == 128063081718016;
    assert Pow(256, 8) == 0x1_0000_0000_0000_0000 && Pow(256, 3) == 0x100_0000;
    PowAdd(58, 8, 8);
    PowAdd(256, 8, 3);
  }

  lemma Digits71()
    ensures Pow(58, 71) <= Pow(256, 52)
  {
    Digits16();
    assert Pow(58, 7) == 2207984167552 && Pow(256, 8) == 0x1_0000_0000_0000_0000;
    Square(Pow(58, 16), 53, Pow(256, 11));
    PowAdd(58, 16, 16);
    PowAdd(256, 11, 11);
    Square(Pow(58, 32), 2809, Pow(256, 22));
    PowAdd(58, 32, 32);
    PowAdd(256, 22, 22);
    PowAdd(58, 64, 7);
    PowAdd(256, 44, 8);
    MulMonotone(Pow(58, 64), 7890481 * Pow(256, 44), 2207984167552);
  }

  /** The buffer of the encoder holds any number of n bytes. */
  lemma EncoderRoom(n: nat)
    ensures Pow(256, n) <= Pow(58, n * 138 / 100 + 1)
  {
    Bytes8();
    DigitsFit(256, 58, 8, 11, n, n * 138 / 100 + 1);
  }

  /** The buffer of the decoder holds any number of n digits. */
  lemma DecoderRoom(n: nat)
    ensures Pow(58, n) <= Pow(256, n * 733 / 1000 + 1)
  {
    Digits71();
    DigitsFit(58, 256, 71, 52, n, n * 733 / 1000 + 1);
  }

  // ---------- numbers and digits ----------

  /** The number a digit sequence stands for, most significant digit first. */
  function BigEndian(b: nat, s: seq<nat>): nat {
    if s == [] then 0 else b * BigEndian(b, s[..|s| - 1]) + s[|s| - 1]
  }

  /** The digits of a number, least significant first, without zeros at the high end. */
  function ToDigits(b: nat, n: nat): (s: seq<nat>)
    requires b > 1
    ensures AreDigits(b, s) && (s != [] ==> s[|s| - 1] != 0)
    decreases n
  {
    if n == 0 then [] else
    DivideShrinks(n, b);
    var s := ToDigits(b, n / b);
    DivMod(n, b);
    assert s == [] ==> n / b == 0;
    [n % b] + s
  }

  lemma DivideShrinks(n: nat, b: nat)
    requires b > 1 && n > 0
    ensures 0 <= n / b < n
  {
    DivMod(n, b);
    MulMonotone(2, b, n / b);
  }

  lemma {:induction false} DigitsValue(b: nat, n: nat)
    requires b > 1
    ensures Value(b, ToDigits(b, n)) == n
    decreases n
  {
    if n > 0 {
      DivideShrinks(n, b);
      DigitsValue(b, n / b);
      DivMod(n, b);
      assert ToDigits(b, n)[1..] == ToDigits(b, n / b);
    }
  }

  /** Digits without zeros at the high end are those of the number they stand for. */
  lemma {:induction false} ValueDigits(b: nat, s: seq<nat>)
    requires b > 1 && AreDigits(b, s) && (s != [] ==> s[|s| - 1] != 0)
    ensures ToDigits(b, Value(b, s)) == s
  {
    if s != [] {
      var v := Value(b, s[1..]);
      QuotientIs(s[0] + b * v, b, v, s[0]);
      ValueDigits(b, s[1..]);
      if |s| > 1 { ValuePositive(b, s[1..]); MulPositive(b, v); }
      assert s == [s[0]] + s[1..];
    }
  }

  lemma {:induction false} ValuePositive(b: nat, s: seq<nat>)
    requires b > 0 && s != [] && s[|s| - 1] != 0
    ensures Value(b, s) > 0
  {
    if |s| > 1 {
      ValuePositive(b, s[1..]);
      MulPositive(b, Value(b, s[1..]));
    }
  }

  lemma {:induction false} BigEndianReversed(b: nat, s: seq<nat>)
    ensures BigEndian(b, Reverse(s)) == Value(b, s)
  {
    if s != [] {
      BigEndianReversed(b, s[1..]);
      var r := Reverse(s);
      assert r[..|r| - 1] == Reverse(s[1..]) && r[|r| - 1] == s[0];
    }
  }

  lemma {:induction false} BigEndianZeros(b: nat, z: nat, s: seq<nat>)
    ensures BigEndian(b, Zeros(z) + s) == BigEndian(b, s)
    decreases |s| + z
  {
    var t := Zeros(z) + s;
    if s != [] {
      assert t[..|t| - 1] == Zeros(z) + s[..|s| - 1];
      BigEndianZeros(b, z, s[..|s| - 1]);
    } else if z > 0 {
      assert t[..|t| - 1] == Zeros(z - 1) + s;
      BigEndianZeros(b, z - 1, s);
    }
  }

  lemma ReverseTwice<T>(s: seq<T>)
    ensures Reverse(Reverse(s)) == s
  {
  }

  lemma {:induction false} BigEndianPrepend(b: nat, x: nat, s: seq<nat>)
    ensures BigEndian(b, [x] + s) == Pow(b, |s|) * x + BigEndian(b, s)
  {
    var t := [x] + s;
    if s == [] {
      assert t[..0] == [];
      assert BigEndian(b, t) == b * BigEndian(b, t[..0]) + x;
    } else {
      assert t[..|t| - 1] == [x] + s[..|s| - 1];
      BigEndianPrepend(b, x, s[..|s| - 1]);
      var p, v := Pow(b, |s| - 1), BigEndian(b, s[..|s| - 1]);
      Distribute(b, p * x, v);
      Associate(b, p, x);
    }
  }

  lemma {:induction false} BigEndianBelow(b: nat, s: seq<nat>)
    requires b > 0 && AreDigits(b, s)
    ensures BigEndian(b, s) < Pow(b, |s|)
  {
    if s != [] {
      var v, p := BigEndian(b, s[..|s| - 1]), Pow(b, |s| - 1);
      BigEndianBelow(b, s[..|s| - 1]);
      MulMonotone(v + 1, p, b);
      Distribute(b, v, 1);
    }
  }
}
