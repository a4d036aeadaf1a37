/** Facts about products, quotients and remainders. */
module Division {
  lemma MulAtLeast(k: int, e: int)
    requires e > 0
    ensures (k >= 1 ==> k * e >= e) && (k <= -1 ==> k * e <= -e)
  {
    if k >= 1 { assert (k - 1) * e >= 0; } else if k <= -1 { assert (-1 - k) * e >= 0; }
  }

  lemma QuotientIs(n: int, e: int, q: int, r: int)
    requires 0 <= r < e && n == q * e + r
    ensures n / e == q && n % e == r
  {
    var d := n / e - q;
    assert n == (n / e) * e + n % e;
    assert d * e == r - n % e;
    MulAtLeast(d, e);
  }

  lemma Associate(a: int, b: int, c: int)
    ensures a * (b * c) == (a * b) * c
  {
  }

  lemma Distribute(a: int, b: int, c: int)
    ensures a * (b + c) == a * b + a * c
  {
  }

  lemma DivMod(x: nat, q: nat)
    requires q > 0
    ensures x / q >= 0 && 0 <= x % q < q && x == q * (x / q) + x % q
  {
  }
}
