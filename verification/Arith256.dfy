/** Fixed-width unsigned integers in 32-bit limbs. */
module Arith256 {
  import opened Division
  import opened Digits
  import opened Limbs
  import opened LimbShifts

  /** A row of a product so far: limbs r and a carry for a number a and k times a number b. */
  ghost predicate Row(r: seq<nat>, a: seq<nat>, b: seq<nat>, carry: nat, k: nat) {
    |r| == |a| == |b| && V(r) + Modulus(|r|) * carry == V(a) + k * V(b)
  }

  lemma RowStart(k: nat)
    ensures Row([], [], [], 0, k)
  {
    ValueZeros(BASE, []);
  }

  /** One step of a row; what it adds up fits in 64 bits. */
  function RowTerm(carry: nat, x: nat, k: nat, y: nat): (n: nat)
    requires carry < BASE && x < BASE && k < BASE && y < BASE
    ensures n < BASE * BASE && n % BASE < BASE && n / BASE < BASE
  {
    LimbProduct(k, y);
    carry + x + k * y
  }

  lemma RowStep(r: seq<nat>, a: seq<nat>, b: seq<nat>, carry: nat, k: nat, x: nat, y: nat)
    requires Row(r, a, b, carry, k) && carry < BASE && x < BASE && k < BASE && y < BASE
    ensures var n := RowTerm(carry, x, k, y); Row(r + [n % BASE], a + [x], b + [y], n / BASE, k)
  {
    hide V, Modulus;
    var n := RowTerm(carry, x, k, y);
    DivMod(n, BASE);
    MulStep(r, a, b, carry, k, x, y, n % BASE, n / BASE);
  }

  lemma RowEnd(r: seq<nat>, a: seq<nat>, b: seq<nat>, carry: nat, k: nat)
    requires Row(r, a, b, carry, k)
    ensures V(r) + Modulus(|r|) * carry == V(a) + k * V(b)
  {
  }

  class BaseUint {
    const WIDTH: nat
    /** The limbs, least significant first. */
    const pn: array<nat>

    ghost predicate Valid()
      reads pn
    {
      pn.Length == WIDTH >= 2 && LimbsOk(pn[..])
    }

    ghost function Val(): nat
      reads pn
    {
      V(pn[..])
    }

    constructor (width: nat, b: nat)
      requires width >= 2 && b < BASE * BASE
      ensures Valid() && WIDTH == width && fresh(pn) && Val() == b
    {
      WIDTH := width;
      pn := new nat[width];
      new;
      Assign(b);
    }

    constructor Copy(b: BaseUint)
      requires b.Valid()
      ensures Valid() && WIDTH == b.WIDTH && fresh(pn) && pn[..] == b.pn[..]
    {
      WIDTH := b.WIDTH;
      pn := new nat[b.WIDTH];
      new;
      CopyFrom(b);
    }

    /** Assignment from a 64-bit number. */
    method Assign(b: nat)
      requires pn.Length == WIDTH >= 2 && b < BASE * BASE
      modifies pn
      ensures Valid() && Val() == b
    {
      pn[0] := b % BASE;
      pn[1] := b / BASE;
      for i := 2 to WIDTH
        invariant pn[0] == b % BASE && pn[1] == b / BASE && forall j :: 2 <= j < i ==> pn[j] == 0
      {
        pn[i] := 0;
      }
      ValueZeros(BASE, pn[2..]);
      assert pn[..] == [b % BASE, b / BASE] + pn[2..];
      ValueConcat(BASE, [b % BASE, b / BASE], pn[2..]);
    }

    method CopyFrom(b: BaseUint)
      requires b.Valid() && pn.Length == WIDTH == b.WIDTH
      modifies pn
      ensures Valid() && pn[..] == old(b.pn[..])
    {
      for i := 0 to WIDTH
        invariant pn[..i] == old(b.pn[..i])
        invariant b.pn[i..] == old(b.pn[i..])
      {
        pn[i] := b.pn[i];
      }
    }

    method Complement() returns (ret: BaseUint)
      requires Valid()
      ensures ret.Valid() && fresh(ret) && fresh(ret.pn) && ret.WIDTH == WIDTH
      ensures ret.Val() == Modulus(WIDTH) - 1 - Val()
    {
      ret := new BaseUint(WIDTH, 0);
      for i := 0 to WIDTH
        invariant pn[..] == old(pn[..]) && forall j :: 0 <= j < i ==> ret.pn[j] == BASE - 1 - pn[j]
      {
        ret.pn[i] := BASE - 1 - pn[i];
      }
      Complemented(pn[..], ret.pn[..]);
    }

    method Increment()
      requires Valid()
      modifies pn
      ensures Valid() && Val() == (old(Val()) + 1) % Modulus(WIDTH)
    {
      var i := 0;
      ghost var a := pn[..];
      var carry := true;
      while i < WIDTH && carry
        invariant 0 <= i <= WIDTH && LimbsOk(pn[..])
        invariant carry ==> forall j :: 0 <= j < i ==> a[j] == BASE - 1 && pn[j] == 0
        invariant carry ==> forall j :: i <= j < WIDTH ==> pn[j] == a[j]
        invariant !carry ==> i < WIDTH && V(pn[..]) == V(a) + 1
        decreases WIDTH - i, carry
      {
        pn[i] := (pn[i] + 1) % BASE;
        carry := pn[i] == 0;
        if carry { i := i + 1; } else { Incremented(a, pn[..], i); }
      }
      ghost var v := V(pn[..]);
      ValueBelow(BASE, pn[..]);
      if carry {
        Incremented(a, pn[..], WIDTH);
        ValueZeros(BASE, pn[..]);
      }
      QuotientIs(V(a) + 1, Modulus(WIDTH), if carry then 1 else 0, v);
    }

    method Add(b: BaseUint)
      requires Valid() && b.Valid() && b.WIDTH == WIDTH
      modifies pn
      ensures Valid() && Val() == (old(Val()) + old(b.Val())) % Modulus(WIDTH)
    {
      ghost var x, y := pn[..], b.pn[..];
      var carry := 0;
      for i := 0 to WIDTH
        invariant LimbsOk(pn[..]) && 0 <= carry <= 1
        invariant pn[i..] == x[i..] && b.pn[i..] == y[i..]
        invariant V(pn[..i]) + Modulus(i) * carry == V(x[..i]) + V(y[..i])
      {
        var n := carry + pn[i] + b.pn[i];
        assert pn[i] == x[i] && b.pn[i] == y[i];
        AddStep(pn[..i], x[..i], y[..i], carry, x[i], y[i], n % BASE, n / BASE);
        assert x[..i + 1] == x[..i] + [x[i]] && y[..i + 1] == y[..i] + [y[i]];
        pn[i] := n % BASE;
        carry := n / BASE;
        assert pn[..i + 1] == pn[..i] + [n % BASE];
      }
      assert pn[..WIDTH] == pn[..] && x[..WIDTH] == x && y[..WIDTH] == y;
      ValueBelow(BASE, pn[..]);
      QuotientIs(V(x) + V(y), Modulus(WIDTH), carry, V(pn[..]));
    }

    method Negate() returns (ret: BaseUint)
      requires Valid()
      ensures ret.Valid() && fresh(ret) && fresh(ret.pn) && ret.WIDTH == WIDTH
      ensures ret.Val() == (Modulus(WIDTH) - Val()) % Modulus(WIDTH)
    {
      ret := Complement();
      ret.Increment();
    }

    method Subtract(b: BaseUint)
      requires Valid() && b.Valid() && b.WIDTH == WIDTH
      modifies pn
      ensures Valid() && Val() == (old(Val()) - old(b.Val())) % Modulus(WIDTH)
    {
      ghost var x, y, m := Val(), b.Val(), Modulus(WIDTH);
      ValueBelow(BASE, pn[..]);
      ValueBelow(BASE, b.pn[..]);
      var minus := b.Negate();
      ghost var z := minus.Val();
      Add(minus);
      Wraps(x, y, m, z, Val());
    }

    method ShiftLeft(shift: nat)
      requires Valid()
      modifies pn
      ensures Valid() && Val() == (old(Val()) * Pow(2, shift)) % Modulus(WIDTH)
    {
      var a := pn[..];
      Clear();
      var k, s := shift / 32, shift % 32;
      for i := 0 to WIDTH
        invariant forall m :: 0 <= m < WIDTH ==> pn[m] == PartialShl(a, k, s, i, m)
      {
        if i + k + 1 < WIDTH && s != 0 {
          pn[i + k + 1] := BitOr(pn[i + k + 1], Hi(a[i], s));
        }
        if i + k < WIDTH {
          pn[i + k] := BitOr(pn[i + k], Lo(a[i], s));
        }
        forall m | 0 <= m < WIDTH ensures pn[m] == PartialShl(a, k, s, i + 1, m) { ShlAdvances(a, k, s, i, m); }
      }
      assert ShiftedLeft(a, pn[..], k, s) by {
        forall m | 0 <= m < WIDTH ensures pn[m] == ShlLimb(a, k, s, m) {
          assert pn[m] == PartialShl(a, k, s, WIDTH, m);
        }
      }
      ShiftLeftValue(a, pn[..], k, s);
      assert 32 * k + s == shift;
    }

    method ShiftRight(shift: nat)
      requires Valid()
      modifies pn
      ensures Valid() && Val() == old(Val()) / Pow(2, shift)
    {
      var a := pn[..];
      Clear();
      var k, s := shift / 32, shift % 32;
      for i := 0 to WIDTH
        invariant forall m :: 0 <= m < WIDTH ==> pn[m] == PartialShr(a, k, s, i, m)
      {
        if i - k - 1 >= 0 && s != 0 {
          pn[i - k - 1] := BitOr(pn[i - k - 1], Lo(a[i], 32 - s));
        }
        if i - k >= 0 {
          pn[i - k] := BitOr(pn[i - k], Hi(a[i], 32 - s));
        }
        forall m | 0 <= m < WIDTH ensures pn[m] == PartialShr(a, k, s, i + 1, m) { ShrAdvances(a, k, s, i, m); }
      }
      assert ShiftedRight(a, pn[..], k, s);
      RightLimbs(a, pn[..], k, s);
      ShiftRightValue(a, pn[..], k, s);
      assert 32 * k + s == shift;
    }

    method Clear()
      requires pn.Length == WIDTH
      modifies pn
      ensures forall i :: 0 <= i < WIDTH ==> pn[i] == 0
    {
      for i := 0 to WIDTH
        invariant forall j :: 0 <= j < i ==> pn[j] == 0
      {
        pn[i] := 0;
      }
    }

    /** Multiplies by a 32-bit number. */
    method MultiplySmall(b32: nat)
      requires Valid() && b32 < BASE
      modifies pn
      ensures Valid() && Val() == (old(Val()) * b32) % Modulus(WIDTH)
    {
      hide Value, Pow;
      ghost var x := pn[..];
      var carry := 0;
      ValueZeros(BASE, x[..0]);
      for i := 0 to WIDTH
        invariant LimbsOk(pn[..]) && 0 <= carry < BASE && pn[i..] == x[i..]
        invariant V(pn[..i]) + Modulus(i) * carry == b32 * V(x[..i])
      {
        LimbProduct(b32, pn[i]);
        var n := carry + b32 * pn[i];
        assert n < BASE * BASE;
        assert pn[i] == x[i];
        ScaleStep(pn[..i], x[..i], carry, b32, x[i], n % BASE, n / BASE);
        assert x[..i + 1] == x[..i] + [x[i]];
        pn[i] := n % BASE;
        carry := n / BASE;
        assert pn[..i + 1] == pn[..i] + [n % BASE];
      }
      assert pn[..WIDTH] == pn[..] && x[..WIDTH] == x;
      ValueBelow(BASE, pn[..]);
      QuotientIs(V(x) * b32, Modulus(WIDTH), carry, V(pn[..]));
    }

    /** Adds k times the low limbs of b to this number from limb j on; no partial sum exceeds 64 bits. */
    method AddRow(j: nat, k: nat, b: BaseUint) returns (carry: nat)
      requires Valid() && b.Valid() && b.WIDTH == WIDTH && j < WIDTH && k < BASE && pn != b.pn
      modifies pn
      ensures Valid() && pn[..j] == old(pn[..j]) && carry < BASE
      ensures V(pn[j..]) + Modulus(WIDTH - j) * carry == old(V(pn[j..])) + k * V(b.pn[..WIDTH - j])
    {
      hide V, Modulus, Row, RowTerm;
      ghost var a, y := pn[j..], b.pn[..];
      RowStart(k);
      assert pn[j..j] == a[..0] == y[..0] == [];
      carry := 0;
      var i := 0;
      while i + j < WIDTH
        invariant i + j <= WIDTH && LimbsOk(pn[..]) && carry < BASE
        invariant b.pn[..] == y && pn[..j] == old(pn[..j]) && pn[i + j..] == a[i..]
        invariant Row(pn[j..i + j], a[..i], y[..i], carry, k)
      {
        assert pn[i + j] == a[i] && b.pn[i] == y[i];
        var n := RowTerm(carry, pn[i + j], k, b.pn[i]);
        RowStep(pn[j..i + j], a[..i], y[..i], carry, k, a[i], y[i]);
        assert a[..i + 1] == a[..i] + [a[i]] && y[..i + 1] == y[..i] + [y[i]];
        ghost var done := pn[j..i + j];
        pn[i + j] := n % BASE;
        carry := n / BASE;
        assert pn[j..i + j + 1] == done + [n % BASE];
        i := i + 1;
      }
      assert pn[j..i + j] == pn[j..] && a[..i] == a;
      RowEnd(pn[j..], a, y[..i], carry, k);
    }

    method Multiply(b: BaseUint)
      requires Valid() && b.Valid() && b.WIDTH == WIDTH
      modifies pn
      ensures Valid() && Val() == (old(Val()) * old(b.Val())) % Modulus(WIDTH)
    {
      var a := new BaseUint(WIDTH, 0);
      ghost var x, y := pn[..], b.pn[..];
      ghost var over := 0;
      for j := 0 to WIDTH
        invariant a.Valid() && pn[..] == x && b.pn[..] == y && over >= 0
        invariant a.Val() + Modulus(WIDTH) * over == V(x[..j]) * V(y)
      {
        ghost var before := a.pn[..];
        assert before[j..] == a.pn[j..];
        var carry := a.AddRow(j, pn[j], b);
        assert a.pn[..][j..] == a.pn[j..] && a.pn[..][..j] == before[..j] && b.pn[..WIDTH - j] == y[..WIDTH - j];
        over := RowDone(before, a.pn[..], x, y, j, carry, over);
      }
      assert x[..WIDTH] == x;
      ValueBelow(BASE, a.pn[..]);
      QuotientIs(V(x) * V(y), Modulus(WIDTH), over, a.Val());
      CopyFrom(a);
    }

    /** The number of bits: zero for zero, else one more than the position of the highest one bit. */
    method Bits() returns (r: nat)
      requires Valid()
      ensures Val() < Pow(2, r) && (r == 0 <==> Val() == 0) && (r > 0 ==> Pow(2, r - 1) <= Val())
    {
      var pos := WIDTH;
      while pos > 0
        invariant 0 <= pos <= WIDTH && forall i :: pos <= i < WIDTH ==> pn[i] == 0
      {
        pos := pos - 1;
        if pn[pos] != 0 {
          var nbits := 31;
          Pow32();
          while nbits > 0
            invariant 0 <= nbits <= 31 && pn[pos] < Pow(2, nbits + 1)
          {
            if (pn[pos] / Pow(2, nbits)) % 2 == 1 {
              TopBit(pn[pos], nbits);
              LimbTop(pn[..], pos, nbits);
              return 32 * pos + nbits + 1;
            }
            TopBit(pn[pos], nbits);
            nbits := nbits - 1;
          }
          LimbTop(pn[..], pos, 0);
          return 32 * pos + 1;
        }
      }
      ValueZeros(BASE, pn[..]);
      return 0;
    }

    /** Division by shifting and subtracting; division by zero throws after the number has been cleared. */
    method Divide(b: BaseUint) returns (threw: bool, ghost rest: nat)
      requires Valid() && b.Valid() && b.WIDTH == WIDTH
      modifies pn
      ensures Valid() && (threw <==> old(b.Val()) == 0) && (threw ==> Val() == 0)
      ensures !threw ==> Val() == old(Val()) / old(b.Val()) && rest == old(Val()) % old(b.Val())
    {
      hide Pow, Value;
      threw, rest := false, 0;
      ghost var n, d := Val(), b.Val();
      var div := new BaseUint.Copy(b);
      var num := new BaseUint.Copy(this);
      Assign(0);
      var numBits := num.Bits();
      var divBits := div.Bits();
      if divBits == 0 { return true, 0; }
      if divBits > numBits {
        PowMonotone(2, numBits, divBits - 1);
        QuotientIs(n, d, 0, n);
        rest := n;
        return;
      }
      ValueBelow(BASE, num.pn[..]);
      Aligned(n, d, numBits, divBits, WIDTH);
      var shift := numBits - divBits;
      div.ShiftLeft(shift);
      QuotientIs(d * Pow(2, shift), Modulus(WIDTH), 0, d * Pow(2, shift));
      rest := LongDivision(num, div, shift, n, d);
    }

    /** The loop of the division: the quotient grows bit by bit while the divisor shifts back. */
    method LongDivision(num: BaseUint, div: BaseUint, start: nat, ghost n: nat, ghost d: nat) returns (ghost rest: nat)
      requires Valid() && num.Valid() && div.Valid() && num.WIDTH == div.WIDTH == WIDTH
      requires pn != num.pn && pn != div.pn && num.pn != div.pn
      requires Val() == 0 && num.Val() == n && d > 0 && div.Val() == Pow(2, start) * d
      requires n < Pow(2, start + 1) * d && start < 32 * WIDTH
      modifies pn, num.pn, div.pn
      ensures Valid() && Val() == n / d && rest == n % d
    {
      var shift: int := start;
      AllZero(pn[..]);
      while shift >= 0
        invariant -1 <= shift < 32 * WIDTH && Valid() && num.Valid() && div.Valid()
        invariant n == Val() * d + num.Val() && num.Val() < Pow(2, shift + 1) * d
        invariant shift >= 0 ==> div.Val() == Pow(2, shift) * d
        invariant ClearBelow(pn[..], shift + 1)
      {
        QuotientBit(num, div, shift, n, d);
        div.ShiftRight(1);
        if shift > 0 { HalfShift(shift, d); }
        shift := shift - 1;
      }
      assert Pow(2, 0) == 1;
      rest := num.Val();
      QuotientIs(n, d, Val(), rest);
    }

    /** Subtracts the shifted divisor and sets a bit of the quotient, if it goes. */
    method QuotientBit(num: BaseUint, div: BaseUint, shift: nat, ghost n: nat, ghost d: nat)
      requires Valid() && num.Valid() && div.Valid() && num.WIDTH == div.WIDTH == WIDTH
      requires pn != num.pn && pn != div.pn && num.pn != div.pn
      requires n == Val() * d + num.Val() && num.Val() < Pow(2, shift + 1) * d
      requires div.Val() == Pow(2, shift) * d && shift < 32 * WIDTH && ClearBelow(pn[..], shift + 1)
      modifies pn, num.pn
      ensures Valid() && num.Valid()
      ensures n == Val() * d + num.Val() && num.Val() < Pow(2, shift) * d && ClearBelow(pn[..], shift)
    {
      hide Value, BitOr;
      ghost var q, r, v := Val(), num.Val(), div.Val();
      var c := num.CompareTo(div);
      if c >= 0 {
        SubtractStep(n, d, q, r, Pow(2, shift));
        ValueBelow(BASE, num.pn[..]);
        num.Subtract(div);
        QuotientIs(r - v, Modulus(WIDTH), 0, r - v);
        SetBit(pn[..], shift);
        var k := shift / 32;
        ghost var before := pn[..];
        pn[k] := BitOr(pn[k], Pow(2, shift % 32));
        assert pn[..] == before[k := pn[k]];
      } else {
        ClearLess(pn[..], shift);
      }
    }

    method GetLow64() returns (r: nat)
      requires Valid()
      ensures r == Val() % (BASE * BASE)
    {
      Pow32();
      OrIsSum(pn[0], pn[1], 32);
      r := BitOr(pn[0], BASE * pn[1]);
      assert pn[..] == [pn[0], pn[1]] + pn[2..];
      ValueConcat(BASE, [pn[0], pn[1]], pn[2..]);
      assert V([pn[0], pn[1]]) == r by { assert [pn[0], pn[1]][1..] == [pn[1]]; }
      assert Pow(BASE, 2) == BASE * BASE;
      QuotientIs(Val(), BASE * BASE, V(pn[2..]), r);
    }

    method CompareTo(b: BaseUint) returns (r: int)
      requires Valid() && b.Valid() && b.WIDTH == WIDTH
      ensures r == if Val() < b.Val() then -1 else if Val() > b.Val() then 1 else 0
    {
      var i := WIDTH;
      while i > 0
        invariant 0 <= i <= WIDTH && pn[i..] == b.pn[i..]
      {
        i := i - 1;
        assert pn[i + 1..] == pn[..][i + 1..] && b.pn[i + 1..] == b.pn[..][i + 1..];
        if pn[i] < b.pn[i] {
          ValueOrder(BASE, pn[..], b.pn[..], i);
          return -1;
        }
        if pn[i] > b.pn[i] {
          ValueOrder(BASE, b.pn[..], pn[..], i);
          return 1;
        }
        assert pn[i..] == [pn[i]] + pn[i + 1..] && b.pn[i..] == [b.pn[i]] + b.pn[i + 1..];
      }
      assert pn[..] == b.pn[..];
      return 0;
    }
  }

  lemma LimbProduct(x: nat, y: nat)
    requires x < BASE && y < BASE
    ensures x * y <= (BASE - 1) * (BASE - 1)
  {
    MulMonotone(x, BASE - 1, y);
    MulMonotone(y, BASE - 1, BASE - 1);
  }

  /** Of a number below the next power of two, bit n decides whether it reaches this one. */
  lemma TopBit(x: nat, n: nat)
    requires x < Pow(2, n + 1)
    ensures (x / Pow(2, n)) % 2 == 1 <==> x >= Pow(2, n)
  {
    var p := Pow(2, n);
    if x >= p { QuotientIs(x, p, 1, x - p); } else { QuotientIs(x, p, 0, x); }
  }

  /** The highest limb that is not zero gives the size of the number. */
  lemma LimbTop(s: seq<nat>, pos: nat, n: nat)
    requires LimbsOk(s) && pos < |s| && forall i :: pos < i < |s| ==> s[i] == 0
    requires Pow(2, n) <= s[pos] < Pow(2, n + 1)
    ensures Pow(2, 32 * pos + n) <= V(s) < Pow(2, 32 * pos + n + 1)
  {
    hide Value, Pow;
    ValueSplit(BASE, s, pos);
    ValueZeros(BASE, s[pos + 1..]);
    ValueBelow(BASE, s[..pos]);
    ModulusIsPower(pos);
    PowAdd(2, 32 * pos, n);
    PowAdd(2, 32 * pos, n + 1);
    var m := Modulus(pos);
    MulMonotone(Pow(2, n), s[pos], m);
    MulMonotone(s[pos] + 1, Pow(2, n + 1), m);
    Distribute(m, s[pos], 1);
  }

  // ---------- division ----------

  /** The lowest n bits are zero. */
  predicate ClearBelow(s: seq<nat>, n: nat) {
    forall j :: 0 <= j < |s| && 32 * j < n ==>
      if 32 * (j + 1) <= n then s[j] == 0 else s[j] % Pow(2, n - 32 * j) == 0
  }

  lemma AllZero(s: seq<nat>)
    requires LimbsOk(s) && V(s) == 0
    ensures forall n :: ClearBelow(s, n)
  {
    ValueZero(s);
  }

  lemma {:induction false} ValueZero(s: seq<nat>)
    requires V(s) == 0
    ensures forall i :: 0 <= i < |s| ==> s[i] == 0
  {
    if s != [] { ValueZero(s[1..]); }
  }

  lemma ClearLess(s: seq<nat>, n: nat)
    requires ClearBelow(s, n + 1)
    ensures ClearBelow(s, n)
  {
    forall j | 0 <= j < |s| && 32 * j < n && n < 32 * (j + 1) ensures s[j] % Pow(2, n - 32 * j) == 0 {
      if 32 * (j + 1) > n + 1 { Divides(s[j], n - 32 * j); }
    }
  }

  lemma Divides(x: nat, k: nat)
    requires x % Pow(2, k + 1) == 0
    ensures x % Pow(2, k) == 0
  {
    var p := Pow(2, k);
    DivMod(x, 2 * p);
    var q := x / (2 * p);
    assert x == p * (2 * q) by { Associate(p, 2, q); }
    QuotientIs(x, p, 2 * q, 0);
  }

  /** Setting a clear bit adds its power of two. */
  lemma SetBit(s: seq<nat>, n: nat)
    requires LimbsOk(s) && n < 32 * |s| && ClearBelow(s, n + 1)
    ensures var k, p := n / 32, Pow(2, n % 32);
      var t := s[k := BitOr(s[k], p)];
      LimbsOk(t) && V(t) == V(s) + Pow(2, n) && ClearBelow(t, n)
  {
    hide Value, Pow, BitOr;
    var k, b := n / 32, n % 32;
    var p, x := Pow(2, b), s[k];
    var y := BitOr(x, p);
    ClearBit(x, b);
    var t := s[k := y];
    ValueSplit(BASE, s, k);
    ValueSplit(BASE, t, k);
    assert t[..k] == s[..k] && t[k + 1..] == s[k + 1..];
    ShiftFactor(k, b);
    Distribute(Modulus(k), x + BASE * V(s[k + 1..]), p);
    ClearLess(s, n);
    if b > 0 { assert y % p == 0; }
  }

  lemma NextBit(b: nat)
    ensures Pow(2, b + 1) == 2 * Pow(2, b) && Pow(2, b) > 0
  {
  }

  lemma OrZero(y: nat)
    ensures BitOr(0, y) == y
  {
  }

  lemma ClearBit(x: nat, b: nat)
    requires b < 32 && x < BASE && if b == 31 then x == 0 else x % Pow(2, b + 1) == 0
    ensures BitOr(x, Pow(2, b)) == x + Pow(2, b) < BASE && (x + Pow(2, b)) % Pow(2, b) == 0
  {
    hide BitOr, Pow;
    var p := Pow(2, b);
    Pow32();
    NextBit(b);
    if b == 31 {
      OrZero(p);
      QuotientIs(p, p, 1, 0);
    } else {
      var q := x / Pow(2, b + 1);
      DivMod(x, Pow(2, b + 1));
      OrIsSum(p, q, b + 1);
      ProductIsBase(b + 1);
      RoomForBit(p, q, Pow(2, 32 - (b + 1)), x);
      assert x + p == p * (2 * q + 1) by { Associate(p, 2, q); Distribute(p, 2 * q, 1); }
      QuotientIs(x + p, p, 2 * q + 1, 0);
    }
  }

  lemma RoomForBit(p: nat, q: nat, r: nat, x: nat)
    requires x == (2 * p) * q && (2 * p) * r == BASE && x < BASE && p > 0
    ensures x + p < BASE
  {
    if q >= r { MulMonotone(r, q, 2 * p); }
    MulMonotone(q + 1, r, 2 * p);
    Distribute(2 * p, q, 1);
  }

  /** Shifted so that its highest bit meets the dividend's, the divisor fits, and twice it exceeds the dividend. */
  lemma Aligned(n: nat, d: nat, numBits: nat, divBits: nat, width: nat)
    requires 0 < divBits <= numBits && Pow(2, numBits - 1) <= n < Pow(2, numBits) && n < Modulus(width)
    requires Pow(2, divBits - 1) <= d < Pow(2, divBits)
    ensures n < Pow(2, numBits - divBits + 1) * d && d * Pow(2, numBits - divBits) < Modulus(width)
    ensures numBits - divBits < 32 * width
  {
    var s := numBits - divBits;
    ModulusIsPower(width);
    if numBits > 32 * width { PowMonotone(2, 32 * width, numBits - 1); }
    PowMonotone(2, numBits, 32 * width);
    PowAdd(2, s + 1, divBits - 1);
    MulMonotone(Pow(2, divBits - 1), d, Pow(2, s + 1));
    PowAdd(2, divBits, s);
    MulMonotone(d + 1, Pow(2, divBits), Pow(2, s));
    Distribute(Pow(2, s), d, 1);
  }

  lemma SubtractStep(n: nat, d: nat, q: nat, r: nat, p: nat)
    requires n == q * d + r && r >= p * d && r < (2 * p) * d
    ensures n == (q + p) * d + (r - p * d) && r - p * d < p * d
  {
    Distribute(d, q, p);
    Associate(2, p, d);
  }

  lemma HalfShift(shift: nat, d: nat)
    requires shift > 0
    ensures (Pow(2, shift) * d) / Pow(2, 1) == Pow(2, shift - 1) * d
  {
    Associate(2, Pow(2, shift - 1), d);
    assert Pow(2, 1) == 2;
  }

  /** Limb m of a left shift after i limbs have been moved. */
  function PartialShl(a: seq<nat>, k: nat, s: nat, i: nat, m: nat): nat
    requires s < 32 && i <= |a|
  {
    (if k <= m < k + i then Lo(a[m - k], s) else 0) + (if k + 1 <= m < k + 1 + i then Hi(a[m - k - 1], s) else 0)
  }

  /** Moving one more limb changes two limbs of the result, by or-ing in parts that do not meet. */
  lemma ShlAdvances(a: seq<nat>, k: nat, s: nat, i: nat, m: nat)
    requires s < 32 && LimbsOk(a) && i < |a|
    ensures PartialShl(a, k, s, i + 1, m) ==
      if m == i + k + 1 then (if s == 0 then 0 else BitOr(PartialShl(a, k, s, i, m), Hi(a[i], s)))
      else if m == i + k then BitOr(PartialShl(a, k, s, i, m), Lo(a[i], s))
      else PartialShl(a, k, s, i, m)
    ensures m == i + k + 1 ==> PartialShl(a, k, s, i, m) == 0
  {
    LimbSplit(a[i], s);
    if m == i + k {
      if i > 0 { LimbSplit(a[i - 1], s); }
      OrIsSum(PartialShl(a, k, s, i, m), a[i] % Pow(2, 32 - s), s);
    }
  }

  lemma ShrAdvances(a: seq<nat>, k: nat, s: nat, i: nat, m: nat)
    requires s < 32 && LimbsOk(a) && i < |a|
    ensures PartialShr(a, k, s, i + 1, m) ==
      if m + k + 1 == i then (if s == 0 then PartialShr(a, k, s, i, m)
                              else BitOr(PartialShr(a, k, s, i, m), Lo(a[i], 32 - s)))
      else if m + k == i then BitOr(PartialShr(a, k, s, i, m), Hi(a[i], 32 - s))
      else PartialShr(a, k, s, i, m)
  {
    LimbSplit(a[i], 32 - s);
    if m + k + 1 == i {
      Pow32();
      LimbSplit(a[i - 1], 32 - s);
      OrIsSum(PartialShr(a, k, s, i, m), a[i] % Pow(2, s), 32 - s);
    }
  }

  /** Limb m of a right shift after i limbs have been moved. */
  function PartialShr(a: seq<nat>, k: nat, s: nat, i: nat, m: nat): nat
    requires s < 32 && i <= |a|
  {
    (if m + k < i then Hi(a[m + k], 32 - s) else 0) + (if m + k + 1 < i then Lo(a[m + k + 1], 32 - s) else 0)
  }

  /** Adding the negation modulo m subtracts modulo m. */
  lemma Wraps(x: nat, y: nat, m: nat, z: nat, r: nat)
    requires x < m && y < m && z == (m - y) % m && r == (x + z) % m
    ensures r == (x - y) % m
  {
    if y == 0 {
      QuotientIs(m, m, 1, 0);
    } else {
      QuotientIs(m - y, m, 0, m - y);
      if x < y {
        QuotientIs(x - y, m, -1, x - y + m);
        QuotientIs(x + (m - y), m, 0, x + (m - y));
      } else {
        QuotientIs(x - y, m, 0, x - y);
        QuotientIs(x + (m - y), m, 1, x - y);
      }
    }
  }
}
