/** Compact targets, and the work they stand for. */
module Compact {
  import opened Division
  import opened Digits
  import opened Limbs
  import opened LimbShifts
  import opened Arith256

  const SIGN := 0x80_0000
  const EXPONENT := 0x100_0000
  const WIDTH := 8

  function Size(compact: nat): nat { compact / EXPONENT }

  /** The mantissa after it has been shifted out by a small exponent. */
  function Word(compact: nat): nat {
    if Size(compact) <= 3 then (compact % SIGN) / Pow(2, 8 * (3 - Size(compact))) else compact % SIGN
  }

  predicate Negative(compact: nat) { Word(compact) != 0 && (compact / SIGN) % 2 == 1 }

  /** The magnitude a compact number stands for, without any bound: mantissa times 256 to the exponent less three. */
  function Magnitude(compact: nat): nat {
    if Size(compact) <= 3 then Word(compact) else Word(compact) * Pow(2, 8 * (Size(compact) - 3))
  }

  /** The flag for numbers that do not fit. */
  predicate OverflowFlag(compact: nat) {
    var w, n := Word(compact), Size(compact);
    w != 0 && (n > 34 || (w > 0xff && n > 33) || (w > 0xffff && n > 32))
  }

  /** Two to the 256: one more than the largest number. */
  function Limit(): (r: nat)
    ensures r > 0
  {
    Modulus(WIDTH)
  }

  lemma SmallPowers()
    ensures Pow(2, 8) == 0x100 && Pow(2, 16) == 0x1_0000 && Pow(2, 24) == 0x100_0000
  {
    assert Pow(2, 8) == 0x100;
    PowAdd(2, 8, 8);
    PowAdd(2, 16, 8);
  }

  /** When a mantissa, shifted left by e bits, fits the room that is left. */
  lemma Fits(w: nat, e: nat, bits: nat)
    requires 0 < w && 1 < e <= bits
    ensures w * Pow(2, e) >= Pow(2, bits) <==> w >= Pow(2, bits - e)
    ensures w * Pow(2, e) < Pow(2, bits) ==> w * Pow(2, e) + 1 < Pow(2, bits)
  {
    var room := Pow(2, bits - e);
    PowAdd(2, bits - e, e);
    PowMonotone(2, 1, e);
    if w >= room {
      MulMonotone(room, w, Pow(2, e));
    } else {
      MulMonotone(w + 1, room, Pow(2, e));
      Distribute(Pow(2, e), w, 1);
    }
  }

  lemma WordBelow(compact: nat)
    ensures Word(compact) < SIGN
  {
    if Size(compact) <= 3 {
      var p := Pow(2, 8 * (3 - Size(compact)));
      DivMod(compact % SIGN, p);
      MulMonotone(1, p, (compact % SIGN) / p);
    }
  }

  lemma OverflowByBits(compact: nat, bits: nat)
    requires bits == 256
    ensures OverflowFlag(compact) <==> Magnitude(compact) >= Pow(2, bits)
    ensures !OverflowFlag(compact) ==> Magnitude(compact) + 1 < Pow(2, bits)
  {
    var w, n := Word(compact), Size(compact);
    SmallPowers();
    WordBelow(compact);
    PowMonotone(2, 24, bits);
    if n > 3 && w > 0 {
      var e := 8 * (n - 3);
      if n > 34 {
        PowMonotone(2, bits, e);
        MulMonotone(1, w, Pow(2, e));
      } else {
        Fits(w, e, bits);
        if n <= 32 { PowMonotone(2, 24, bits - e); }
      }
    }
  }

  /** The flag is set exactly when the number does not fit, and one more never wraps when it is not. */
  lemma OverflowExact(compact: nat)
    ensures OverflowFlag(compact) <==> Magnitude(compact) >= Limit()
    ensures !OverflowFlag(compact) ==> Magnitude(compact) + 1 < Limit()
  {
    ModulusIsPower(WIDTH);
    OverflowByBits(compact, 32 * WIDTH);
  }

  method SetCompact(compact: nat) returns (r: BaseUint, fNegative: bool, fOverflow: bool)
    requires compact < BASE
    ensures r.Valid() && r.WIDTH == WIDTH && fresh(r) && fresh(r.pn)
    ensures r.Val() == Magnitude(compact) % Limit()
    ensures fNegative == Negative(compact) && (fOverflow <==> Magnitude(compact) >= Limit())
  {
    var nSize := compact / EXPONENT;
    var nWord := compact % SIGN;
    WordBelow(compact);
    OverflowExact(compact);
    if nSize <= 3 {
      nWord := nWord / Pow(2, 8 * (3 - nSize));
      r := new BaseUint(WIDTH, nWord);
      QuotientIs(nWord, Limit(), 0, nWord);
    } else {
      r := new BaseUint(WIDTH, nWord);
      r.ShiftLeft(8 * (nSize - 3));
    }
    fNegative := nWord != 0 && (compact / SIGN) % 2 == 1;
    fOverflow := nWord != 0 && (nSize > 34 || (nWord > 0xff && nSize > 33) || (nWord > 0xffff && nSize > 32));
  }

  // ---------- work ----------

  /** The code's formula for the work of a target, against its meaning. */
  lemma ProofFormula(m: nat, t: nat)
    requires 0 <= t < m
    ensures (m - 1 - t) / (t + 1) + 1 == m / (t + 1)
  {
    var d := t + 1;
    DivMod(m - d, d);
    var q := (m - d) / d;
    Distribute(d, q, 1);
    QuotientIs(m, d, q + 1, (m - d) % d);
  }

  /** The expected number of hashes for a compact target: 2^256 / (target + 1), or zero for an invalid target. */
  function BlockProof(nBits: nat): nat {
    if Negative(nBits) || Magnitude(nBits) >= Limit() || Magnitude(nBits) == 0 then 0
    else Limit() / (Magnitude(nBits) + 1)
  }

  method GetBlockProof(nBits: nat) returns (r: BaseUint)
    requires nBits < BASE
    ensures r.Valid() && r.WIDTH == WIDTH && r.Val() == BlockProof(nBits)
  {
    var target, fNegative, fOverflow := SetCompact(nBits);
    var zero := new BaseUint(WIDTH, 0);
    var c := target.CompareTo(zero);
    OverflowExact(nBits);
    if Magnitude(nBits) < Limit() { QuotientIs(Magnitude(nBits), Limit(), 0, Magnitude(nBits)); }
    if fNegative || fOverflow || c == 0 { return zero; }
    r := WorkOf(target);
  }

  /** Two to the 256 divided by one more than the target, without forming two to the 256. */
  method WorkOf(target: BaseUint) returns (r: BaseUint)
    requires target.Valid() && target.WIDTH == WIDTH && 0 < target.Val() && target.Val() + 1 < Limit()
    ensures r.Valid() && r.WIDTH == WIDTH && r.Val() == Limit() / (target.Val() + 1)
  {
    hide Pow, Value;
    ghost var m, t := Limit(), target.Val();
    var one := new BaseUint(WIDTH, 1);
    r := target.Complement();
    var divisor := new BaseUint.Copy(target);
    divisor.Add(one);
    QuotientIs(t + 1, m, 0, t + 1);
    var threw, rest := r.Divide(divisor);
    ProofFormula(m, t);
    QuotientBelow(m, t + 1);
    QuotientIs(m / (t + 1), m, 0, m / (t + 1));
    r.Add(one);
  }

  lemma QuotientBelow(m: nat, d: nat)
    requires d > 1 && m > 0
    ensures m / d < m
  {
    DivMod(m, d);
    MulMonotone(2, d, m / d);
  }

  // ---------- encoding ----------

  /** The weight of the lowest mantissa bit. */
  function Unit(compact: nat): (r: nat)
    ensures r > 0
  {
    if Size(compact) <= 3 then 1 else Pow(2, 8 * (Size(compact) - 3))
  }

  /** A number of `bytes` bytes and its leading 24 bits. */
  function Leading(v: nat, bytes: nat): nat {
    if bytes <= 3 then v * Pow(2, 8 * (3 - bytes)) else v / Pow(2, 8 * (bytes - 3))
  }

  predicate HasBytes(v: nat, bytes: nat) {
    v < Pow(2, 8 * bytes) && if bytes == 0 then v == 0 else Pow(2, 8 * (bytes - 1)) <= v
  }

  /** A compact number without sign. */
  function Packed(mantissa: nat, size: nat): nat { mantissa + EXPONENT * size }

  lemma DivideTwice(v: nat, p: nat, q: nat)
    requires p > 0 && q > 0
    ensures p * q > 0 && (v / p) / q == v / (p * q)
  {
    DivMod(v, p);
    DivMod(v / p, q);
    var a, b, c, d := v / p, v % p, v / p / q, v / p % q;
    MulPositive(p, q);
    Distribute(p, q * c, d);
    Associate(p, q, c);
    MulMonotone(d + 1, q, p);
    Distribute(p, d, 1);
    QuotientIs(v, p * q, c, p * d + b);
  }

  lemma ShortBounds(v: nat, bytes: nat)
    requires HasBytes(v, bytes) && bytes <= 3
    ensures Leading(v, bytes) < Pow(2, 24)
  {
    hide Pow;
    var p := Pow(2, 8 * (3 - bytes));
    PowAdd(2, 8 * bytes, 8 * (3 - bytes));
    MulMonotone(v + 1, Pow(2, 8 * bytes), p);
    Distribute(p, v, 1);
  }

  lemma LongBounds(v: nat, bytes: nat)
    requires HasBytes(v, bytes) && bytes > 3
    ensures Pow(2, 16) <= Leading(v, bytes) < Pow(2, 24)
  {
    hide Pow;
    var e := 8 * (bytes - 3);
    PowAdd(2, 24, e);
    PowAdd(2, 16, e);
    QuotientBounds(v, Pow(2, e), Pow(2, 16), Pow(2, 24));
  }

  lemma QuotientBounds(v: nat, p: nat, lo: nat, hi: nat)
    requires p > 0 && lo * p <= v < hi * p
    ensures lo <= v / p < hi
  {
    DivMod(v, p);
    var q := v / p;
    if q < lo { MulMonotone(q + 1, lo, p); Distribute(p, q, 1); }
    if q >= hi { MulMonotone(hi, q, p); }
  }

  /** The leading bits, without the one that would read as a sign. */
  function Mantissa(v: nat, bytes: nat): nat {
    var m := Leading(v, bytes);
    if m >= SIGN then m / 0x100 else m
  }

  function SizeFor(v: nat, bytes: nat): nat {
    if Leading(v, bytes) >= SIGN then bytes + 1 else bytes
  }

  lemma MantissaBelow(v: nat, bytes: nat)
    requires HasBytes(v, bytes)
    ensures Leading(v, bytes) < EXPONENT && Mantissa(v, bytes) < SIGN
    ensures SizeFor(v, bytes) > 3 ==> Mantissa(v, bytes) >= 0x8000
  {
    SmallPowers();
    if bytes <= 3 { ShortBounds(v, bytes); } else { LongBounds(v, bytes); }
  }

  /** With an exponent above three, the mantissa is the number divided by the unit. */
  lemma MantissaLong(v: nat, bytes: nat)
    requires HasBytes(v, bytes) && SizeFor(v, bytes) > 3
    ensures Mantissa(v, bytes) == v / Pow(2, 8 * (SizeFor(v, bytes) - 3))
  {
    assert Pow(2, 8) == 0x100 && Pow(2, 0) == 1;
    if bytes > 3 && Leading(v, bytes) >= SIGN {
      DivideTwice(v, Pow(2, 8 * (bytes - 3)), 0x100);
      PowAdd(2, 8 * (bytes - 3), 8);
    }
  }

  /** With an exponent of at most three, shifting the mantissa back gives the number. */
  lemma MantissaShort(v: nat, bytes: nat)
    requires HasBytes(v, bytes) && SizeFor(v, bytes) <= 3
    ensures Mantissa(v, bytes) / Pow(2, 8 * (3 - SizeFor(v, bytes))) == v
  {
    var n := SizeFor(v, bytes);
    var p := Pow(2, 8 * (3 - n));
    QuotientIs(v * p, p, v, 0);
    if n == bytes + 1 {
      assert Pow(2, 8) == 0x100;
      PowAdd(2, 8 * (3 - n), 8);
      Associate(v, p, 0x100);
      QuotientIs(Leading(v, bytes), 0x100, v * p, 0);
    }
  }

  lemma PackedParts(m: nat, n: nat, sign: nat)
    requires m < SIGN && (sign == 0 || sign == SIGN)
    ensures Size(Packed(m, n) + sign) == n && (Packed(m, n) + sign) % SIGN == m
    ensures ((Packed(m, n) + sign) / SIGN) % 2 == if sign == 0 then 0 else 1
  {
    var c := Packed(m, n) + sign;
    QuotientIs(c, EXPONENT, n, m + sign);
    QuotientIs(c, SIGN, 2 * n + (if sign == 0 then 0 else 1), m);
  }

  /** An encoded number reads back as the number rounded down to the unit. */
  lemma Encoded(v: nat, bytes: nat, sign: nat)
    requires HasBytes(v, bytes) && (sign == 0 || sign == SIGN)
    ensures var c := Packed(Mantissa(v, bytes), SizeFor(v, bytes)) + sign;
      && Magnitude(c) == v - v % Unit(c)
      && (Size(c) > 3 ==> Word(c) >= 0x8000)
      && (sign == 0 || Mantissa(v, bytes) != 0 ==> (Negative(c) <==> sign != 0))
  {
    var m, n := Mantissa(v, bytes), SizeFor(v, bytes);
    MantissaBelow(v, bytes);
    PackedParts(m, n, sign);
    if n > 3 {
      MantissaLong(v, bytes);
      DivMod(v, Pow(2, 8 * (n - 3)));
    } else {
      MantissaShort(v, bytes);
      if m != 0 { NotZero(v, bytes); }
    }
  }

  lemma NotZero(v: nat, bytes: nat)
    requires HasBytes(v, bytes) && Mantissa(v, bytes) != 0
    ensures v != 0
  {
  }

  lemma BytesOf(v: nat, bits: nat)
    requires v < Pow(2, bits) && (bits == 0 <==> v == 0) && (bits > 0 ==> Pow(2, bits - 1) <= v)
    ensures HasBytes(v, (bits + 7) / 8)
  {
    var bytes := (bits + 7) / 8;
    PowMonotone(2, bits, 8 * bytes);
    if bits > 0 { PowMonotone(2, 8 * (bytes - 1), bits - 1); }
  }

  lemma ShortFits(v: nat, nSize: nat)
    requires HasBytes(v, nSize) && nSize <= 3
    ensures v % (BASE * BASE) == v && Leading(v, nSize) % BASE == Leading(v, nSize)
  {
    SmallPowers();
    PowMonotone(2, 8 * nSize, 24);
    ShortBounds(v, nSize);
    QuotientIs(v, BASE * BASE, 0, v);
  }

  lemma LongFits(v: nat, nSize: nat)
    requires HasBytes(v, nSize) && nSize > 3
    ensures (Leading(v, nSize) % (BASE * BASE)) % BASE == Leading(v, nSize)
  {
    SmallPowers();
    LongBounds(v, nSize);
    QuotientIs(Leading(v, nSize), BASE * BASE, 0, Leading(v, nSize));
  }

  /** The leading bits of a number of limbs, within 32 bits. */
  method LeadingBits(v: BaseUint, nSize: nat) returns (r: nat)
    requires v.Valid() && v.WIDTH == WIDTH && HasBytes(v.Val(), nSize)
    ensures r == Leading(v.Val(), nSize)
  {
    if nSize <= 3 {
      ShortFits(v.Val(), nSize);
      var low := v.GetLow64();
      r := (low * Pow(2, 8 * (3 - nSize))) % BASE;
    } else {
      LongFits(v.Val(), nSize);
      var bn := new BaseUint.Copy(v);
      bn.ShiftRight(8 * (nSize - 3));
      var low := bn.GetLow64();
      r := low % BASE;
    }
  }

  /** Or-ing in the exponent and the sign adds them. */
  lemma OrParts(m: nat, n: nat)
    requires m < SIGN
    ensures BitOr(m, EXPONENT * n) == Packed(m, n) && BitOr(Packed(m, n), SIGN) == Packed(m, n) + SIGN
  {
    SmallPowers();
    assert Pow(2, 24) == 2 * Pow(2, 23);
    OrIsSum(m, n, 24);
    OrBelow(m, SIGN, n, 24);
    OrIsSum(m, 1, 23);
  }

  lemma MantissaZero(v: nat, bytes: nat)
    requires HasBytes(v, bytes)
    ensures Mantissa(v, bytes) == 0 <==> v == 0
  {
    Encoded(v, bytes, 0);
    MantissaBelow(v, bytes);
    PackedParts(Mantissa(v, bytes), SizeFor(v, bytes), 0);
    if Mantissa(v, bytes) != 0 { NotZero(v, bytes); }
  }

  lemma BitsBelow(v: BaseUint, bits: nat)
    requires v.Valid() && v.WIDTH == WIDTH && (bits > 0 ==> Pow(2, bits - 1) <= v.Val())
    ensures bits <= 32 * WIDTH
  {
    ValueBelow(BASE, v.pn[..]);
    ModulusIsPower(WIDTH);
    if bits > 32 * WIDTH { PowMonotone(2, 32 * WIDTH, bits - 1); }
  }

  /** Encodes a number; reading the result back rounds the number down, keeping its leading 16 bits or more. */
  method GetCompact(v: BaseUint, fNegative: bool) returns (nCompact: nat)
    requires v.Valid() && v.WIDTH == WIDTH
    ensures Magnitude(nCompact) == v.Val() - v.Val() % Unit(nCompact)
    ensures Size(nCompact) > 3 ==> Word(nCompact) >= 0x8000
    ensures Negative(nCompact) <==> fNegative && v.Val() != 0
  {
    hide Pow, Magnitude, Unit, Size, Word, Negative, Packed, Leading, HasBytes;
    var bits := v.Bits();
    BitsBelow(v, bits);
    BytesOf(v.Val(), bits);
    var nSize := (bits + 7) / 8;
    ghost var x, bytes := v.Val(), nSize;
    nCompact := LeadingBits(v, nSize);
    MantissaBelow(x, bytes);
    assert (nCompact / SIGN) % 2 == 1 <==> nCompact >= SIGN;
    if (nCompact / SIGN) % 2 == 1 {
      nCompact := nCompact / 0x100;
      nSize := nSize + 1;
    }
    assert nCompact == Mantissa(x, bytes) < SIGN && nSize == SizeFor(x, bytes);
    assert nSize < 256;
    nCompact := Pack(nCompact, nSize, fNegative);
    MantissaZero(x, bytes);
    Encoded(x, bytes, if fNegative && x != 0 then SIGN else 0);
  }

  method Pack(mantissa: nat, nSize: nat, fNegative: bool) returns (nCompact: nat)
    requires mantissa < SIGN
    ensures nCompact == Packed(mantissa, nSize) + (if fNegative && mantissa != 0 then SIGN else 0)
  {
    hide Packed, BitOr, Pow;
    OrParts(mantissa, nSize);
    PackedParts(mantissa, nSize, 0);
    nCompact := BitOr(mantissa, EXPONENT * nSize);
    if fNegative && nCompact % SIGN != 0 {
      nCompact := BitOr(nCompact, SIGN);
    }
  }
}
