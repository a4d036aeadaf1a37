/** Exclusive or, shifts and truncation of unsigned numbers, bit by bit. */
module BitOps {
  function Xor(x: nat, y: nat): nat {
    if x == 0 then y
    else if y == 0 then x
    else 2 * Xor(x / 2, y / 2) + (if x % 2 != y % 2 then 1 else 0)
  }

  /** x >> k */
  function Shr(x: nat, k: nat): nat
    decreases k
  {
    if k == 0 then x else Shr(x / 2, k - 1)
  }

  /** x << k */
  function Shl(x: nat, k: nat): nat
    decreases k
  {
    if k == 0 then x else 2 * Shl(x, k - 1)
  }

  /** The lowest k bits of x. */
  function Trunc(x: nat, k: nat): nat
    decreases k
  {
    if k == 0 then 0 else x % 2 + 2 * Trunc(x / 2, k - 1)
  }

  predicate Bit(x: nat, k: nat) { Shr(x, k) % 2 == 1 }

  lemma XorStep(x: nat, y: nat)
    ensures Xor(x, y) / 2 == Xor(x / 2, y / 2) && Xor(x, y) % 2 == if x % 2 != y % 2 then 1 else 0
  {
  }

  lemma XorZero(x: nat)
    ensures Xor(x, 0) == x && Xor(0, x) == x
  {
  }

  lemma {:induction false} XorCommutes(x: nat, y: nat)
    ensures Xor(x, y) == Xor(y, x)
  {
    if x != 0 && y != 0 { XorCommutes(x / 2, y / 2); }
  }

  lemma {:induction false} XorAssociates(x: nat, y: nat, z: nat)
    ensures Xor(Xor(x, y), z) == Xor(x, Xor(y, z))
    decreases x + y + z
  {
    if x != 0 && y != 0 && z != 0 {
      XorStep(x, y);
      XorStep(y, z);
      XorStep(Xor(x, y), z);
      XorStep(x, Xor(y, z));
      XorAssociates(x / 2, y / 2, z / 2);
    }
  }

  lemma {:induction false} XorSelf(x: nat)
    ensures Xor(x, x) == 0
  {
    if x != 0 { XorSelf(x / 2); }
  }

  lemma XorCancels(x: nat, y: nat)
    requires Xor(x, y) == 0
    ensures x == y
  {
    XorSelf(y);
    XorAssociates(x, y, y);
  }

  lemma XorRegroup(a: nat, b: nat, v: nat, w: nat)
    ensures Xor(Xor(a, b), Xor(v, w)) == Xor(Xor(a, v), Xor(b, w))
  {
    XorAssociates(Xor(a, b), v, w);
    XorAssociates(a, b, v);
    XorCommutes(b, v);
    XorAssociates(a, v, b);
    XorAssociates(Xor(a, v), b, w);
  }

  lemma {:induction false} ShrXor(x: nat, y: nat, k: nat)
    ensures Shr(Xor(x, y), k) == Xor(Shr(x, k), Shr(y, k))
    decreases k
  {
    if k > 0 {
      XorStep(x, y);
      ShrXor(x / 2, y / 2, k - 1);
    }
  }

  lemma {:induction false} ShlXor(x: nat, y: nat, k: nat)
    ensures Shl(Xor(x, y), k) == Xor(Shl(x, k), Shl(y, k))
    decreases k
  {
    if k > 0 {
      ShlXor(x, y, k - 1);
      var a, b := Shl(x, k - 1), Shl(y, k - 1);
      assert (2 * a) / 2 == a && (2 * b) / 2 == b;
    }
  }

  lemma {:induction false} TruncXor(x: nat, y: nat, k: nat)
    ensures Trunc(Xor(x, y), k) == Xor(Trunc(x, k), Trunc(y, k))
    decreases k
  {
    hide Xor;
    if k == 0 {
      XorZero(0);
    } else {
      XorStep(x, y);
      TruncXor(x / 2, y / 2, k - 1);
      XorStep(Trunc(x, k), Trunc(y, k));
    }
  }

  lemma BitXor(x: nat, y: nat, k: nat)
    ensures Bit(Xor(x, y), k) == (Bit(x, k) != Bit(y, k))
  {
    ShrXor(x, y, k);
    XorStep(Shr(x, k), Shr(y, k));
  }

  lemma {:induction false} ShrZero(k: nat)
    ensures Shr(0, k) == 0 && Shl(0, k) == 0 && Trunc(0, k) == 0
  {
    if k > 0 { ShrZero(k - 1); }
  }

  lemma {:induction false} ShrShl(x: nat, k: nat)
    ensures Shr(Shl(x, k), k) == x
  {
    if k > 0 {
      assert Shl(x, k) / 2 == Shl(x, k - 1);
      ShrShl(x, k - 1);
    }
  }

  lemma {:induction false} ShrShr(x: nat, j: nat, k: nat)
    ensures Shr(Shr(x, j), k) == Shr(x, j + k)
    decreases j
  {
    if j > 0 { ShrShr(x / 2, j - 1, k); }
  }

  /** A shifted number has zeros below. */
  lemma {:induction false} ShlBit(x: nat, k: nat, b: nat)
    ensures b < k ==> !Bit(Shl(x, k), b)
    ensures b >= k ==> Bit(Shl(x, k), b) == Bit(x, b - k)
    decreases k
  {
    if k > 0 {
      var y := Shl(x, k - 1);
      assert (2 * y) / 2 == y && (2 * y) % 2 == 0;
      if b > 0 { ShlBit(x, k - 1, b - 1); }
    }
  }

  lemma {:induction false} ShlShl(x: nat, j: nat, k: nat)
    ensures Shl(Shl(x, j), k) == Shl(x, j + k)
    decreases k
  {
    if k > 0 { ShlShl(x, j, k - 1); }
  }

  lemma {:induction false} ShrBelow(x: nat, k: nat)
    ensures Shr(x, k) == 0 <==> x < Shl(1, k)
    decreases k
  {
    if k > 0 { ShrBelow(x / 2, k - 1); }
  }

  /** A number is its high bits and its low bits together. */
  lemma {:induction false} SplitJoin(x: nat, k: nat)
    ensures Xor(Shl(Shr(x, k), k), Trunc(x, k)) == x
    decreases k
  {
    hide Xor;
    if k == 0 {
      XorZero(x);
    } else {
      SplitJoin(x / 2, k - 1);
      var a, b := Shl(Shr(x / 2, k - 1), k - 1), Trunc(x / 2, k - 1);
      XorStep(2 * a, x % 2 + 2 * b);
    }
  }
}
