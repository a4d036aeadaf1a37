/** Single bits of a byte. */
module Bits {
  /** The byte with only bit k set. */
  function BitMask(k: nat): bv8
    requires k < 8
  {
    if k == 0 then 1 else if k == 1 then 2 else if k == 2 then 4 else if k == 3 then 8
    else if k == 4 then 16 else if k == 5 then 32 else if k == 6 then 64 else 128
  }

  predicate HasBit(m: bv8, k: nat)
    requires k < 8
  {
    m & BitMask(k) != 0
  }

  method OrBit(m: bv8, k: nat) returns (r: bv8)
    requires k < 8
    ensures forall j :: 0 <= j < 8 ==> (HasBit(r, j) <==> j == k || HasBit(m, j))
  {
    r := m | BitMask(k);
  }

  method AndNotBit(m: bv8, k: nat) returns (r: bv8)
    requires k < 8
    ensures forall j :: 0 <= j < 8 ==> (HasBit(r, j) <==> j != k && HasBit(m, j))
  {
    r := m & !BitMask(k);
  }
}
