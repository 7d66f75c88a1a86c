/** Fixed-width integers of the firmware and the bit operations it uses on them. */
module Bits {

  type Byte = x: int | 0 <= x < 0x100
  type Word16 = x: int | 0 <= x < 0x1_0000
  type Word32 = x: int | 0 <= x < 0x1_0000_0000

  const TWO16 := 0x1_0000
  const TWO31 := 0x8000_0000
  const TWO32 := 0x1_0000_0000

  /** `x & (1 << i)` is nonzero. */
  predicate Bit(x: nat, i: nat)
    decreases i
  {
    if i == 0 then x % 2 == 1 else Bit(x / 2, i - 1)
  }

  /** `x | (1 << i)`. */
  function SetBit(x: nat, i: nat): nat
    decreases i
  {
    if i == 0 then (if x % 2 == 1 then x else x + 1) else 2 * SetBit(x / 2, i - 1) + x % 2
  }

  function Pow2(n: nat): (r: nat)
    ensures r > 0
  {
    if n == 0 then 1 else 2 * Pow2(n - 1)
  }

  /** Setting bit `i` changes bit `i` and no other. */
  lemma {:induction false} SetBitBit(x: nat, i: nat, k: nat)
    ensures Bit(SetBit(x, i), k) == (k == i || Bit(x, k))
    decreases i
  {
    if i > 0 {
      var y := SetBit(x / 2, i - 1);
      assert (2 * y + x % 2) / 2 == y;
      if k > 0 {
        SetBitBit(x / 2, i - 1, k - 1);
      }
    }
  }

  lemma {:induction false} SetBitBound(x: nat, i: nat, n: nat)
    requires i < n && x < Pow2(n)
    ensures SetBit(x, i) < Pow2(n)
    decreases i
  {
    assert Pow2(n) == 2 * Pow2(n - 1);
    assert x / 2 < Pow2(n - 1);
    if i > 0 {
      SetBitBound(x / 2, i - 1, n - 1);
    }
  }

  lemma {:induction false} ZeroBit(k: nat)
    ensures !Bit(0, k)
    decreases k
  {
    if k > 0 {
      ZeroBit(k - 1);
    }
  }

  /** Two n-bit numbers with the same bits are equal. */
  lemma {:induction false} BitsDetermine(x: nat, y: nat, n: nat)
    requires x < Pow2(n) && y < Pow2(n)
    requires forall k: nat :: k < n ==> Bit(x, k) == Bit(y, k)
    ensures x == y
    decreases n
  {
    if n > 0 {
      assert Bit(x, 0) == Bit(y, 0);
      forall k: nat | k < n - 1 ensures Bit(x / 2, k) == Bit(y / 2, k) {
        assert Bit(x, k + 1) == Bit(y, k + 1);
      }
      BitsDetermine(x / 2, y / 2, n - 1);
    }
  }
}
