/** Single bits of a byte, as C's `x & (1 << k)`, `x | (1 << k)` and `x & ~(1 << k)` give them. */
module Bits {
  import opened Bytes

  function Pow2(k: nat): nat {
    if k == 0 then 1 else 2 * Pow2(k - 1)
  }

  predicate Bit(x: nat, k: nat) {
    if k == 0 then x % 2 == 1 else Bit(x / 2, k - 1)
  }

  function SetBit(x: nat, k: nat): nat {
    if k == 0 then x / 2 * 2 + 1 else SetBit(x / 2, k - 1) * 2 + x % 2
  }

  function ClearBit(x: nat, k: nat): nat {
    if k == 0 then x / 2 * 2 else ClearBit(x / 2, k - 1) * 2 + x % 2
  }

  lemma Halves(q: nat, b: nat)
    requires b < 2
    ensures (q * 2 + b) / 2 == q && (q * 2 + b) % 2 == b
  {
  }

  lemma {:induction false} SetBitReads(x: nat, k: nat, j: nat)
    ensures Bit(SetBit(x, k), j) <==> j == k || Bit(x, j)
    decreases k
  {
    if k == 0 {
      Halves(x / 2, 1);
    } else {
      Halves(SetBit(x / 2, k - 1), x % 2);
      if j > 0 {
        SetBitReads(x / 2, k - 1, j - 1);
      }
    }
  }

  lemma {:induction false} ClearBitReads(x: nat, k: nat, j: nat)
    ensures Bit(ClearBit(x, k), j) <==> j != k && Bit(x, j)
    decreases k
  {
    if k == 0 {
      Halves(x / 2, 0);
    } else {
      Halves(ClearBit(x / 2, k - 1), x % 2);
      if j > 0 {
        ClearBitReads(x / 2, k - 1, j - 1);
      }
    }
  }

  lemma {:induction false} BitBounds(x: nat, k: nat, n: nat)
    requires x < Pow2(n) && k < n
    ensures SetBit(x, k) < Pow2(n) && ClearBit(x, k) < Pow2(n)
    decreases k
  {
    if k > 0 {
      BitBounds(x / 2, k - 1, n - 1);
    }
  }

  /** The byte with bit k set. */
  function ByteSet(x: byte, k: nat): (r: byte)
    requires k < 8
  {
    assert Pow2(8) == 256;
    BitBounds(x, k, 8);
    SetBit(x, k)
  }

  /** The byte with bit k cleared. */
  function ByteClear(x: byte, k: nat): (r: byte)
    requires k < 8
  {
    assert Pow2(8) == 256;
    BitBounds(x, k, 8);
    ClearBit(x, k)
  }
}
