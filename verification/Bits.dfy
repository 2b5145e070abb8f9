/** Single bits of bytes.  Shifting by one place is halving or doubling, so the shifts and masks
    of the program are written as recursion over the bit index. */
module Bits {
  import opened Bytes

  type bit = b: int | 0 <= b < 2

  function Pow2(k: nat): (p: nat)
    ensures p > 0
  {
    if k == 0 then 1 else 2 * Pow2(k - 1)
  }

  /** `x >> k & 1` */
  function BitAt(x: nat, k: nat): bit {
    if k == 0 then x % 2 else BitAt(x / 2, k - 1)
  }

  /** `x` with bit `k` replaced by `b`: `x | 1 << k` and `x & !(1 << k)`. */
  function PutBit(x: nat, k: nat, b: bit): nat {
    if k == 0 then x / 2 * 2 + b else PutBit(x / 2, k - 1, b) * 2 + x % 2
  }

  lemma {:induction false} PutBitAt(x: nat, k: nat, b: bit, j: nat)
    ensures BitAt(PutBit(x, k, b), j) == if j == k then b else BitAt(x, j)
  {
    if k > 0 && j > 0 {
      PutBitAt(x / 2, k - 1, b, j - 1);
    }
  }

  lemma {:induction false} PutBitBound(x: nat, k: nat, b: bit, n: nat)
    requires x < Pow2(n) && k < n
    ensures PutBit(x, k, b) < Pow2(n)
  {
    if k > 0 {
      PutBitBound(x / 2, k - 1, b, n - 1);
    }
  }

  lemma {:induction false} ZeroBits(k: nat)
    ensures BitAt(0, k) == 0
  {
    if k > 0 {
      ZeroBits(k - 1);
    }
  }

  /** A byte with one of its eight bits replaced. */
  function WithBit(x: byte, k: nat, b: bit): (r: byte)
    requires k < 8
    ensures forall j: nat :: BitAt(r, j) == if j == k then b else BitAt(x, j)
  {
    assert Pow2(8) == 0x100;
    PutBitBound(x, k, b, 8);
    assert forall j: nat :: BitAt(PutBit(x, k, b), j) == if j == k then b else BitAt(x, j) by {
      forall j: nat
        ensures BitAt(PutBit(x, k, b), j) == if j == k then b else BitAt(x, j)
      {
        PutBitAt(x, k, b, j);
      }
    }
    PutBit(x, k, b)
  }

  /** Numbers below 2^n with the same n low bits are equal. */
  lemma {:induction false} SameBits(x: nat, y: nat, n: nat)
    requires x < Pow2(n) && y < Pow2(n)
    requires forall k :: 0 <= k < n ==> BitAt(x, k) == BitAt(y, k)
    ensures x == y
  {
    if n > 0 {
      assert BitAt(x, 0) == BitAt(y, 0);
      forall k | 0 <= k < n - 1
        ensures BitAt(x / 2, k) == BitAt(y / 2, k)
      {
        assert BitAt(x, k + 1) == BitAt(y, k + 1);
      }
      SameBits(x / 2, y / 2, n - 1);
    }
  }

  /** Bit `k` of a byte counts from the low end. */
  lemma BitValue(x: nat, k: nat)
    requires k < 8
    ensures BitAt(x, k) == x / [1, 2, 4, 8, 16, 32, 64, 128][k] % 2
  {
    hide BitAt;
    LowBits(x);
    LowBits(x / 16);
    HighBits(x);
    if k >= 4 {
      assert x / 16 / 2 == x / 32 && x / 16 / 4 == x / 64 && x / 16 / 8 == x / 128;
    }
  }

  lemma LowBits(x: nat)
    ensures BitAt(x, 0) == x % 2 && BitAt(x, 1) == x / 2 % 2 && BitAt(x, 2) == x / 4 % 2 && BitAt(x, 3) == x / 8 % 2
  {
    assert x / 2 / 2 == x / 4 && x / 4 / 2 == x / 8;
    assert BitAt(x, 2) == BitAt(x / 2 / 2, 0) && BitAt(x, 3) == BitAt(x / 2 / 2, 1) == BitAt(x / 2 / 2 / 2, 0);
  }

  lemma HighBits(x: nat)
    ensures BitAt(x, 4) == BitAt(x / 16, 0) && BitAt(x, 5) == BitAt(x / 16, 1)
    ensures BitAt(x, 6) == BitAt(x / 16, 2) && BitAt(x, 7) == BitAt(x / 16, 3)
  {
    assert x / 2 / 2 == x / 4 && x / 4 / 2 == x / 8 && x / 8 / 2 == x / 16;
    forall k: nat | 4 <= k
      ensures BitAt(x, k) == BitAt(x / 16, k - 4)
    {
      calc {
        BitAt(x, k);
        BitAt(x / 2, k - 1);
        BitAt(x / 4, k - 2);
        BitAt(x / 8, k - 3);
        BitAt(x / 16, k - 4);
      }
    }
  }
}
