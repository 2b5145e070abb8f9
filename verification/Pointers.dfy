/** Blocks used as tables of 64-bit block numbers. */
module Pointers {
  import opened Bytes
  import opened Layout

  const PTRS: nat := 504

  function PointerAt(b: Block, k: nat): (p: u64)
    requires k < PTRS
  {
    FromLe64(b[8 * k..8 * k + 8])
  }

  function SetPointer(b: Block, k: nat, p: u64): (r: Block)
    requires k < PTRS
  {
    Patch(b, 8 * k, ToLe(p, 8))
  }

  lemma PointerAtSet(b: Block, k: nat, p: u64, j: nat)
    requires k < PTRS && j < PTRS
    ensures PointerAt(SetPointer(b, k, p), j) == if j == k then p else PointerAt(b, j)
  {
    if j == k {
      RangeValues();
      FromToLe(p, 8);
    } else {
      PatchElsewhere(b, 8 * k, ToLe(p, 8), 8 * j, 8 * j + 8);
    }
  }

  /** A table is all zero bytes exactly when every pointer in it is null. */
  lemma AllNull(b: Block)
    ensures b == ZERO_BLOCK <==> forall k :: 0 <= k < PTRS ==> PointerAt(b, k) == 0
  {
    if b == ZERO_BLOCK {
      forall k | 0 <= k < PTRS
        ensures PointerAt(b, k) == 0
      {
        FromLeZero(b[8 * k..8 * k + 8]);
        assert b[8 * k..8 * k + 8] == Zeros(8);
      }
    }
    if forall k :: 0 <= k < PTRS ==> PointerAt(b, k) == 0 {
      forall i | 0 <= i < UB
        ensures b[i] == 0
      {
        var k := i / 8;
        assert PointerAt(b, k) == 0;
        FromLeZero(b[8 * k..8 * k + 8]);
        assert b[i] == b[8 * k..8 * k + 8][i - 8 * k];
      }
      assert b == ZERO_BLOCK;
    }
  }
}
