/** The free-space bitmap: one bit per block, set when the block is allocated. */
module Bitmaps {
  import opened Bytes
  import opened Bits
  import opened Wrappers

  class Bitmap {
    var bits: seq<byte>
    const total: nat
    /** The blocks whose bit is set. */
    ghost var Marked: set<nat>

    ghost predicate Valid()
      reads this
    {
      && |bits| == DivCeil(total, 8)
      && (forall b {:trigger b in Marked} :: b in Marked ==> b < total)
      && (forall b: nat {:trigger b in Marked} :: b < total ==> (b in Marked <==> BitAt(bits[b / 8], b % 8) == 1))
    }

    constructor (total: nat)
      ensures Valid() && this.total == total && Marked == {}
    {
      this.total := total;
      bits := Zeros(DivCeil(total, 8));
      Marked := {};
      new;
      forall k: nat {
        ZeroBits(k);
      }
    }

    /** Missing bytes count as clear bits, surplus bytes are ignored. */
    constructor FromBytes(bytes: seq<byte>, total: nat)
      ensures Valid() && this.total == total
      ensures Marked == set b: nat | b < total && b / 8 < |bytes| && BitAt(bytes[b / 8], b % 8) == 1
    {
      var len := DivCeil(total, 8);
      var n := Min(len, |bytes|);
      this.total := total;
      bits := bytes[..n] + Zeros(len - n);
      Marked := set b: nat | b < total && b / 8 < |bytes| && BitAt(bytes[b / 8], b % 8) == 1;
      new;
      forall k: nat {
        ZeroBits(k);
      }
    }

    method IsSet(block: nat) returns (r: bool)
      requires Valid()
      ensures r <==> block in Marked
    {
      r := block < total && BitAt(bits[block / 8], block % 8) == 1;
    }

    method Set(block: nat)
      requires Valid()
      modifies this
      ensures Valid()
      ensures Marked == old(Marked) + if block < total then {block} else {}
    {
      if block < total {
        bits := bits[block / 8 := WithBit(bits[block / 8], block % 8, 1)];
        Marked := Marked + {block};
      }
    }

    method Clear(block: nat)
      requires Valid()
      modifies this
      ensures Valid()
      ensures Marked == old(Marked) - {block}
    {
      if block < total {
        bits := bits[block / 8 := WithBit(bits[block / 8], block % 8, 0)];
        Marked := Marked - {block};
      }
    }

    method CountFree() returns (n: nat)
      requires Valid()
      ensures n == total - |Marked|
    {
      n := 0;
      ghost var seen: set<nat> := {};
      for block := 0 to total
        invariant seen == set b | b in Marked && b < block
        invariant n == block - |seen|
      {
        var marked := IsSet(block);
        if !marked {
          n := n + 1;
        } else {
          seen := seen + {block};
        }
      }
      assert seen == Marked;
    }

    /** The lowest free block from `from` on, now marked; or none is free there. */
    method AllocFrom(from: nat) returns (r: Result<nat>)
      requires Valid()
      modifies this
      ensures Valid()
      ensures match r
              case Ok(b) =>
                && from <= b < total && b !in old(Marked) && Marked == old(Marked) + {b}
                && (forall c {:trigger c in old(Marked)} :: from <= c < b ==> c in old(Marked))
              case Err(e) =>
                && e == NoSpace && Marked == old(Marked)
                && (forall c {:trigger c in old(Marked)} :: from <= c < total ==> c in old(Marked))
    {
      var block := from;
      while block < total
        invariant from <= block
        invariant Valid() && Marked == old(Marked)
        invariant forall c {:trigger c in old(Marked)} :: from <= c < block ==> c in old(Marked)
      {
        var marked := IsSet(block);
        if !marked {
          Set(block);
          return Ok(block);
        }
        block := block + 1;
      }
      return Err(NoSpace);
    }
  }
}
