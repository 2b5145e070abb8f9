/** Counting blocks: how many are free, and how many a change has to take. */
module Space {
  import opened Volume

  /** The data blocks that are not allocated. */
  ghost function FreeData(v: Vol, lo: nat): set<nat> {
    set b: nat | lo <= b < |v.data| && b !in v.used
  }

  /** Those of `slots` under which inode `i` has no block yet. */
  ghost function Lacking(v: Vol, i: nat, slots: set<Slot>): set<Slot> {
    set s | s in slots && T(v, i, s) == 0
  }

  /** The blocks under `slots` of inode `i`. */
  ghost function BlocksAt(v: Vol, i: nat, slots: set<Slot>): set<nat> {
    set s | s in slots :: T(v, i, s)
  }

  /** Different slots hold different blocks. */
  lemma {:induction false} OneEach(v: Vol, lo: nat, i: nat, slots: set<Slot>)
    requires Safe(v, lo) && forall s | s in slots :: T(v, i, s) != 0
    ensures |BlocksAt(v, i, slots)| == |slots|
  {
    hide T, Safe;
    if slots != {} {
      var s :| s in slots;
      var rest := slots - {s};
      OneEach(v, lo, i, rest);
      assert BlocksAt(v, i, slots) == BlocksAt(v, i, rest) + {T(v, i, s)};
      if T(v, i, s) in BlocksAt(v, i, rest) {
        var t :| t in rest && T(v, i, t) == T(v, i, s);
        NoSharing(v, lo, i, s, i, t);
      }
    } else {
      assert BlocksAt(v, i, slots) == {};
    }
  }

  lemma SubsetSize<X>(a: set<X>, b: set<X>)
    requires a <= b
    ensures |a| <= |b|
  {
    assert b == a + (b - a);
  }

  /** Whatever slots have got a block, there were enough free blocks for them. */
  lemma TakesFits(v: Vol, v': Vol, lo: nat, i: nat, slots: set<Slot>, wanted: set<Slot>)
    requires Safe(v', lo) && |v'.data| == |v.data| && Takes(v, v', i, slots)
    requires forall s | s in wanted :: T(v', i, s) != 0
    ensures |Lacking(v, i, wanted)| <= |FreeData(v, lo)|
  {
    var new_ := Lacking(v, i, wanted);
    OneEach(v', lo, i, new_);
    hide T;
    assert BlocksAt(v', i, new_) <= FreeData(v, lo);
    SubsetSize(BlocksAt(v', i, new_), FreeData(v, lo));
  }

  /** When all blocks are taken and a slot is still without one, there were too few free blocks. */
  lemma TakesShort(v: Vol, v': Vol, lo: nat, i: nat, slots: set<Slot>, s: Slot)
    requires Safe(v', lo) && |v'.data| == |v.data| && Takes(v, v', i, slots) && AllTaken(v', lo)
    requires s in slots && T(v', i, s) == 0
    ensures |FreeData(v, lo)| < |Lacking(v, i, slots)|
  {
    hide T, Safe;
    var new_ := Lacking(v, i, slots) - Lacking(v', i, slots);
    forall b | b in FreeData(v, lo)
      ensures b in BlocksAt(v', i, new_)
    {
      assert b in v'.used;
      assert v'.owner[b].slot in new_;
    }
    OneEach(v', lo, i, new_);
    SubsetSize(FreeData(v, lo), BlocksAt(v', i, new_));
    assert s in Lacking(v, i, slots) && s !in new_;
    SubsetSize(new_, Lacking(v, i, slots) - {s});
  }

  /** When every slot has got its block, the free blocks have become fewer by those it lacked. */
  lemma TakesAll(v: Vol, v': Vol, lo: nat, i: nat, slots: set<Slot>)
    requires Safe(v', lo) && |v'.data| == |v.data| && Takes(v, v', i, slots)
    requires forall s | s in slots :: T(v', i, s) != 0
    ensures |FreeData(v', lo)| == |FreeData(v, lo)| - |Lacking(v, i, slots)|
  {
    var new_ := Lacking(v, i, slots);
    OneEach(v', lo, i, new_);
    hide T;
    var blocks := BlocksAt(v', i, new_);
    assert blocks <= FreeData(v, lo);
    forall b: nat
      ensures b in FreeData(v', lo) <==> b in FreeData(v, lo) && b !in blocks
    {
      if b in FreeData(v, lo) && b in v'.used {
        assert v'.owner[b].slot in new_;
      }
    }
    assert FreeData(v, lo) == FreeData(v', lo) + blocks;
  }
}
