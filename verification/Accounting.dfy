/** Which blocks are allocated, and that what an operation takes another gives back. */
module Accounting {
  import opened Bytes
  import Inodes
  import opened Geometry
  import opened Volume
  import opened Files
  import FileOps
  import opened Dirents
  import opened Directories
  import opened DirTree
  import opened Namespaces
  import opened FsTree
  import opened FsOps

  /** Some slot of some inode points to block `b`. */
  ghost predicate Reached(v: Vol, b: nat) {
    b != 0 && exists i: nat, s: Slot {:trigger T(v, i, s)} :: T(v, i, s) == b
  }

  /** Under exact accounting the allocated blocks are those before the data region and those that
      some inode's tree reaches. */
  lemma {:induction false} UsedExactly(v: Vol, lo: nat, b: nat)
    requires Safe(v, lo) && NoLeak(v, lo)
    ensures b in v.used <==> b < lo || Reached(v, b)
  {
    hide T;
    if b in v.used && lo <= b {
      assert T(v, v.owner[b].ino, v.owner[b].slot) == b;
    }
    if Reached(v, b) {
      var i: nat, s: Slot :| T(v, i, s) == b;
    }
  }

  /** Two volumes with the same trees have the same blocks allocated. */
  lemma {:induction false} SameTreesSameUsed(v: Vol, v': Vol, lo: nat)
    requires Safe(v, lo) && NoLeak(v, lo) && Safe(v', lo) && NoLeak(v', lo)
    requires forall i: nat, s: Slot {:trigger T(v', i, s)} {:trigger T(v, i, s)} :: T(v', i, s) == T(v, i, s)
    ensures v'.used == v.used
  {
    hide T, Safe, NoLeak;
    forall b: nat
      ensures b in v'.used <==> b in v.used
    {
      UsedExactly(v, lo, b);
      UsedExactly(v', lo, b);
      if Reached(v, b) {
        var i: nat, s: Slot :| T(v, i, s) == b;
        assert T(v', i, s) == b;
      }
      if Reached(v', b) {
        var i: nat, s: Slot :| T(v', i, s) == b;
        assert T(v, i, s) == b;
      }
    }
  }

  /** The block count of a directory or file is the number of logical blocks it has mapped, and all
      of them lie below its size. */
  lemma CountIsMapped(v: Vol, lo: nat, i: nat)
    requires Exact(v, lo) && i < |v.table|
    ensures v.table[i].blockCount == |Mapped(v, i)|
    ensures forall m: nat {:trigger T(v, i, SlotOf(m))} :: T(v, i, SlotOf(m)) != 0 ==>
      m in Mapped(v, i) && m * 4032 < v.table[i].size
  {
    hide T, SlotOf, Page;
    assert TrimAt(v, i);
    forall m: nat | T(v, i, SlotOf(m)) != 0
      ensures m < MAX_INDEX
    {
      if m >= MAX_INDEX {
        UnmappablePastEnd(v, i, m);
      }
    }
  }

  /** Block `b` is what inode `i` has mapped as its logical block `m`, or a pointer table on the
      way there. */
  ghost predicate Serves(v: Vol, b: nat, i: nat, m: nat) {
    b != 0 && i < |v.table| && m in Mapped(v, i) && exists s: Slot {:trigger T(v, i, s)} ::
      OnPath(s, SlotOf(m)) && T(v, i, s) == b
  }

  /** Every slot in use lies on the way to a mapped logical block. */
  lemma SlotServes(v: Vol, i: nat, s: Slot) returns (m: nat)
    requires Full(v) && T(v, i, s) != 0
    ensures Serves(v, T(v, i, s), i, m)
  {
    hide T;
    assert HasChild(v, i, s);
    match s {
      case Direct(_) => m := LeafServes(v, i, s, s);
      case SLeaf(_) => m := LeafServes(v, i, s, s);
      case DLeaf(_, _) => m := LeafServes(v, i, s, s);
      case Single =>
        var k: nat :| T(v, i, SLeaf(k)) != 0;
        m := LeafServes(v, i, SLeaf(k), s);
      case Inner(o) =>
        var k: nat :| T(v, i, DLeaf(o, k)) != 0;
        m := LeafServes(v, i, DLeaf(o, k), s);
      case Double =>
        var o: nat :| T(v, i, Inner(o)) != 0;
        assert HasChild(v, i, Inner(o));
        var k: nat :| T(v, i, DLeaf(o, k)) != 0;
        m := LeafServes(v, i, DLeaf(o, k), s);
    }
  }

  lemma LeafServes(v: Vol, i: nat, leaf: Slot, s: Slot) returns (m: nat)
    requires leaf.IsLeaf() && T(v, i, leaf) != 0 && T(v, i, s) != 0 && OnPath(s, leaf)
    ensures Serves(v, T(v, i, s), i, m)
  {
    m := IndexOf(leaf);
    SlotOfIndexOf(leaf);
  }

  /** Under exact accounting a data block is allocated exactly when some inode has it mapped, or
      needs it as a pointer table to reach a block it has mapped. */
  lemma {:induction false} AllocatedIsMapped(v: Vol, lo: nat, b: nat)
    requires Safe(v, lo) && Exact(v, lo) && lo <= b
    ensures b in v.used <==> exists i: nat, m: nat :: Serves(v, b, i, m)
  {
    hide T, Mapped, Counted, Trim, IdleClean;
    UsedExactly(v, lo, b);
    if b in v.used {
      var i: nat, s: Slot :| T(v, i, s) == b;
      var m := SlotServes(v, i, s);
    }
    if i: nat, m: nat :| Serves(v, b, i, m) {
      assert Reached(v, b);
    }
  }

  /** Creating a file, writing to it and unlinking it leaves exactly the same blocks allocated,
      provided the directory did not need another block.  Nothing is asked of other directories,
      nor of the names in this one. */
  lemma SpaceRestored(g: Geometry, v: Vol, v1: Vol, v2: Vol, v3: Vol, d: nat, name: Name, c: nat, offset: nat,
      data: seq<byte>)
    requires |v.table| == g.inodeCount + 1 && Safe(v, g.dataStart) && Exact(v, g.dataStart)
    requires CreateDone(v, v1, g.dataStart, d, name, c) && v1.table[c].nlink == 1
    requires FileOps.WriteDone(g, v1, v2, c, offset, data)
    requires UnlinkDone(v2, v3, g.dataStart, d, name, c) && Safe(v3, g.dataStart)
    requires v.table[d].size % 4032 == 0 && v1.table[d].size == v.table[d].size
    ensures v3.used == v.used
    ensures Exact(v3, g.dataStart)
  {
    hide T, Page, Safe, Exact, DirOk, Blocks, Shaped, Recs, Names, Ns, NodeOf, Utf8, LookupName, Kept, SameBlocks,
        Removable, SameAttributes, IsDot, NsOk, Created, Unlinked, TreeOk;
    var lo := g.dataStart;
    RestoredExact(g, v, v1, v2, v3, d, name, c, offset, data);
    forall i: nat, s: Slot
      ensures T(v3, i, s) == T(v, i, s)
    {
      RestoredSlot(g, v, v1, v2, v3, d, name, c, offset, data, i, s);
    }
    ExactNoLeak(v, lo);
    ExactNoLeak(v3, lo);
    SameTreesSameUsed(v, v3, lo);
  }

  /** It does not need one when it can be read and has room for the name. */
  lemma RoomKeepsSize(v: Vol, v1: Vol, lo: nat, d: nat, name: Name, c: nat)
    requires CreateDone(v, v1, lo, d, name, c) && Blocks(v, d) && !NoRoomIn(v, d, |name|)
    ensures v.table[d].size % 4032 == 0 && v1.table[d].size == v.table[d].size
  {
    hide T, Page, Exact, Recs, Names, Ns, NodeOf, Utf8, LookupName, Kept, SameBlocks, IsDot, NsOk, NoRoomIn, Blocks,
        TreeOk, Shaped;
    BlocksSize(v, d);
  }

  lemma ExactNoLeak(v: Vol, lo: nat)
    requires Exact(v, lo)
    ensures NoLeak(v, lo)
  {
  }

  lemma RestoredExact(g: Geometry, v: Vol, v1: Vol, v2: Vol, v3: Vol, d: nat, name: Name, c: nat, offset: nat,
      data: seq<byte>)
    requires |v.table| == g.inodeCount + 1 && Exact(v, g.dataStart)
    requires CreateDone(v, v1, g.dataStart, d, name, c) && v1.table[c].nlink == 1
    requires FileOps.WriteDone(g, v1, v2, c, offset, data)
    requires UnlinkDone(v2, v3, g.dataStart, d, name, c)
    requires v.table[d].size % 4032 == 0 && v1.table[d].size == v.table[d].size
    ensures Exact(v3, g.dataStart) && v3.table[c] == Inodes.FREE_INODE
  {
    hide T, Page, Safe, Exact, DirOk, Blocks, Recs, Names, Utf8, LookupName, Kept, SameBlocks, Owned,
        Removable, IsDot, Created, Unlinked, OthersKept, TreeOk, Shaped;
    OthersTable(v1, v2, c);
  }

  /** No slot has changed between before the create and after the unlink. */
  lemma RestoredSlot(g: Geometry, v: Vol, v1: Vol, v2: Vol, v3: Vol, d: nat, name: Name, c: nat, offset: nat,
      data: seq<byte>, i: nat, s: Slot)
    requires |v.table| == g.inodeCount + 1 && Exact(v, g.dataStart)
    requires CreateDone(v, v1, g.dataStart, d, name, c)
    requires FileOps.WriteDone(g, v1, v2, c, offset, data)
    requires UnlinkDone(v2, v3, g.dataStart, d, name, c) && v3.table[c] == Inodes.FREE_INODE
    requires v1.table[d].size == v.table[d].size
    ensures T(v3, i, s) == T(v, i, s)
  {
    hide T, Page, Safe, Tight, Trim, DirOk, Blocks, Shaped, Recs, Names, Ns, NodeOf, Utf8, LookupName, Owned,
        PagesRemoved, Removable, IsDot, NsOk, Created, Unlinked;
    if i == c {
      assert v.table[c] == Inodes.FREE_INODE;
      NothingUnder(v, c);
      NothingUnder(v3, c);
      assert T(v, c, s) == 0 && T(v3, c, s) == 0;
    } else {
      assert T(v1, i, s) == T(v, i, s);
      assert T(v2, i, s) == T(v1, i, s);
      assert T(v3, i, s) == T(v2, i, s);
    }
  }
}
