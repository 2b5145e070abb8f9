/** The regions of the block array: superblock, bitmap, inode table, data. */
module Geometry {
  import opened Bytes
  import opened Layout
  import opened Inodes

  const MAX_U64: nat := 0xFFFF_FFFF_FFFF_FFFF

  datatype Geometry = Geometry(total: nat, inodeCount: nat, bitmapStart: nat, inodeTableStart: nat, dataStart: nat) {
    /** The regions do not overlap, each is large enough, and there is a data region. */
    predicate Sound() {
      && 0 < bitmapStart <= inodeTableStart
      && DivCeil(total, 8) <= (inodeTableStart - bitmapStart) * 4032
      && inodeTableStart + DivCeil(inodeCount, 21) <= dataStart < total <= MAX_U64
      && inodeCount < MAX_U64
    }
  }

  /** Block and byte offset of inode `ino`'s record. */
  function InodeLocation(g: Geometry, ino: nat): (loc: (nat, nat))
    requires ino > 0
    ensures loc.1 + INODE_SIZE <= 4032
    ensures g.Sound() && ino <= g.inodeCount ==> g.inodeTableStart <= loc.0 < g.dataStart
  {
    var byteOffset := (ino - 1) * INODE_SIZE;
    assert byteOffset == (ino - 1) / 21 * 4032 + (ino - 1) % 21 * 192;
    (g.inodeTableStart + byteOffset / 4032, byteOffset % 4032)
  }

  /** Two inode records share no byte. */
  lemma {:induction false} LocationsDisjoint(g: Geometry, i: nat, j: nat)
    requires 0 < i && 0 < j && i != j
    ensures var (a, b) := (InodeLocation(g, i), InodeLocation(g, j));
            a.0 == b.0 ==> a.1 + INODE_SIZE <= b.1 || b.1 + INODE_SIZE <= a.1
  {
    assert (i - 1) * INODE_SIZE == (i - 1) / 21 * 4032 + (i - 1) % 21 * 192;
    assert (j - 1) * INODE_SIZE == (j - 1) / 21 * 4032 + (j - 1) % 21 * 192;
  }

  /** The inode stored at `ino` in a block array. */
  function InodeAt(g: Geometry, blocks: seq<Block>, ino: nat): Inode
    requires 0 < ino && InodeLocation(g, ino).0 < |blocks|
  {
    InodeOfBytes(blocks[InodeLocation(g, ino).0][InodeLocation(g, ino).1..InodeLocation(g, ino).1 + INODE_SIZE])
  }

  /** The block array with inode `ino` rewritten. */
  function StoreInode(g: Geometry, blocks: seq<Block>, ino: nat, n: Inode): seq<Block>
    requires 0 < ino && InodeLocation(g, ino).0 < |blocks|
  {
    blocks[InodeLocation(g, ino).0 := Patch(blocks[InodeLocation(g, ino).0], InodeLocation(g, ino).1, EncodeInode(n))]
  }

  /** Writing one record leaves the bytes of the others alone. */
  lemma RecordStored(g: Geometry, blocks: seq<Block>, ino: nat, record: seq<byte>, j: nat)
    requires 0 < ino && InodeLocation(g, ino).0 < |blocks| && |record| == INODE_SIZE
    requires 0 < j && InodeLocation(g, j).0 < |blocks|
    ensures var (block, offset) := InodeLocation(g, ino);
            var (bj, oj) := InodeLocation(g, j);
            blocks[block := Patch(blocks[block], offset, record)][bj][oj..oj + INODE_SIZE]
              == if j == ino then record else blocks[bj][oj..oj + INODE_SIZE]
  {
    var (block, offset) := InodeLocation(g, ino);
    if j != ino {
      LocationsDisjoint(g, ino, j);
      var (bj, oj) := InodeLocation(g, j);
      if bj == block {
        PatchElsewhere(blocks[block], offset, record, oj, oj + INODE_SIZE);
      }
    }
  }

  /** Writing an inode changes that inode and no other. */
  lemma InodeAtStored(g: Geometry, blocks: seq<Block>, ino: nat, n: Inode, j: nat)
    requires 0 < ino && InodeLocation(g, ino).0 < |blocks|
    requires 0 < j && InodeLocation(g, j).0 < |blocks|
    ensures InodeAt(g, StoreInode(g, blocks, ino, n), j) == if j == ino then n else InodeAt(g, blocks, j)
  {
    InodeRoundTrip(n);
    RecordStored(g, blocks, ino, EncodeInode(n), j);
  }
}
