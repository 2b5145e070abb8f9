/** Inodes and their fixed-size encoding in the inode table. */
module Inodes {
  import opened Bytes
  import opened Wrappers

  const INODE_SIZE: nat := 192

  type DirectPointers = s: seq<u64> | |s| == 12 witness seq(12, _ => 0)

  datatype Inode = Inode(
    mode: u32, uid: u32, gid: u32, nlink: u32,
    size: u64, atime: u64, mtime: u64, ctime: u64,
    blockCount: u32, direct: DirectPointers, single: u64, double: u64)
  {
    /** `mode & 0o170000 == 0o040000`: the four type bits of the mode. */
    predicate IsDir() {
      mode / 0x1000 % 0x10 == 4
    }

    /** Modification and change were noted at one moment. */
    predicate Stamped() {
      mtime == ctime
    }

    /** A table slot is free when its mode is zero. */
    predicate Live() {
      mode != 0
    }
  }

  const NO_POINTERS: DirectPointers := [0, 0, 0, 0, 0, 0, 0, 0, 0, 0, 0, 0]

  const FREE_INODE: Inode := Inode(0, 0, 0, 0, 0, 0, 0, 0, 0, NO_POINTERS, 0, 0)

  /** `n + 1` on 32 bits. */
  function Increment(n: u32): u32 {
    if n == 0xFFFF_FFFF then 0 else n + 1
  }

  /** `n - 1` on 32 bits. */
  function Decrement(n: u32): u32 {
    if n == 0 then 0xFFFF_FFFF else n - 1
  }

  function SaturatingDecrement(n: u32): u32 {
    if n == 0 then 0 else n - 1
  }

  function EncodePointers(s: seq<u64>): (r: seq<byte>)
    ensures |r| == 8 * |s|
  {
    if s == [] then [] else ToLe(s[0], 8) + EncodePointers(s[1..])
  }

  function DecodePointers(b: seq<byte>, count: nat): (r: seq<u64>)
    requires |b| == 8 * count
    ensures |r| == count
  {
    if count == 0 then [] else [FromLe64(b[..8])] + DecodePointers(b[8..], count - 1)
  }

  lemma {:induction false} PointersRoundTrip(s: seq<u64>)
    ensures DecodePointers(EncodePointers(s), |s|) == s
  {
    if s != [] {
      PointersRoundTrip(s[1..]);
      RangeValues();
      FromToLe(s[0], 8);
      assert EncodePointers(s)[..8] == ToLe(s[0], 8);
      assert EncodePointers(s)[8..] == EncodePointers(s[1..]);
    }
  }

  /** The 192 bytes of an inode: four unused bytes follow the block count and the record is
      zero from byte 168 on. */
  function EncodeInode(n: Inode): (r: seq<byte>)
    ensures |r| == INODE_SIZE
  {
    ToLe(n.mode, 4) + ToLe(n.uid, 4) + ToLe(n.gid, 4) + ToLe(n.nlink, 4) +
    ToLe(n.size, 8) + ToLe(n.atime, 8) + ToLe(n.mtime, 8) + ToLe(n.ctime, 8) +
    ToLe(n.blockCount, 4) + Zeros(4) + EncodePointers(n.direct) +
    ToLe(n.single, 8) + ToLe(n.double, 8) + Zeros(24)
  }

  function InodeOfBytes(b: seq<byte>): (n: Inode)
    requires |b| == INODE_SIZE
  {
    Inode(
      FromLe32(b[0..4]), FromLe32(b[4..8]), FromLe32(b[8..12]), FromLe32(b[12..16]),
      FromLe64(b[16..24]), FromLe64(b[24..32]), FromLe64(b[32..40]), FromLe64(b[40..48]),
      FromLe32(b[48..52]), DecodePointers(b[56..152], 12),
      FromLe64(b[152..160]), FromLe64(b[160..168]))
  }

  function DecodeInode(b: seq<byte>): Result<Inode> {
    if |b| < INODE_SIZE then Err(Manifest) else Ok(InodeOfBytes(b[..INODE_SIZE]))
  }

  /** Every inode survives the table, including the largest value of each field. */
  lemma InodeRoundTrip(n: Inode)
    ensures InodeOfBytes(EncodeInode(n)) == n
    ensures DecodeInode(EncodeInode(n)) == Ok(n)
  {
    hide ToLe, FromLe, EncodePointers, DecodePointers;
    var b := EncodeInode(n);
    FieldsInPlace(n);
    RangeValues();
    FromToLe(n.mode, 4);
    FromToLe(n.uid, 4);
    FromToLe(n.gid, 4);
    FromToLe(n.nlink, 4);
    FromToLe(n.size, 8);
    FromToLe(n.atime, 8);
    FromToLe(n.mtime, 8);
    FromToLe(n.ctime, 8);
    FromToLe(n.blockCount, 4);
    FromToLe(n.single, 8);
    FromToLe(n.double, 8);
    PointersRoundTrip(n.direct);
    assert b[..INODE_SIZE] == b;
  }

  lemma FieldsInPlace(n: Inode)
    ensures var b := EncodeInode(n);
            && b[0..4] == ToLe(n.mode, 4) && b[4..8] == ToLe(n.uid, 4)
            && b[8..12] == ToLe(n.gid, 4) && b[12..16] == ToLe(n.nlink, 4)
            && b[16..24] == ToLe(n.size, 8) && b[24..32] == ToLe(n.atime, 8)
            && b[32..40] == ToLe(n.mtime, 8) && b[40..48] == ToLe(n.ctime, 8)
            && b[48..52] == ToLe(n.blockCount, 4) && b[56..152] == EncodePointers(n.direct)
            && b[152..160] == ToLe(n.single, 8) && b[160..168] == ToLe(n.double, 8)
  {
    hide ToLe, EncodePointers;
  }

  /** An all-zero slot is a free inode. */
  lemma FreeIsZero()
    ensures InodeOfBytes(Zeros(INODE_SIZE)) == FREE_INODE
  {
    ZeroField(0, 4);
    ZeroField(4, 8);
    ZeroField(8, 12);
    ZeroField(12, 16);
    ZeroField(16, 24);
    ZeroField(24, 32);
    ZeroField(32, 40);
    ZeroField(40, 48);
    ZeroField(48, 52);
    ZeroField(152, 160);
    ZeroField(160, 168);
    assert Zeros(INODE_SIZE)[56..152] == Zeros(96);
    ZeroPointers(12);
  }

  lemma ZeroField(lo: nat, hi: nat)
    requires lo <= hi <= INODE_SIZE
    ensures FromLe(Zeros(INODE_SIZE)[lo..hi]) == 0
  {
    FromLeZero(Zeros(INODE_SIZE)[lo..hi]);
    assert Zeros(INODE_SIZE)[lo..hi] == Zeros(hi - lo);
  }

  lemma {:induction false} ZeroPointers(count: nat)
    ensures DecodePointers(Zeros(8 * count), count) == seq(count, _ => 0)
  {
    if count > 0 {
      ZeroPointers(count - 1);
      assert Zeros(8 * count)[..8] == Zeros(8);
      FromLeZero(Zeros(8));
      assert Zeros(8 * count)[8..] == Zeros(8 * (count - 1));
    }
  }
}
