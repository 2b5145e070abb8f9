/** Formatting a pool of images: the division into regions and an empty root directory. */
module Formatting {
  import opened Bytes
  import opened Layout
  import opened Wrappers
  import opened Primitives
  import opened PhysicalBlocks
  import opened Manifests
  import opened Superblocks
  import opened Chunks
  import opened BlockStores
  import opened Bitmaps
  import BitmapBlocks
  import opened Inodes
  import opened Geometry
  import opened Volume
  import opened Files
  import Dirents
  import opened DirBlocks
  import DirTree
  import opened Namespaces
  import opened FsTree
  import FsOps
  import Reachability
  import RootedTrees
  import Mounts
  import opened Album

  // ---------------------------------------------------------------- carriers

  /** The blocks an image has room for, next to a chunk header when there is one. */
  function BlocksIn(keys: Option<StoreKeys>, m: Medium): nat
    requires m.WellFormed()
  {
    if keys.Some? then Capacity(m) / 4096
    else if Capacity(m) < CHUNK_HEADER_LEN then 0
    else (Capacity(m) - CHUNK_HEADER_LEN) / 4096
  }

  /** The images with room for at least one block. */
  function UsableFiles(keys: Option<StoreKeys>, files: seq<Medium>): (usable: seq<Medium>)
    requires forall m :: m in files ==> m.WellFormed()
    ensures forall m :: m in usable ==> m in files && BlocksIn(keys, m) > 0
    ensures |usable| <= |files|
  {
    if files == [] then []
    else
      var last := files[|files| - 1];
      var rest := UsableFiles(keys, files[..|files| - 1]);
      if BlocksIn(keys, last) == 0 then rest else rest + [last]
  }

  /** Each image with room is taken, in its place among the others, and no other. */
  lemma {:induction false} UsableParts(keys: Option<StoreKeys>, p: seq<Medium>, q: seq<Medium>)
    requires AllFormed(p) && AllFormed(q) && AllFormed(p + q)
    ensures UsableFiles(keys, p + q) == UsableFiles(keys, p) + UsableFiles(keys, q)
  {
    hide BlocksIn, UsableFiles, AllFormed;
    if q == [] {
      assert p + q == p;
      NoneUsable(keys, q);
    } else {
      var front, last := q[..|q| - 1], q[|q| - 1];
      assert q == front + [last];
      Associative(p, front, [last]);
      PartsFormed(p + front, last);
      PartsFormed(front, last);
      UsableParts(keys, p, front);
      UsableLast(keys, p + front, last);
      UsableLast(keys, front, last);
      Associative(UsableFiles(keys, p), UsableFiles(keys, front), if BlocksIn(keys, last) > 0 then [last] else []);
    }
  }

  ghost predicate AllFormed(files: seq<Medium>) {
    forall m :: m in files ==> m.WellFormed()
  }

  lemma PartsFormed(front: seq<Medium>, last: Medium)
    requires AllFormed(front + [last])
    ensures AllFormed(front) && last.WellFormed()
  {
    var files := front + [last];
    assert files[|front|] == last;
    forall m | m in front
      ensures m.WellFormed()
    {
      assert m in files;
    }
  }

  lemma NoneUsable(keys: Option<StoreKeys>, files: seq<Medium>)
    requires files == []
    ensures UsableFiles(keys, files) == []
  {
  }

  lemma UsableLast(keys: Option<StoreKeys>, front: seq<Medium>, last: Medium)
    requires AllFormed(front) && last.WellFormed() && AllFormed(front + [last])
    ensures UsableFiles(keys, front + [last]) ==
      UsableFiles(keys, front) + if BlocksIn(keys, last) > 0 then [last] else []
  {
    hide BlocksIn;
    assert (front + [last])[..|front|] == front;
  }

  /** An image has room for `n` blocks when a bit of it can carry each bit of them, and of the
      header of a plain chunk. */
  lemma RoomForBlocks(keys: Option<StoreKeys>, m: Medium, n: nat)
    requires m.WellFormed() && n > 0
    ensures n <= BlocksIn(keys, m) <==> 8 * (n * 4096 + if keys.Some? then 0 else 16) <= |Slots(m)|
  {
    hide Slots;
  }

  method SelectUsable(keys: Option<StoreKeys>, files: seq<Medium>) returns (usable: seq<Medium>)
    requires forall m :: m in files ==> m.WellFormed()
    ensures usable == UsableFiles(keys, files)
  {
    hide BlocksIn;
    usable := [];
    for i := 0 to |files|
      invariant usable == UsableFiles(keys, files[..i])
    {
      assert files[..i + 1][..i] == files[..i];
      assert files[i] in files;
      if BlocksIn(keys, files[i]) != 0 {
        usable := usable + [files[i]];
      }
    }
    assert files[..|files|] == files;
  }

  /** Lay the images out one after the other. */
  method LayOut(keys: Option<StoreKeys>, usable: seq<Medium>) returns (manifest: seq<CarrierRange>)
    requires |usable| <= 0xFFFF_FFFF && forall m :: m in usable ==> m.WellFormed() && BlocksIn(keys, m) > 0
    ensures Contiguous(manifest) && |manifest| == |usable|
    ensures forall i {:trigger manifest[i]} :: 0 <= i < |usable| ==>
      manifest[i].chunkIndex == i && manifest[i].blockCount == BlocksIn(keys, usable[i])
  {
    hide BlocksIn;
    var blockStart := 0;
    manifest := [];
    for chunkIndex := 0 to |usable|
      invariant |manifest| == chunkIndex && Contiguous(manifest) && blockStart == End(manifest, |manifest|)
      invariant forall i {:trigger manifest[i]} :: 0 <= i < chunkIndex ==>
        manifest[i].chunkIndex == i && manifest[i].blockCount == BlocksIn(keys, usable[i])
    {
      var blockCount := BlocksIn(keys, usable[chunkIndex]);
      var range := CarrierRange(chunkIndex, blockStart, blockCount);
      EndAppend(manifest, range);
      manifest := manifest + [range];
      blockStart := blockStart + blockCount;
    }
  }

  /** One more range at the end. */
  lemma EndAppend(manifest: seq<CarrierRange>, range: CarrierRange)
    requires Contiguous(manifest) && range.blockStart == End(manifest, |manifest|) && range.blockCount > 0
    ensures Contiguous(manifest + [range])
    ensures End(manifest + [range], |manifest| + 1) == End(manifest, |manifest|) + range.blockCount
  {
    var longer := manifest + [range];
    forall n | 0 <= n <= |manifest|
      ensures End(longer, n) == End(manifest, n)
    {
      EndPrefix(manifest, longer, n);
    }
    forall i | 0 <= i < |longer|
      ensures Placed(longer, i)
    {
      if i < |manifest| {
        assert Placed(manifest, i);
      }
    }
  }

  lemma {:induction false} EndPrefix(a: seq<CarrierRange>, b: seq<CarrierRange>, n: nat)
    requires n <= |a| && a <= b
    ensures End(b, n) == End(a, n)
  {
    if n > 0 {
      EndPrefix(a, b, n - 1);
    }
  }

  // ---------------------------------------------------------------- geometry

  /** The regions of a pool of `total` blocks. */
  function Plan(total: nat): Geometry {
    var bitmapStart := 1;
    var inodeTableStart := bitmapStart + DivCeil(DivCeil(total, 8), 4032);
    var inodeCount := Max(64, total / 4);
    Geometry(total, inodeCount, bitmapStart, inodeTableStart, inodeTableStart + DivCeil(inodeCount, 21))
  }

  /** The regions partition the pool and the bitmap and the inode table fit theirs, in every pool
      that leaves room for data. */
  lemma {:induction false} PlanSound(total: nat)
    requires Plan(total).dataStart < total <= MAX_U64
    ensures Plan(total).Sound()
  {
  }

  /** How large the regions are: one block for the superblock, no more for the bitmap than a bit
      for each block takes, one inode for every four blocks but at least 64, and no more for the
      table than these take. */
  lemma PlanExact(total: nat)
    ensures var g := Plan(total);
            && g.total == total && g.bitmapStart == 1
            && (g.inodeTableStart - 1) * (8 * 4032) >= total
            && (total > 0 ==> (g.inodeTableStart - 2) * (8 * 4032) < total)
            && g.inodeCount == (if total < 256 then 64 else total / 4)
            && (g.dataStart - g.inodeTableStart) * 21 >= g.inodeCount
            && (g.dataStart - g.inodeTableStart - 1) * 21 < g.inodeCount
  {
    var bytes := DivCeil(total, 8);
    assert DivCeil(bytes, 4032) * 4032 >= bytes;
  }

  /** A pool of up to six blocks leaves no room for data, every larger one does. */
  lemma SmallestPool(total: nat)
    ensures Plan(total).dataStart >= total <==> total <= 6
  {
    PlanExact(total);
  }

  // ---------------------------------------------------------------- the empty volume

  /** No inode in use, and no block allocated outside the first `lo`. */
  ghost function EmptyVol(g: Geometry): (v: Vol)
    requires g.Sound()
  {
    Vol(seq(g.inodeCount + 1, _ => FREE_INODE), seq(g.total, _ => ZERO_BLOCK), Below(g.dataStart), map[])
  }

  const ROOT_INODE: Inode := FREE_INODE.(mode := 0x41ED, nlink := 2, size := 4032, blockCount := 1)

  function RootInode(block: u64): Inode {
    ROOT_INODE.(direct := NO_POINTERS[0 := block])
  }

  /** The freshly formatted volume: the root is an empty directory in the first data block. */
  ghost function FreshVol(g: Geometry): Vol
    requires g.Sound() && g.inodeCount >= 1
  {
    var v := EmptyVol(g);
    Vol(v.table[1 := RootInode(g.dataStart)], v.data[g.dataStart := InitialBlock(1, 1)], v.used + {g.dataStart},
        v.owner[g.dataStart := Ref(1, Direct(0))])
  }

  lemma EmptyIsExact(g: Geometry)
    requires g.Sound()
    ensures Safe(EmptyVol(g), g.dataStart) && Exact(EmptyVol(g), g.dataStart)
  {
    var v := EmptyVol(g);
    forall i: nat, s: Slot
      ensures T(v, i, s) == 0
    {
    }
    hide T, SlotOf;
    forall i | 0 <= i < |v.table|
      ensures Mapped(v, i) == {} && TrimAt(v, i)
    {
      assert forall m: nat {:trigger Page(v, i, m)} :: Page(v, i, m) == ZERO_BLOCK;
    }
  }

  /** A freshly formatted volume meets every invariant. */
  lemma FreshIsGood(g: Geometry)
    requires g.Sound() && g.inodeCount >= 1
    ensures var v := FreshVol(g);
            && Safe(v, g.dataStart) && Exact(v, g.dataStart) && RootedTrees.RootedTree(v)
            && NodeOf(v, 1) == NewDir(1, 1) && forall i :: 0 <= i < |v.table| && i != 1 ==> NodeOf(v, i) == Free
  {
    hide T, Page, Safe, Exact, DirTree.DirOk, DirTree.Recs, InitialBlock, NodeOf, Dirents.Utf8;
    var v0, v := EmptyVol(g), FreshVol(g);
    EmptyIsExact(g);
    RootShape(g);
    DirStored(v0, v, g.dataStart, 1, g.dataStart, InitialBlock(1, 1), RootInode(g.dataStart));
    FsOps.NewDirNode(v, 1, 1);
    forall i | 0 <= i < |v.table| && i != 1
      ensures NodeOf(v, i) == Free
    {
      FreeNode(v, i);
    }
    assert Shaped(v);
    RootAlone(Ns(v));
  }

  /** The root directory: mode 040755, two links, one block, the first of the data region. */
  lemma RootRecord(g: Geometry)
    requires g.Sound() && g.inodeCount >= 1
    ensures var (v, root) := (FreshVol(g), FreshVol(g).table[1]);
            && root.mode == 4 * 0x1000 + 7 * 64 + 5 * 8 + 5 && root.uid == 0 && root.gid == 0 && root.nlink == 2
            && root.size == 4032 && root.atime == 0 && root.mtime == 0 && root.ctime == 0 && root.blockCount == 1
            && root.direct == [g.dataStart, 0, 0, 0, 0, 0, 0, 0, 0, 0, 0, 0] && root.single == 0 && root.double == 0
            && (forall i :: 0 <= i < |v.table| && i != 1 ==> v.table[i].mode == 0)
            && (forall b: nat :: b in v.used <==> b <= g.dataStart)
  {
    FreshUsed(g);
  }

  lemma RootShape(g: Geometry)
    requires g.Sound() && g.inodeCount >= 1
    ensures var (v0, n) := (EmptyVol(g), RootInode(g.dataStart));
            && n.Live() && n.IsDir() && |v0.table| > 1 && |v0.data| == g.total && g.dataStart !in v0.used
              && !v0.table[1].Live()
            && (forall i :: 0 <= i < |v0.table| ==> v0.table[i] == FREE_INODE)
  {
  }

  /** A tree of nothing but an empty root is well formed. */
  lemma RootAlone(ns: seq<Node>)
    requires |ns| > 1 && ns[1] == NewDir(1, 1) && forall i :: 0 <= i < |ns| && i != 1 ==> ns[i] == Free
    ensures NsOk(ns, map[]) && Reachability.Rooted(ns, map[])
  {
    hide Dirents.Utf8, KidDirs;
    NoKids(ns[1].names);
    assert DirNode(ns, map[], 1);
    assert Reachability.Climb(map[], [1], 1, 1);
  }

  // ---------------------------------------------------------------- formatting

  /** The superblock of a plain pool. */
  function PlainSuperblock(g: Geometry, manifest: seq<CarrierRange>): (sb: Superblock)
    requires g.Sound()
    ensures |sb.salt| == 16
  {
    Superblock(2, 4096, 4032, g.total, g.inodeCount, g.bitmapStart, g.inodeTableStart, g.dataStart, 1, 0,
               Zeros(16), ARGON2_MEM_KIB, ARGON2_ITERS, ARGON2_PARALLEL,
               seq(|manifest|, i requires 0 <= i < |manifest| => NamedRange([], manifest[i])))
  }

  const ARGON2_MEM_KIB: u32 := 65536
  const ARGON2_ITERS: u32 := 3
  const ARGON2_PARALLEL: u32 := 1

  /** A chunk's length has to fit its header. */
  predicate TooLong(keys: Option<StoreKeys>, manifest: seq<CarrierRange>) {
    keys.None? && exists i {:trigger manifest[i]} :: 0 <= i < |manifest| && Size(manifest[i]) > 0xFFFF_FFFF
  }

  /** Give every block of the store a payload of zeros. */
  method ZeroAll(store: BlockStore)
    requires store.Valid() && store.Lost == {}
    modifies store
    ensures store.Valid() && store.Blank <= old(store.Blank) && store.Remains() == old(store.Remains())
    ensures old(store.Unsaved()) ==> store.Unsaved()
    ensures forall b {:trigger b in store.Blank} :: b in store.Blank ==> store.total <= b
    ensures forall b :: 0 <= b < store.total ==> store.Contents[b] == ZERO_BLOCK
  {
    hide BlockStore.Valid, BlockStore.Remains, BlockStore.Unsaved;
    for lba := 0 to store.total
      invariant store.Valid() && store.Blank <= old(store.Blank) && store.Remains() == old(store.Remains())
      invariant old(store.Unsaved()) ==> store.Unsaved()
      invariant forall b {:trigger b in store.Blank} :: b in store.Blank ==> lba <= b
      invariant forall b :: 0 <= b < lba ==> store.Contents[b] == ZERO_BLOCK
    {
      var r := store.WriteBlock(lba, ZERO_BLOCK);
    }
  }

  /** The number of blocks the images have room for together. */
  function PoolBlocks(keys: Option<StoreKeys>, files: seq<Medium>): nat
    requires forall m :: m in files ==> m.WellFormed()
  {
    if files == [] then 0 else PoolBlocks(keys, files[..|files| - 1]) + BlocksIn(keys, files[|files| - 1])
  }

  /** It is a sum: every image counts once, wherever it stands. */
  lemma {:induction false} PoolParts(keys: Option<StoreKeys>, p: seq<Medium>, q: seq<Medium>)
    requires forall x :: x in p + q ==> x.WellFormed()
    ensures (forall x :: x in p ==> x.WellFormed()) && forall x :: x in q ==> x.WellFormed()
    ensures PoolBlocks(keys, p + q) == PoolBlocks(keys, p) + PoolBlocks(keys, q)
    ensures |q| == 1 ==> PoolBlocks(keys, q) == BlocksIn(keys, q[0])
  {
    hide BlocksIn;
    var files := p + q;
    assert forall x :: x in p ==> x in files;
    assert forall x :: x in q ==> x in files;
    if q == [] {
      assert files == p;
    } else {
      assert files[..|files| - 1] == p + q[..|q| - 1] && files[|files| - 1] == q[|q| - 1];
      PoolParts(keys, p, q[..|q| - 1]);
    }
  }

  /** The images without room do not count. */
  lemma {:induction false} UsableBlocks(keys: Option<StoreKeys>, files: seq<Medium>)
    requires forall m :: m in files ==> m.WellFormed()
    ensures PoolBlocks(keys, UsableFiles(keys, files)) == PoolBlocks(keys, files)
  {
    hide BlocksIn;
    if files != [] {
      var front, last := files[..|files| - 1], files[|files| - 1];
      UsableBlocks(keys, front);
      var rest := UsableFiles(keys, front);
      if BlocksIn(keys, last) > 0 {
        assert (rest + [last])[..|rest|] == rest;
      }
    }
  }

  lemma {:induction false} EndIsSum(keys: Option<StoreKeys>, usable: seq<Medium>, manifest: seq<CarrierRange>, n: nat)
    requires n <= |usable| == |manifest| && forall m :: m in usable ==> m.WellFormed()
    requires forall i {:trigger manifest[i]} :: 0 <= i < |usable| ==>
      manifest[i].blockCount == BlocksIn(keys, usable[i])
    ensures forall m :: m in usable[..n] ==> m in usable
    ensures End(manifest, n) == PoolBlocks(keys, usable[..n])
  {
    hide BlocksIn;
    if n > 0 {
      EndIsSum(keys, usable, manifest, n - 1);
      assert usable[..n][..n - 1] == usable[..n - 1];
    }
  }

  /** An image with room for blocks has room for the range made for it. */
  lemma {:induction false} RangesRoomy(keys: Option<StoreKeys>, m: Medium, size: nat)
    requires m.WellFormed() && size == BlocksIn(keys, m) * 4096 && BlocksIn(keys, m) > 0
    requires if keys.Some? then |keys.value.order| == 32 else size <= 0xFFFF_FFFF
    ensures Roomy(keys, m, size)
  {
    hide Capacity;
    var c := Capacity(m);
    assert c / 4096 * 4096 <= c;
  }

  /** The block array right after formatting holds the fresh volume. */
  lemma FreshTies(g: Geometry, contents: seq<Block>)
    requires g.Sound() && g.inodeCount >= 1 && |contents| == g.total && g.inodeTableStart < g.dataStart
    requires forall b :: g.dataStart <= b < g.total ==>
      contents[b] == if b == g.dataStart then InitialBlock(1, 1) else ZERO_BLOCK
    requires forall b :: g.inodeTableStart <= b < g.dataStart ==>
               contents[b] == if b == g.inodeTableStart then Patch(ZERO_BLOCK, 0, EncodeInode(RootInode(g.dataStart)))
                 else ZERO_BLOCK
    ensures Mounts.Ties(g, FreshVol(g), contents, Below(g.dataStart + 1))
  {
    hide InitialBlock, EncodeInode, InodeOfBytes, Patch;
    var v := FreshVol(g);
    var blank := seq(g.total, _ => ZERO_BLOCK);
    var root := RootInode(g.dataStart);
    forall i | 1 <= i <= g.inodeCount
      ensures InodeAt(g, contents, i) == v.table[i]
    {
      InodeAtStored(g, blank, 1, root, i);
      FirstLocation(g);
      assert contents[InodeLocation(g, i).0] == StoreInode(g, blank, 1, root)[InodeLocation(g, i).0];
      BlankInode(g, blank, i);
    }
    assert v.used == Below(g.dataStart + 1);
  }

  lemma FirstLocation(g: Geometry)
    ensures InodeLocation(g, 1) == (g.inodeTableStart, 0)
  {
  }

  lemma BlankInode(g: Geometry, blocks: seq<Block>, i: nat)
    requires 0 < i && InodeLocation(g, i).0 < |blocks| && blocks[InodeLocation(g, i).0] == ZERO_BLOCK
    ensures InodeAt(g, blocks, i) == FREE_INODE
  {
    hide InodeOfBytes;
    FreeIsZero();
    ZeroSlice(InodeLocation(g, i).1, INODE_SIZE);
  }

  /** Block 0 of a plain pool decodes to the geometry and the carriers of the pool: its version and
      block sizes, the four counts and the three region starts, each in its field, the root at inode
      1, not encrypted, and the carriers without names. */
  ghost predicate Describes(p: Primitives, block: Block, g: Geometry, manifest: seq<CarrierRange>) {
    match Superblocks.Decoded(p, block)
    case Err(_) => false
    case Ok(sb) =>
      && sb.version == 2 && sb.blockSize == 4096 && sb.usableSize == 4032
      && sb.totalBlocks == g.total && sb.inodeCount == g.inodeCount
      && sb.bitmapStart == g.bitmapStart && sb.inodeTableStart == g.inodeTableStart && sb.dataStart == g.dataStart
      && sb.rootInode == 1 && sb.cryptoFlags == 0
      && sb.salt == Zeros(16) && sb.argonMem == 65536 && sb.argonIters == 3 && sb.argonParallel == 1
      && |sb.manifest| == |manifest|
      && forall i :: 0 <= i < |manifest| ==> sb.manifest[i] == NamedRange([], manifest[i])
  }

  /** Block 0 of a plain pool describes it. */
  lemma SuperblockFound(p: Primitives, g: Geometry, manifest: seq<CarrierRange>)
    requires g.Sound() && Contiguous(manifest) && End(manifest, |manifest|) == g.total && |manifest| < 0x1_0000_0000
    requires |Encoded(p, PlainSuperblock(g, manifest))| <= UB
    ensures Describes(p, Pad(Encoded(p, PlainSuperblock(g, manifest))), g, manifest)
  {
    hide Encoded, Superblocks.Decoded;
    var sb := PlainSuperblock(g, manifest);
    forall i | 0 <= i < |sb.manifest|
      ensures RangeFits(sb.version, sb.manifest[i])
    {
      assert Placed(manifest, i);
      EndMonotone(manifest, i + 1, |manifest|);
    }
    SuperblockRoundTrip(p, sb, Zeros(UB - |Encoded(p, sb)|));
  }

  /** Why a pool of `total` blocks cannot be formatted, if it cannot. */
  ghost function Unformattable(p: Primitives, keys: Option<StoreKeys>, total: nat,
      manifest: seq<CarrierRange>): Option<FsError>
    requires total <= MAX_U64
  {
    var g := Plan(total);
    if g.dataStart >= g.total then Some(EmptyPool)
    else
      PlanSound(total);
      if keys.None? && |Encoded(p, PlainSuperblock(g, manifest))| > UB then Some(FsError.Manifest)
      else if TooLong(keys, manifest) then Some(Codec(PayloadTooLarge))
      else None
  }

  /** Why a pool cannot be formatted: it has at most six blocks; a plain one has more than 196
      carriers, whose entries of 20 bytes no longer fit its superblock behind the 108 bytes of the
      header; or one of its chunks is longer than a chunk can be. */
  lemma FormatAnswer(p: Primitives, keys: Option<StoreKeys>, total: nat, manifest: seq<CarrierRange>)
    requires total <= MAX_U64
    ensures Unformattable(p, keys, total, manifest) ==
      if total <= 6 then Some(EmptyPool)
      else if keys.None? && |manifest| > 196 then Some(FsError.Manifest)
      else if keys.None? && exists i {:trigger manifest[i]} ::
        0 <= i < |manifest| && manifest[i].blockCount * 4096 >= 0x1_0000_0000 then Some(Codec(PayloadTooLarge))
      else None
  {
    hide Plan, Encoded, PlainSuperblock;
    SmallestPool(total);
    PlanOf(total);
    if total > 6 {
      PlanSound(total);
      EncodedLength(p, Plan(total), manifest);
    }
  }

  lemma PlanOf(total: nat)
    ensures Plan(total).total == total
  {
  }

  lemma EncodedLength(p: Primitives, g: Geometry, manifest: seq<CarrierRange>)
    requires g.Sound()
    ensures |Encoded(p, PlainSuperblock(g, manifest))| == 108 + 20 * |manifest|
  {
    hide ToLe, Dirents.Utf8, ManifestBytes;
    var sb := PlainSuperblock(g, manifest);
    PlainEntries(sb.manifest);
  }

  lemma {:induction false} PlainEntries(manifest: seq<NamedRange>)
    ensures |ManifestBytes(2, manifest)| == 20 * |manifest|
  {
    hide ToLe, Dirents.Utf8;
    if manifest != [] {
      PlainEntries(manifest[..|manifest| - 1]);
    }
  }

  /** A filesystem as formatting leaves it: saved, with an empty root and all but the reserved
      blocks and the root's free. */
  ghost predicate Formatted(fs: AlbumFs, g: Geometry)
    reads fs, fs.store, fs.bitmap
    ensures Formatted(fs, g) ==> g.Sound() && |fs.store.Contents| == g.total
  {
    && g.Sound() && g.inodeCount >= 1 && fs.geo == g && fs.Valid() && fs.Durable()
    && fs.vol == FreshVol(g) == fs.saved && |fs.vol.used| == g.dataStart + 1
  }

  /** The manifest of a pool: the images with room, numbered in order, each with all its room. */
  ghost predicate LaidOut(keys: Option<StoreKeys>, usable: seq<Medium>, manifest: seq<CarrierRange>)
    requires forall m :: m in usable ==> m.WellFormed()
  {
    && Contiguous(manifest) && |manifest| == |usable|
    && forall i {:trigger manifest[i]} :: 0 <= i < |usable| ==>
      manifest[i].chunkIndex == i && manifest[i].blockCount == BlocksIn(keys, usable[i])
  }

  /** The images of a formatted pool carry its blocks, each its own range, and the first of them is
      the primary one. */
  ghost predicate Carries(store: BlockStore, manifest: seq<CarrierRange>)
    reads store
  {
    && store.p.Lawful() && Ranges(store.carriers) == manifest && FirstIsPrimary(store.carriers)
    && forall i {:trigger store.carriers[i]} :: 0 <= i < |store.carriers| ==>
      Imprinted(store.p, store.keys, store.carriers[i])
  }

  predicate FirstIsPrimary(carriers: seq<CarrierSlot>) {
    forall i {:trigger carriers[i]} :: 0 <= i < |carriers| ==> (carriers[i].isPrimary <==> i == 0)
  }

  /** Writing blocks changes neither the ranges nor which carrier is the primary one. */
  lemma RolesKept(store: BlockStore, remains: seq<CarrierSlot>, carriers: seq<CarrierSlot>)
    requires remains == Dropped(carriers) == store.Remains()
    ensures Ranges(store.carriers) == Ranges(carriers)
    ensures FirstIsPrimary(carriers) ==> FirstIsPrimary(store.carriers)
  {
    assert Ranges(Dropped(carriers)) == Ranges(Dropped(store.carriers));
    forall i | 0 <= i < |carriers|
      ensures store.carriers[i].isPrimary == carriers[i].isPrimary
    {
      assert Dropped(store.carriers)[i] == Dropped(carriers)[i];
    }
  }

  lemma UnsavedNow(store: BlockStore)
    ensures store.Unsaved() == AllDirty(store.carriers)
  {
  }

  lemma RemainsNow(store: BlockStore)
    ensures store.Remains() == Dropped(store.carriers)
  {
  }

  /** Flushing carriers that all have changes leaves all images written. */
  lemma FlushedCarries(store: BlockStore, carriers: seq<CarrierSlot>)
    requires store.Valid() && AllDirty(carriers) && FirstIsPrimary(carriers) && |carriers| == |store.carriers|
    requires forall i {:trigger store.carriers[i]} :: 0 <= i < |carriers| ==>
      WrittenBack(store.p, store.keys, carriers[i], store.carriers[i])
    ensures Carries(store, Ranges(carriers))
  {
    hide Imprinted;
    forall i | 0 <= i < |carriers|
      ensures Imprinted(store.p, store.keys, store.carriers[i])
      ensures store.carriers[i].range == carriers[i].range && store.carriers[i].isPrimary == carriers[i].isPrimary
    {
      assert WrittenBack(store.p, store.keys, carriers[i], store.carriers[i]);
    }
    assert Ranges(store.carriers) == Ranges(carriers);
  }

  /** Of the chunks a plain pool is found by, exactly the first has the primary flag. */
  lemma FirstFlagged(store: BlockStore, manifest: seq<CarrierRange>, i: nat)
    requires Carries(store, manifest) && store.keys.None? && i < |manifest| && manifest[i].chunkIndex == i
    ensures |store.carriers| == |manifest| && store.carriers[i].file.WellFormed()
    ensures ChunkIn(store.p, store.carriers[i].file, FramedRead, []).Ok?
    ensures ChunkIn(store.p, store.carriers[i].file, FramedRead, []).value.0 == ChunkMeta(i, if i == 0 then 1 else 0)
  {
    hide ChunkIn;
    assert Ranges(store.carriers)[i] == store.carriers[i].range;
    assert Imprinted(store.p, store.keys, store.carriers[i]);
  }

  /** Format a pool.  It fails exactly when there is no room for data, when a plain carrier would
      be too long for its header or the superblock for its block; otherwise the pool holds an
      empty root directory, and all but the reserved blocks and the root's are free. */
  method Format(p: Primitives, keys: Option<StoreKeys>, files: seq<Medium>) returns (r: Result<AlbumFs>,
      manifest: seq<CarrierRange>)
    requires p.Lawful() && |files| <= 0xFFFF_FFFF && (forall m :: m in files ==> m.WellFormed())
    requires keys.Some? ==> |keys.value.order| == 32
    requires PoolBlocks(keys, files) <= MAX_U64
    ensures LaidOut(keys, UsableFiles(keys, files), manifest)
    ensures End(manifest, |manifest|) == PoolBlocks(keys, files)
    ensures r.Ok? ==>
      && fresh(r.value) && fresh(r.value.store) && fresh(r.value.bitmap)
      && Formatted(r.value, Plan(PoolBlocks(keys, files)))
      && r.value.store.p == p && r.value.store.keys == keys && Carries(r.value.store, manifest)
      && (keys.None? ==> Describes(p, r.value.store.Contents[0], r.value.geo, manifest))
      && (keys.Some? ==> r.value.store.Contents[0] == ZERO_BLOCK)
    ensures match Unformattable(p, keys, PoolBlocks(keys, files), manifest)
            case Some(e) => r == Err(e)
            case None => r.Ok?
  {
    hide BlockStore.Valid, BlockStore.Stored, UsableFiles, BlocksIn, Encoded, InitialBlock, EncodeInode, InodeOfBytes,
        Mounts.Ties, FreshVol, AlbumFs.Valid, Contiguous, PlainSuperblock, Roomy, Formatted, PoolBlocks, Pad,
        Mounts.OnImages, BlockStore.Remains, BlockStore.Unsaved, Describes, Carries;
    var usable := SelectUsable(keys, files);
    manifest := LayOut(keys, usable);
    EndIsSum(keys, usable, manifest, |usable|);
    UsableBlocks(keys, files);
    assert usable[..|usable|] == usable;
    var g := Plan(End(manifest, |manifest|));
    if g.dataStart >= g.total {
      return Err(EmptyPool), manifest;
    }
    PlanSound(g.total);
    var encoded: seq<byte> := [];
    if keys.None? {
      encoded := Encode(p, PlainSuperblock(g, manifest));
      if |encoded| > UB {
        return Err(FsError.Manifest), manifest;
      }
      SuperblockFound(p, g, manifest);
    }
    if TooLong(keys, manifest) {
      return Err(Codec(PayloadTooLarge)), manifest;
    }
    forall i | 0 <= i < |manifest|
      ensures Roomy(keys, usable[i], Size(manifest[i]))
    {
      assert usable[i] in usable;
      RangesRoomy(keys, usable[i], Size(manifest[i]));
    }
    var store := Blank(p, keys, usable, manifest, encoded);
    var fs := Populate(g, store);
    r := Ok(fs);
  }

  /** A store of zeroed blocks over the images, with the superblock of a plain pool in block 0. */
  method Blank(p: Primitives, keys: Option<StoreKeys>, usable: seq<Medium>, manifest: seq<CarrierRange>,
      encoded: seq<byte>) returns (store: BlockStore)
    requires p.Lawful() && |usable| == |manifest| && Contiguous(manifest) && |encoded| <= UB
    requires End(manifest, |manifest|) > 0 && forall i {:trigger manifest[i]} :: 0 <= i < |manifest| ==>
      Roomy(keys, usable[i], Size(manifest[i])) && manifest[i].chunkIndex == i
    ensures fresh(store) && store.Valid() && store.p == p && store.keys == keys && store.Unsaved()
    ensures store.total == End(manifest, |manifest|) && store.Blank == {}
    ensures forall b :: 0 < b < store.total ==> store.Contents[b] == ZERO_BLOCK
    ensures store.Contents[0] == if keys.None? then Pad(encoded) else ZERO_BLOCK
    ensures Ranges(store.carriers) == manifest && FirstIsPrimary(store.carriers)
  {
    hide BlockStore.Valid, BlockStore.Unsaved, BlockStore.Remains, Dropped, Roomy, Contiguous;
    store := new BlockStore.NewForFormat(p, keys, usable, manifest);
    assert FirstIsPrimary(store.carriers);
    RemainsNow(store);
    ghost var carriers := store.carriers;
    hide FirstIsPrimary;
    ZeroAll(store);
    if keys.None? {
      var written := store.WriteBlock(0, encoded);
    }
    RolesKept(store, Dropped(carriers), carriers);
  }

  /** The second half of `Format`: bitmap, root directory and inode table over zeroed blocks. */
  method Populate(g: Geometry, store: BlockStore) returns (fs: AlbumFs)
    requires g.Sound() && g == Plan(g.total) && store.Valid() && store.total == g.total && store.Blank == {}
    requires forall b :: 0 < b < g.total ==> store.Contents[b] == ZERO_BLOCK
    requires store.Unsaved() && FirstIsPrimary(store.carriers)
    modifies store
    ensures fresh(fs) && fresh(fs.bitmap) && Formatted(fs, g) && fs.store == store && fs.geo == g
    ensures store.Contents[0] == old(store.Contents)[0] && Carries(store, Ranges(old(store.carriers)))
  {
    hide BlockStore.Valid, BlockStore.Stored, InitialBlock, EncodeInode, InodeOfBytes, Mounts.Ties, FreshVol, Plan,
        Patch, BitmapBlocks.Recorded, Bitmap.Valid, Pad, Mounts.OnImages, BlockStore.Remains, Carries,
        BlockStore.Unsaved, FirstIsPrimary, Ranges;
    PlanFacts(g.total);
    var bitmap := Reserve(g);
    FillRegions(g, store, bitmap);
    FreshTies(g, store.Contents);
    FreshUsed(g);
    Mounts.FlushedImages(g, store, FreshVol(g));
    fs := new AlbumFs.Over(g, store, bitmap, FreshVol(g));
  }

  /** The writes of `Populate`, and the flush at the end. */
  method FillRegions(g: Geometry, store: BlockStore, bitmap: Bitmap)
    requires g.Sound() && store.Valid() && store.total == g.total && store.Blank == {}
    requires 0 < g.bitmapStart <= g.inodeTableStart < g.dataStart < g.total
    requires bitmap.Valid() && bitmap.total == g.total
    requires forall b :: 0 < b < g.total ==> store.Contents[b] == ZERO_BLOCK
    requires store.Unsaved() && FirstIsPrimary(store.carriers)
    modifies store
    ensures store.Valid() && store.Blank == {} && store.Flushed()
    ensures BitmapBlocks.Recorded(g, store.Contents, bitmap.Marked)
    ensures forall b :: g.dataStart <= b < g.total ==>
      store.Contents[b] == if b == g.dataStart then InitialBlock(1, 1) else ZERO_BLOCK
    ensures forall b :: g.inodeTableStart <= b < g.dataStart ==>
              store.Contents[b] == if b == g.inodeTableStart
                then Patch(ZERO_BLOCK, 0, EncodeInode(RootInode(g.dataStart))) else ZERO_BLOCK
    ensures store.Contents[0] == old(store.Contents)[0] && Carries(store, Ranges(old(store.carriers)))
  {
    hide BlockStore.Valid, BlockStore.Stored, InitialBlock, EncodeInode, Patch, BitmapBlocks.Recorded, Bitmap.Valid,
        Pad, BlockStore.Remains, Carries, Dropped, WrittenBack, BlockStore.Unsaved, AllDirty, FirstIsPrimary;
    RemainsNow(store);
    ghost var roles := store.carriers;
    var written := store.WriteBlock(g.dataStart, InitialBlock(1, 1));
    var table := store.ReadBlock(g.inodeTableStart);
    written := store.WriteBlock(g.inodeTableStart, Patch(table.value, 0, EncodeInode(RootInode(g.dataStart))));
    BitmapBlocks.WriteBitmap(g, store, bitmap);
    RolesKept(store, Dropped(roles), roles);
    ghost var carriers := store.carriers;
    UnsavedNow(store);
    written := store.Flush();
    FlushedCarries(store, carriers);
  }

  lemma FreshUsed(g: Geometry)
    requires g.Sound() && g.inodeCount >= 1
    ensures FreshVol(g).used == Below(g.dataStart + 1)
  {
  }

  lemma PlanFacts(total: nat)
    ensures var g := Plan(total);
            && g.total == total && g.inodeCount >= 64
            && 0 < g.bitmapStart <= g.inodeTableStart < g.dataStart
  {
  }

  /** A bitmap with the blocks before the data region and the first data block marked. */
  method Reserve(g: Geometry) returns (bitmap: Bitmap)
    requires g.Sound()
    ensures fresh(bitmap) && bitmap.Valid() && bitmap.total == g.total && bitmap.Marked == Below(g.dataStart + 1)
  {
    hide Bitmap.Valid, Below;
    bitmap := new Bitmap(g.total);
    assert bitmap.Marked == Below(0);
    for block := 0 to g.dataStart
      invariant fresh(bitmap) && bitmap.Valid() && bitmap.Marked == Below(block)
    {
      BelowNext(block);
      bitmap.Set(block);
    }
    BelowNext(g.dataStart);
    ghost var before := bitmap.Marked;
    var rootBlock := bitmap.AllocFrom(g.dataStart);
    assert g.dataStart !in before;
    assert rootBlock.Ok? && !(g.dataStart < rootBlock.value);
  }
}
