/** Runs in which a write fails on the way and later operations show it. */
module FailedRuns {
  import opened Bytes
  import opened Wrappers
  import opened Inodes
  import opened Geometry
  import opened BlockStores
  import opened Volume
  import opened Space
  import opened Files
  import opened FileOps
  import opened Dirents
  import opened DirBlocks
  import opened DirTree
  import opened FsTree
  import opened FsOps
  import opened RootedTrees
  import Renames
  import LostTrees
  import opened FailedWrites
  import opened Album
  import opened Formatting

  const F: Name := [102]

  /** A volume in good order whose inode 2 is an empty file, with `free` data blocks free. */
  ghost predicate EmptyFile(g: Geometry, v: Vol, free: nat) {
    && |v.table| == g.inodeCount + 1 && Exact(v, g.dataStart) && IsFile(g, v, 2)
    && v.table[2].size == 0 && v.table[2].blockCount == 0 && NoPointersIn(v.table[2])
    && |FreeData(v, g.dataStart)| == free
  }

  /** A freshly formatted volume has room for a one-letter name, and all data blocks but one free. */
  lemma FreshRoot(g: Geometry)
    requires g.Sound() && g.inodeCount >= 2 && g.dataStart < g.total
    ensures var v, lo := FreshVol(g), g.dataStart;
            && |v.table| == g.inodeCount + 1 && |v.data| == g.total && Exact(v, lo)
            && CreateResult(v, lo, 1, F) == Ok(()) && DirInode(v, 1) && Blocks(v, 1) && !NoRoomIn(v, 1, 1)
            && v.table[1].Live() && |FreeData(v, lo)| == g.total - lo - 1
  {
    hide Exact, Safe, NodeOf, RootedTree, InitialBlock, Utf8, LookupName, AddResult, Blocks, DirOk, NoRoomIn, Page, T,
        FreeData;
    var v, lo := FreshVol(g), g.dataStart;
    FreshIsGood(g);
    assert v.table[1] == RootInode(lo) && v.table[2] == FREE_INODE;
    FreshPage(g);
    LostTrees.RoomInNew(v, 1, 1, 1);
    RootedIsTree(v);
    ShapedAt(v, 1);
    Renames.OkBlocks(v, 1);
    NotNamed(v);
    assert UnusedInode(v, 2);
    RoomSuffices(v, |FreeData(v, lo)|, 1, F);
    FreshFree(g);
  }

  lemma FreshPage(g: Geometry)
    requires g.Sound() && g.inodeCount >= 2 && g.dataStart < g.total
    ensures Page(FreshVol(g), 1, 0) == InitialBlock(1, 1)
  {
    hide InitialBlock;
  }

  /** The root is empty. */
  lemma NotNamed(v: Vol)
    requires TreeOk(v) && DirInode(v, 1) && NodeOf(v, 1) == Namespaces.NewDir(1, 1)
    ensures LookupName(v, 1, F) == Ok(None)
  {
    hide LookupName, Page, T, Utf8, NodeOf, DirOk;
    Renames.LookupNode(v, 1, F);
  }

  lemma FreshFree(g: Geometry)
    requires g.Sound() && g.inodeCount >= 1 && g.dataStart < g.total
    ensures |FreeData(FreshVol(g), g.dataStart)| == g.total - g.dataStart - 1
  {
    FreshUsed(g);
    var v, lo := FreshVol(g), g.dataStart;
    assert Below(g.total) == FreeData(v, lo) + Below(lo + 1);
  }

  lemma FileMade(g: Geometry, v: Vol, c: nat)
    requires g.Sound() && g.inodeCount >= 2 && g.dataStart < g.total && |v.data| == g.total
    requires CreateDone(FreshVol(g), v, g.dataStart, 1, F, c) && NewFile(FreshVol(g), v, c, 0x1A4)
    ensures c == 2 && EmptyFile(g, v, g.total - g.dataStart - 1)
  {
    hide Exact, Safe, Utf8, LookupName, Blocks, NoRoomIn, Page, T, FreeData, Kept, Shaped, TreeOk, Ns, AddResult,
        FreshVol;
    FreshRoot(g);
    FreshSecond(g);
    BlocksSize(FreshVol(g), 1);
    SameFree(FreshVol(g), v, g.dataStart);
  }

  lemma FreshSecond(g: Geometry)
    requires g.Sound() && g.inodeCount >= 2 && g.dataStart < g.total
    ensures |FreshVol(g).table| == g.inodeCount + 1 && |FreshVol(g).data| == g.total && !FreshVol(g).table[2].Live()
  {
  }

  /** Format a pool and create a file in it. */
  method CreateFirst(fs: AlbumFs) returns (created: Result<nat>)
    requires Formatted(fs, fs.geo) && fs.geo.inodeCount >= 2
    modifies fs.store, fs.bitmap, fs`vol, fs`saved
    ensures fs.Valid() && Safe(fs.vol, fs.geo.dataStart)
    ensures created == Ok(2) && EmptyFile(fs.geo, fs.vol, fs.geo.total - fs.geo.dataStart - 1)
  {
    hide AlbumFs.Valid, Safe, Exact, CreateDone, CreateResult, NewFile, AlbumFs.Durable, FreshVol, EmptyFile, Utf8, F;
    FreshIsGood(fs.geo);
    FreshRoot(fs.geo);
    created := fs.Create(1, F, 0x1A4);
    FileMade(fs.geo, fs.vol, created.value);
  }

  // ---------------------------------------------------------------- a refused write that shows

  /** The paths of a write within one logical block, and of one that goes on into the next. */
  lemma OneBlock(offset: nat, len: nat)
    requires 0 < len && offset % 4032 + len <= 4032
    ensures Paths(offset, len) == PathTo(SlotOf(offset / 4032))
  {
    hide SlotOf, PathTo;
    PathsMore(offset, 0, len);
    NoPaths(offset);
  }

  lemma NoPaths(offset: nat)
    ensures Paths(offset, 0) == {}
  {
    hide SlotOf, PathTo;
  }

  lemma TwoBlocks(offset: nat, len: nat, len': nat)
    requires 0 < len && offset % 4032 + len == 4032 && 0 < len' <= 4032
    ensures Paths(offset, len + len') == PathTo(SlotOf(offset / 4032)) + PathTo(SlotOf(offset / 4032 + 1))
  {
    hide SlotOf, PathTo;
    OneBlock(offset, len);
    PathsMore(offset, len, len');
    assert (offset + len) / 4032 == offset / 4032 + 1;
  }

  lemma EmptyTree(g: Geometry, v: Vol, free: nat)
    requires EmptyFile(g, v, free)
    ensures forall s: Slot {:trigger T(v, 2, s)} :: T(v, 2, s) == 0
  {
    hide T, Page, Exact, FreeData;
    NothingUnder(v, 2);
  }

  lemma FileShape(g: Geometry, v: Vol, v': Vol, offset: nat, data: seq<byte>)
    requires |v.table| == g.inodeCount + 1 && WriteDone(g, v, v', 2, offset, data)
    ensures |v'.table| == g.inodeCount + 1 && IsFile(g, v', 2)
    ensures v'.table[2].size == Max(v.table[2].size, offset + |data|)
    ensures Takes(v, v', 2, Paths(offset, |data|)) && Filled(v', 2, Paths(offset, |data|))
  {
    hide T, Page, Exact, TrimAt, Byte, Paths, Takes, Filled;
  }

  /** Inode 2 is a file of 100 bytes in its first block, and no data block is free. */
  ghost predicate SmallFile(g: Geometry, v: Vol) {
    && |v.table| == g.inodeCount + 1 && IsFile(g, v, 2) && v.table[2].size == 100
    && T(v, 2, Direct(0)) != 0 && T(v, 2, Direct(1)) == 0 && FreeData(v, g.dataStart) == {}
  }

  lemma FirstFits(g: Geometry, v: Vol)
    requires EmptyFile(g, v, 1)
    ensures WriteResult(g, v, 2, 0, 100) == Ok(100)
  {
    hide T, Exact, FreeData, Paths;
    OneBlock(0, 100);
    assert |PathTo(Direct(0))| == 1;
    SubsetSize(Lacking(v, 2, PathTo(Direct(0))), PathTo(Direct(0)));
  }

  lemma FirstWritten(g: Geometry, v: Vol, v': Vol, first: seq<byte>)
    requires EmptyFile(g, v, 1) && |first| == 100 && Safe(v', g.dataStart) && WriteDone(g, v, v', 2, 0, first)
    ensures SmallFile(g, v')
    ensures ReadResult(g, v', 2, 0, 100) == Ok(first)
  {
    hide T, Page, Exact, TrimAt, Byte, Safe, Paths, FreeData, WriteDone, ReadResult;
    EmptyTree(g, v, 1);
    OneBlock(0, 100);
    FileShape(g, v, v', 0, first);
    DoneResult(g, v, v', 2, 0, first);
    assert Lacking(v, 2, PathTo(Direct(0))) == {Direct(0)};
    assert Direct(0) in PathTo(SlotOf(0));
    ReadBack(g, v, v', 2, 0, first);
  }

  /** With no block free, a write that needs a second one is refused. */
  lemma SecondRefused(g: Geometry, v: Vol)
    requires SmallFile(g, v)
    ensures WriteResult(g, v, 2, 200, 5000) == Err(NoSpace)
  {
    hide T, FreeData, Paths;
    TwoBlocks(200, 3832, 1168);
    assert Direct(1) in Lacking(v, 2, Paths(200, 5000));
  }

  /** It has filled the first block by then. */
  lemma SecondStops(g: Geometry, v: Vol, v': Vol, data: seq<byte>)
    requires SmallFile(g, v) && |data| == 5000 && WriteFailed(g, v, v', 2, 200, data, NoSpace)
    ensures PartlyWritten(v, v', 2, 200, data, 3832) && v'.table == v.table
  {
    hide T, FreeData, Paths, PartlyWritten, LeftOver, AllTaken;
    OneBlock(200, 1);
    assert Lacking(v, 2, Paths(200, 1)) == {};
    var consumed: nat :| WriteAborted(g, v, v', 2, 200, data, consumed, NoSpace);
    PartlyFacts(v, v', 2, 200, data, consumed);
  }

  /** The bytes of the file after the refused write: the same below its end, those of the write
      from byte 200 on. */
  lemma LeftBehind(g: Geometry, v: Vol, v': Vol, data: seq<byte>)
    requires SmallFile(g, v) && |data| == 5000 && PartlyWritten(v, v', 2, 200, data, 3832)
    ensures forall pos: nat {:trigger Byte(v', 2, pos)} ::
      (pos < 100 ==> Byte(v', 2, pos) == Byte(v, 2, pos)) && (200 <= pos < 4000 ==> Byte(v', 2, pos) == data[pos - 200])
  {
    hide T, Page, Byte, OthersKept;
    forall pos: nat | 200 <= pos < 4000
      ensures Byte(v', 2, pos) == data[pos - 200]
    {
      assert pos / 4032 == 0;
      RootOf(v);
    }
  }

  lemma RootOf(v: Vol)
    requires 2 < |v.table|
    ensures RootPointer(v.table[2], SlotOf(0)) == T(v, 2, Direct(0))
  {
  }

  /** Reading the file, before and after the truncate. */
  lemma StillUnseen(g: Geometry, v: Vol, v': Vol, data: seq<byte>)
    requires SmallFile(g, v) && |data| == 5000 && PartlyWritten(v, v', 2, 200, data, 3832)
    ensures ReadResult(g, v', 2, 0, 5000) == ReadResult(g, v, 2, 0, 100)
  {
    hide T, Page, Byte;
    LeftBehind(g, v, v', data);
    assert Contents(v', 2)[0..100] == Contents(v, 2)[0..100];
  }

  lemma NowSeen(g: Geometry, v: Vol, v1: Vol, v2: Vol, data: seq<byte>)
    requires SmallFile(g, v) && |data| == 5000 && PartlyWritten(v, v1, 2, 200, data, 3832)
    requires Resized(v1, v2, g.dataStart, 2, 4000)
    ensures |v2.table| == g.inodeCount + 1 && ReadResult(g, v2, 2, 200, 3800) == Ok(data[..3800])
  {
    hide T, Page, Byte, Safe, Mapped, MappedOutside, Shortfall;
    LeftBehind(g, v, v1, data);
    forall pos: nat | 200 <= pos < 4000
      ensures Byte(v2, 2, pos) == data[pos - 200]
    {
      assert Byte(v2, 2, pos) == Byte(v1, 2, pos);
    }
    assert Contents(v2, 2)[200..4000] == data[..3800];
  }

  /** The failing run: in a freshly formatted pool with two data blocks, a file of 100 bytes takes
      the last free one.  A write of 5000 bytes at 200 is refused, and reading the file shows its
      100 bytes; making it longer shows bytes of the refused write. */
  method RefusedWriteShows(fs: AlbumFs, first: seq<byte>, data: seq<byte>)
    returns (written: Result<nat>, refused: Result<nat>, before: Result<seq<byte>>, resized: Result<()>,
        shown: Result<seq<byte>>)
    requires Formatted(fs, fs.geo) && fs.geo.inodeCount >= 2 && fs.geo.total == fs.geo.dataStart + 2
    requires |first| == 100 && |data| == 5000
    modifies fs.store, fs.bitmap, fs`vol, fs`saved
    ensures written == Ok(100) && refused == Err(NoSpace) && before == Ok(first)
    ensures resized == Ok(()) && shown == Ok(data[..3800])
  {
    hide AlbumFs.Valid, Safe, Exact, WriteDone, WriteFailed, Resized, Contents, Byte, AlbumFs.Durable, EmptyFile,
        SmallFile, WriteResult, ReadResult, T, PartlyWritten;
    var created := CreateFirst(fs);
    FirstFits(fs.geo, fs.vol);
    ghost var v1 := fs.vol;
    written := fs.Write(2, 0, first);
    FirstWritten(fs.geo, v1, fs.vol, first);
    ghost var v2 := fs.vol;
    SecondRefused(fs.geo, v2);
    refused := fs.Write(2, 200, data);
    ghost var v3 := fs.vol;
    SecondStops(fs.geo, v2, v3, data);
    StillUnseen(fs.geo, v2, v3, data);
    before := fs.Read(2, 0, 5000);
    SmallTruncates(fs.geo, v2, v3);
    resized := fs.Truncate(2, 4000);
    NowSeen(fs.geo, v2, v3, fs.vol, data);
    shown := fs.Read(2, 200, 3800);
  }

  /** Pools of 8 and of 10 blocks are laid out like that. */
  lemma SuchPools()
    ensures Plan(8).Sound() && Plan(8).total == Plan(8).dataStart + 2
    ensures Plan(10).Sound() && Plan(10).total == Plan(10).dataStart + 4
  {
  }

  lemma SmallTruncates(g: Geometry, v: Vol, v': Vol)
    requires SmallFile(g, v) && v'.table == v.table
    ensures TruncateOutcome(g, v', 2, 4000) == Ok(())
  {
    hide T, FreeData;
  }

  // ---------------------------------------------------------------- a block count below zero

  /** Inode 2 is a file that maps block 12 alone, under its single-indirect table, and one data
      block is free. */
  ghost predicate TableFile(g: Geometry, v: Vol) {
    && |v.table| == g.inodeCount + 1 && IsFile(g, v, 2) && v.table[2].size == 48385
    && Counted(v) && Mapped(v, 2) == {12} && T(v, 2, Single) != 0
    && |FreeData(v, g.dataStart)| == 1
  }

  lemma TableFits(g: Geometry, v: Vol)
    requires EmptyFile(g, v, 3)
    ensures WriteResult(g, v, 2, 48384, 1) == Ok(1)
  {
    hide T, Exact, FreeData, Paths;
    OneBlock(48384, 1);
    assert |{Single, SLeaf(0)}| == 2;
    SubsetSize(Lacking(v, 2, PathTo(SLeaf(0))), {Single, SLeaf(0)});
  }

  lemma TableWritten(g: Geometry, v: Vol, v': Vol, first: seq<byte>)
    requires EmptyFile(g, v, 3) && |first| == 1 && Safe(v', g.dataStart) && WriteDone(g, v, v', 2, 48384, first)
    ensures TableFile(g, v')
  {
    hide T, Page, Exact, TrimAt, Byte, Safe, Paths, FreeData, WriteDone, Counted;
    EmptyTree(g, v, 3);
    OneBlock(48384, 1);
    FileShape(g, v, v', 48384, first);
    DoneResult(g, v, v', 2, 48384, first);
    assert Lacking(v, 2, PathTo(SLeaf(0))) == {Single, SLeaf(0)};
    assert {Single, SLeaf(0)} == {Single} + {SLeaf(0)};
    DoneCounted(g, v, v', 48384, first);
    forall m: nat | m < MAX_INDEX
      ensures T(v', 2, SlotOf(m)) != 0 <==> m == 12
    {
      assert SlotOf(m) in PathTo(SLeaf(0)) <==> m == 12;
    }
  }

  lemma DoneCounted(g: Geometry, v: Vol, v': Vol, offset: nat, data: seq<byte>)
    requires |v.table| == g.inodeCount + 1 && WriteDone(g, v, v', 2, offset, data) && Exact(v, g.dataStart)
    ensures Counted(v')
  {
    hide T, Page, TrimAt, Byte, Counted, Paths, Takes, Filled, NoLeak, Full;
  }

  /** What a write of two more blocks lacks: no table, and as many blocks as it reaches. */
  lemma MissingBlocks(g: Geometry, v: Vol)
    requires TableFile(g, v)
    ensures |Lacking(v, 2, Paths(52416, 1))| == 1 && |Lacking(v, 2, Paths(52416, 8064))| == 2
  {
    hide T, FreeData, Paths, Counted;
    OneBlock(52416, 1);
    TwoBlocks(52416, 4032, 4032);
    assert 13 !in Mapped(v, 2) && 14 !in Mapped(v, 2);
    assert Lacking(v, 2, PathTo(SLeaf(1))) == {SLeaf(1)};
    assert Lacking(v, 2, PathTo(SLeaf(1)) + PathTo(SLeaf(2))) == {SLeaf(1), SLeaf(2)};
    assert |{SLeaf(1), SLeaf(2)}| == 2;
  }

  lemma MoreRefused(g: Geometry, v: Vol)
    requires TableFile(g, v)
    ensures WriteResult(g, v, 2, 52416, 8064) == Err(NoSpace)
  {
    hide T, FreeData, Paths, Lacking, Counted;
    MissingBlocks(g, v);
  }

  /** It has mapped block 13 by then, and the stored count does not say so. */
  lemma OneUncounted(g: Geometry, v: Vol, v': Vol, data: seq<byte>)
    requires TableFile(g, v) && |data| == 8064 && WriteFailed(g, v, v', 2, 52416, data, NoSpace)
    ensures v'.table == v.table && Mapped(v', 2) == {12, 13} && Shortfall(v', 2) == 1 && !Counted(v')
  {
    hide T, FreeData, Paths, PartlyWritten, LeftOver, AllTaken, Lacking, Counted, Shortfall, Mapped;
    MissingBlocks(g, v);
    var consumed: nat :| WriteAborted(g, v, v', 2, 52416, data, consumed, NoSpace);
    assert consumed == 4032;
    PartlyFacts(v, v', 2, 52416, data, 4032);
    CountedSurvivesIff(g, v, v', 2, 52416, data, 4032, NoSpace);
    OnlyThirteen(g, v);
    assert {12} + {13} == {12, 13};
  }

  lemma OnlyThirteen(g: Geometry, v: Vol)
    requires TableFile(g, v)
    ensures Uncounted(v, 2, 52416, 4032) == {13}
  {
    hide FreeData, Counted;
    assert 13 !in Mapped(v, 2);
    assert RootPointer(v.table[2], SlotOf(13)) == T(v, 2, Single);
  }

  lemma ThenCut(g: Geometry, v: Vol, v1: Vol, v2: Vol)
    requires |v.table| == g.inodeCount + 1 && IsFile(g, v, 2) && v.table[2].size == 48385
    requires Mapped(v, 2) == {12, 13} && Shortfall(v, 2) == 1
    requires Resized(v, v1, g.dataStart, 2, 56448) && Resized(v1, v2, g.dataStart, 2, 0)
    ensures |v2.table| == g.inodeCount + 1 && v2.table[2].Live() && v2.table[2].blockCount == 0xFFFF_FFFF
  {
    hide T, Page, Byte, Safe, Mapped, Shortfall;
    assert MappedOutside(v, 2, 14, 13) == {12, 13};
    assert MappedOutside(v1, 2, 0, 14) == {};
    CountBelowZero(v, v1, v2, g.dataStart, 2, 56448, 0);
  }

  lemma CutsSucceed(g: Geometry, v: Vol, size: nat)
    requires |v.table| == g.inodeCount + 1 && IsFile(g, v, 2) && size % 4032 == 0
    ensures TruncateOutcome(g, v, 2, size) == Ok(())
  {
  }

  lemma StaysFile(g: Geometry, v: Vol, v': Vol, size: nat)
    requires |v.table| == g.inodeCount + 1 && IsFile(g, v, 2) && Resized(v, v', g.dataStart, 2, size)
    ensures |v'.table| == g.inodeCount + 1 && IsFile(g, v', 2)
  {
    hide T, Page, Byte, Safe, Mapped, Shortfall, MappedOutside;
  }

  /** The failing run: in a freshly formatted pool with four data blocks, a file gets block 12 and
      the table above it.  A write of blocks 13 and 14 finds one free block only and is refused.
      The file is made longer and then cut to nothing: its block count goes below zero. */
  method CountGoesBelowZero(fs: AlbumFs, first: seq<byte>, data: seq<byte>)
    returns (written: Result<nat>, refused: Result<nat>, longer: Result<()>, cut: Result<()>, attr: Result<Inode>)
    requires Formatted(fs, fs.geo) && fs.geo.inodeCount >= 2 && fs.geo.total == fs.geo.dataStart + 4
    requires |first| == 1 && |data| == 8064
    modifies fs.store, fs.bitmap, fs`vol, fs`saved
    ensures written == Ok(1) && refused == Err(NoSpace) && longer == Ok(()) && cut == Ok(())
    ensures attr.Ok? && attr.value.blockCount == 0xFFFF_FFFF
  {
    hide AlbumFs.Valid, Safe, Exact, WriteDone, WriteFailed, Resized, Contents, Byte, AlbumFs.Durable, EmptyFile,
        Mapped, WriteResult, T, PartlyWritten, Shortfall, TruncateOutcome, Counted, FreeData;
    var created := CreateFirst(fs);
    TableFits(fs.geo, fs.vol);
    ghost var v := fs.vol;
    written := fs.Write(2, 48384, first);
    TableWritten(fs.geo, v, fs.vol, first);
    v := fs.vol;
    MoreRefused(fs.geo, v);
    refused := fs.Write(2, 52416, data);
    OneUncounted(fs.geo, v, fs.vol, data);
    v := fs.vol;
    CutsSucceed(fs.geo, v, 56448);
    longer := fs.Truncate(2, 56448);
    ghost var v1 := fs.vol;
    StaysFile(fs.geo, v, v1, 56448);
    CutsSucceed(fs.geo, v1, 0);
    cut := fs.Truncate(2, 0);
    ThenCut(fs.geo, v, v1, fs.vol);
    attr := fs.GetAttr(2);
  }
}
