/** A rename that loses a part of the tree. */
module LostTrees {
  import opened Bytes
  import opened Wrappers
  import opened Geometry
  import opened Volume
  import opened Space
  import opened Files
  import opened Dirents
  import opened DirBlocks
  import opened Directories
  import opened DirTree
  import opened Namespaces
  import opened FsTree
  import opened FsOps
  import opened Renames
  import Reachability
  import opened RootedTrees
  import opened Album
  import opened Formatting

  const A: Name := [97]
  const B: Name := [98]
  const X: Name := [120]

  /** A directory as mkdir makes it has room for a one-letter name. */
  lemma RoomInNew(v: Vol, d: nat, c: u64, parent: u64)
    requires d < |v.table| && v.table[d].size == 4032 && Page(v, d, 0) == InitialBlock(c, parent)
    ensures !NoRoomIn(v, d, 1)
  {
    hide Utf8, InitialBlock, Walk, Page;
    InitialWalk(c, parent);
    DotsAreNames();
    assert DirPages(v, d)[0] == Page(v, d, 0);
    assert HasRoom(RecsOf(Page(v, d, 0))[1], RequiredLen(1));
  }

  /** With three data blocks and no more than two of them in use, there is one to take. */
  lemma SomeFree(v: Vol, lo: nat, a: nat, b: nat)
    requires lo + 3 <= |v.data| && forall c :: c in v.used ==> c < lo || c == a || c == b
    ensures FreeData(v, lo) != {}
  {
    assert lo in FreeData(v, lo) || lo + 1 in FreeData(v, lo) || lo + 2 in FreeData(v, lo);
  }

  /** The root with an empty directory `a` in it. */
  ghost predicate OneChild(v: Vol, lo: nat) {
    && RootedTree(v) && |v.table| > 3 && lo + 3 <= |v.data|
    && DirInode(v, 1) && v.table[1].size == 4032
    && (forall j :: 2 < j < |v.table| ==> !v.table[j].Live())
    && DirInode(v, 2) && v.table[2].nlink == 2 && v.table[2].size == 4032 && Page(v, 2, 0) == InitialBlock(2, 1)
    && (forall c :: c in v.used ==> c < lo || c == lo || c == v.table[2].direct[0])
    && LookupName(v, 1, A) == Ok(Some(2)) && LookupName(v, 2, B) == Ok(None)
  }

  /** And an empty directory `b` in `a`. */
  ghost predicate ChildOfChild(v: Vol) {
    && RootedTree(v) && |v.table| > 3
    && DirInode(v, 1) && v.table[1].size == 4032 && DirInode(v, 2)
    && DirInode(v, 3) && v.table[3].nlink == 2 && v.table[3].size == 4032 && Page(v, 3, 0) == InitialBlock(3, 2)
    && LookupName(v, 1, A) == Ok(Some(2)) && LookupName(v, 2, B) == Ok(Some(3)) && LookupName(v, 3, X) == Ok(None)
  }

  lemma Letters()
    ensures !IsDot(A) && !IsDot(B) && !IsDot(X) && |A| == 1 && |B| == 1 && |X| == 1 && A != B
  {
  }

  /** The freshly formatted volume is an empty root with room for more. */
  ghost predicate EmptyRoot(v: Vol, lo: nat) {
    && RootedTree(v) && 3 < |v.table| <= MAX_INO && lo + 3 <= |v.data|
    && DirInode(v, 1) && v.table[1].nlink == 2 && v.table[1].size == 4032 && Page(v, 1, 0) == InitialBlock(1, 1)
    && (forall j :: 1 < j < |v.table| ==> !v.table[j].Live())
    && (forall c :: c in v.used ==> c < lo || c == lo)
    && LookupName(v, 1, A) == Ok(None)
  }

  lemma FreshRoom(g: Geometry)
    requires g.Sound() && g.inodeCount >= 3 && g.dataStart + 3 <= g.total
    ensures EmptyRoot(FreshVol(g), g.dataStart)
  {
    hide Exact, NodeOf, RootedTree, Safe, InitialBlock, Utf8, LookupName;
    var v := FreshVol(g);
    FreshIsGood(g);
    FreshUsed(g);
    RootedIsTree(v);
    assert v.table[1] == RootInode(g.dataStart);
    LookupNode(v, 1, A);
  }

  /** Nothing stands in the way of making a directory where there is a free inode, a free block
      and room. */
  lemma CanBeMade(v: Vol, lo: nat, d: nat, name: Name, c: nat)
    requires RootedTree(v) && 0 < d && DirInode(v, d) && |name| == 1 && !NoRoomIn(v, d, 1)
    requires LookupName(v, d, name) == Ok(None)
    requires FreeData(v, lo) != {} && UnusedInode(v, c)
    ensures MkdirResult(v, lo, d, name) == Ok(())
  {
    hide NoRoomIn, FreeData, NsOk, DirOk, Page, T, Utf8, AddResult, LookupName;
    RootedIsTree(v);
    ShapedAt(v, d);
    OkBlocks(v, d);
    RoomSuffices(v, |FreeData(v, lo)| - 1, d, name);
  }

  lemma FirstMade(v: Vol, v': Vol, lo: nat, c: nat, mode: u32)
    requires EmptyRoot(v, lo) && MkdirDone(v, v', lo, 1, A, c) && NewDirectory(v, v', c, mode) && |v'.data| == |v.data|
    ensures c == 2 && OneChild(v', lo)
  {
    hide Exact, NodeOf, Safe, InitialBlock, Utf8, LookupName, Page, T, NoRoomIn, NsOk, DirOk, Blocks, Shaped,
        RootedTree, MkdirDone, Kept, A, B;
    Letters();
    MadeFacts(v, v', lo, 1, A, c, 1);
    assert !v.table[2].Live() && c == 2;
    RootedIsTree(v);
    RootedIsTree(v');
    LookupNode(v', 1, A);
    LookupNode(v', 2, B);
  }

  /** What making a directory where there is room leaves. */
  lemma MadeFacts(v: Vol, v': Vol, lo: nat, d: nat, name: Name, c: nat, parent: u64)
    requires RootedTree(v) && DirInode(v, d) && MkdirDone(v, v', lo, d, name, c) && !IsDot(name) && |name| == 1
    requires v.table[d].size == 4032 && Page(v, d, 0) == InitialBlock(d, parent) && v.table[d].nlink == 2
    ensures RootedTree(v') && 0 < c < |v.table| == |v'.table| <= MAX_INO && !v.table[c].Live() && c != d
    ensures v'.table[d].size == 4032 && DirInode(v', d)
    ensures v'.used == v.used + {v'.table[c].direct[0]}
    ensures DirInode(v', c) && v'.table[c].size == 4032 && Page(v', c, 0) == InitialBlock(c, d)
    ensures forall j :: 0 <= j < |v.table| && j != c && j != d ==> v'.table[j] == v.table[j]
    ensures Ns(v)[d].Dir? && Ns(v') == MadeDir(Ns(v), d, name, c)
  {
    hide Exact, NodeOf, Safe, InitialBlock, Utf8, LookupName, Page, T, NoRoomIn, NsOk, DirOk, Blocks, Shaped,
        RootedTree, IsDot, Recs, Names;
    RootedIsTree(v);
    ShapedAt(v, d);
    OkBlocks(v, d);
    RoomInNew(v, d, d, parent);
    MkdirRooted(v, v', lo, d, name, c);
    DirNodeOf(v, d);
    OtherNodes(v');
    assert Ns(v')[d].Dir?;
  }

  lemma SecondMade(v: Vol, v': Vol, lo: nat, c: nat, mode: u32)
    requires OneChild(v, lo) && MkdirDone(v, v', lo, 2, B, c) && NewDirectory(v, v', c, mode) && |v'.data| == |v.data|
    ensures c == 3 && ChildOfChild(v')
  {
    hide Exact, NodeOf, Safe, InitialBlock, Utf8, LookupName, Page, T, NoRoomIn, NsOk, DirOk, Blocks, Shaped,
        RootedTree, MkdirDone, Kept, A, B, X;
    Letters();
    MadeFacts(v, v', lo, 2, B, c, 1);
    assert !v.table[3].Live() && c == 3;
    RootedIsTree(v);
    RootedIsTree(v');
    LookupNode(v, 1, A);
    LookupNode(v', 1, A);
    LookupNode(v', 2, B);
    LookupNode(v', 3, X);
  }

  lemma RootReady(v: Vol, lo: nat)
    requires EmptyRoot(v, lo)
    ensures MkdirResult(v, lo, 1, A) == Ok(())
  {
    hide RootedTree, LookupName, Page, MkdirResult, NoRoomIn, FreeData, Utf8, InitialBlock;
    RoomInNew(v, 1, 1, 1);
    SomeFree(v, lo, lo, lo);
    CanBeMade(v, lo, 1, A, 2);
  }

  lemma ChildReady(v: Vol, lo: nat)
    requires OneChild(v, lo)
    ensures MkdirResult(v, lo, 2, B) == Ok(())
  {
    hide RootedTree, LookupName, Page, MkdirResult, NoRoomIn, FreeData, Utf8, InitialBlock;
    RoomInNew(v, 2, 2, 1);
    SomeFree(v, lo, lo, v.table[2].direct[0]);
    CanBeMade(v, lo, 2, B, 3);
  }

  /** Moving `a` from the root into its own child `b` is within the scope of a rename. */
  lemma MoveInScope(v: Vol)
    requires ChildOfChild(v)
    ensures ProperMove(v, 1, A, 3, X) && Beneath(v, 3, 2)
  {
    hide Exact, NodeOf, Safe, InitialBlock, Utf8, LookupName, Page, T, DirOk, Blocks, Shaped, RootedTree,
        Reachability.Climb, A, B, X, IsDot, InFirst, DirNode, HomeOk, KidDirs;
    Letters();
    RootedIsTree(v);
    InOnlyBlock(v, 1, A);
    FirstBlockMove(v, 1, A, 3, X);
    LookupNode(v, 2, B);
    var home: map<nat, Home> :| NsOk(Ns(v), home);
    assert EntryOk(Ns(v), home, 2, B);
    OneUp(home, 3, 2);
  }

  lemma OneUp(home: map<nat, Home>, x: nat, y: nat)
    requires x != 1 && x in home && home[x].parent == y
    ensures Reachability.Under(home, x, y)
  {
    assert Reachability.Climb(home, [x, y], x, y);
  }

  /** In a directory of one block every name is in the first block. */
  lemma InOnlyBlock(v: Vol, d: nat, name: Name)
    requires TreeOk(v) && DirInode(v, d) && v.table[d].size == 4032 && 0 < d && LookupName(v, d, name).Ok?
    requires LookupName(v, d, name).value.Some?
    ensures InFirst(v, d, name)
  {
    hide Page, T, DirOk, Blocks, Utf8, LookupName, NsOk, FindNamed, RecsOf, Names;
    ShapedAt(v, d);
    OkBlocks(v, d);
    FoundAmongNames(v, d, name);
    assert DirPages(v, d) == [Page(v, d, 0)];
    DirRecsOne(Page(v, d, 0));
    NamesFind(RecsOf(Page(v, d, 0)), name);
  }

  /** Nor is the move refused. */
  lemma MoveNotRefused(v: Vol, mid: Vol, v': Vol, lo: nat, e: FsError)
    requires ChildOfChild(v)
    ensures !RenameRefused(v, mid, v', lo, 1, A, 3, X, e)
  {
    hide Exact, NodeOf, Safe, InitialBlock, Utf8, LookupName, Page, T, NoRoomIn, FreeData, DirOk, Blocks, Shaped,
        RootedTree, A, B, X, IsDot, Unseen, ProperMove, Beneath, NsOk, MoveStopped, AddResult;
    Letters();
    MoveInScope(v);
    RootedIsTree(v);
    ShapedAt(v, 3);
    OkBlocks(v, 3);
    RoomInNew(v, 3, 3, 2);
    RoomSuffices(v, |FreeData(v, lo)|, 3, X);
    if RenameRefused(v, mid, v', lo, 1, A, 3, X, e) {
      NothingReplaced(v, lo, 3, X, 2);
      MoveCannotStop(v, v, v', lo, 1, A, 3, X, 2, e);
    }
  }

  /** Directory `a` of the root, in which `b` is, has been renamed to `x` in `b`. */
  ghost predicate OwnChildMoved(v: Vol, mid: Vol, v': Vol, lo: nat) {
    && RootedTree(v) && LookupName(v, 1, A) == Ok(Some(2)) && LookupName(v, 2, B) == Ok(Some(3)) && Beneath(v, 3, 2)
    && ProperMove(v, 1, A, 3, X) && RenameDone(v, mid, v', lo, 1, A, 3, X)
  }

  lemma MoveLoses(v: Vol, mid: Vol, v': Vol, lo: nat)
    requires ChildOfChild(v) && RenameDone(v, mid, v', lo, 1, A, 3, X)
    ensures OwnChildMoved(v, mid, v', lo) && !RootedTree(v')
  {
    hide RootedTree, LookupName, Page, InitialBlock, Utf8, RenameDone, ProperMove, Beneath, A, B, X;
    MoveInScope(v);
    RenameRooted(v, mid, v', lo, 1, A, 3, X);
  }

  /** The failing run: on a freshly formatted pool make directory `a` and directory `b` in it, and
      rename `a` to `x` in `b`.  Every call succeeds, and the two directories cannot be found from
      the root any more. */
  method MoveIntoOwnChild(fs: AlbumFs) returns (moved: Result<()>, ghost v: Vol, ghost mid: Vol)
    requires Formatted(fs, fs.geo) && fs.geo.inodeCount >= 3 && fs.geo.dataStart + 3 <= fs.geo.total
    modifies fs.store, fs.bitmap, fs`vol, fs`saved
    ensures fs.Valid() && moved.Ok?
    ensures OwnChildMoved(v, mid, fs.vol, fs.geo.dataStart) && !RootedTree(fs.vol)
  {
    hide AlbumFs.Valid, Safe, Exact, FreshVol, EmptyRoot, OneChild, ChildOfChild, MkdirDone, MkdirResult, NewDirectory,
        RenameDone, RenameRefused, LookupName, RootedTree, AlbumFs.Durable, OwnChildMoved, Spared, A, B, X, Utf8;
    ghost var lo := fs.geo.dataStart;
    FreshIsGood(fs.geo);
    FreshRoom(fs.geo);
    v := fs.vol;
    RootReady(v, lo);
    var made := fs.Mkdir(1, A, 0x1ED);
    FirstMade(v, fs.vol, lo, made.value, 0x1ED);
    v := fs.vol;
    ChildReady(v, lo);
    made := fs.Mkdir(2, B, 0x1ED);
    SecondMade(v, fs.vol, lo, made.value, 0x1ED);
    v := fs.vol;
    moved, mid := fs.Rename(1, A, 3, X);
    MoveNotRefused(v, mid, fs.vol, lo, if moved.Err? then moved.error else NoSpace);
    MoveLoses(v, mid, fs.vol, lo);
  }
}
