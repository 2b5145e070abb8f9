/** The effects of the tree operations on the whole volume. */
module FsOps {
  import opened Bytes
  import Layout
  import opened Wrappers
  import opened Inodes
  import opened Volume
  import opened Space
  import opened Files
  import opened Dirents
  import opened DirBlocks
  import opened Directories
  import opened DirTree
  import opened Namespaces
  import opened FsTree

  // ---------------------------------------------------------------- create

  /** The effect of creating file `c` under `name` in directory `d`. */
  ghost predicate CreateDone(v: Vol, v': Vol, lo: nat, d: nat, name: Name, c: nat) {
    && 0 < d && DirInode(v, d) && |v.table| <= MAX_INO
    && 0 < c < |v.table| == |v'.table| && !v.table[c].Live()
    && LookupName(v, d, name) == Ok(None)
    && DirInode(v', d) && v'.table[c].Live() && !v'.table[c].IsDir() && v'.table[c].size == 0
    && SameAttributes(v.table[d], v'.table[d]) && v'.table[d].Stamped()
    && Kept(v, v', {c, d})
    && (v'.table[d].size == v.table[d].size ==> SameBlocks(v, v', d))
    && (Exact(v, lo) && v.table[d].size % 4032 == 0 ==> Exact(v', lo)) && (Aligned(v) ==> Aligned(v'))
    && (Shaped(v) ==> Shaped(v') && name !in Names(Recs(v, d)) && Ns(v') == Created(Ns(v), d, name, c))
    && (TreeOk(v) && !IsDot(name) ==> TreeOk(v'))
    && (Blocks(v, d) && !NoRoomIn(v, d, |name|) ==> v'.table[d].size == v.table[d].size && v'.used == v.used)
    && (Blocks(v, d) ==>
      && Blocks(v', d) && |name| < 0x100
      && DirPages(v', d) == PagesAdded(DirPages(v, d), c, name, FILE_TYPE_FILE))
  }

  /** Two steps that keep directories whole. */
  lemma AlignedSteps(v: Vol, v1: Vol, v2: Vol, i: nat, j: nat)
    requires OthersKept(v, v1, i) && KeepsWhole(v, v1, i) && OthersKept(v1, v2, j) && KeepsWhole(v1, v2, j)
    ensures Aligned(v) ==> Aligned(v1) && Aligned(v2)
  {
    hide T, Page, OthersKept, Aligned, KeepsWhole;
    AlignedStep(v, v1, i);
    AlignedStep(v1, v2, j);
  }

  lemma TimesWhole(v: Vol, v': Vol, i: nat)
    requires DirInode(v, i) && DirInode(v', i) && SameButTimes(v.table[i], v'.table[i])
    ensures KeepsWhole(v, v', i)
  {
  }

  lemma GoneWhole(v: Vol, v': Vol, i: nat)
    requires i < |v'.table| && v'.table[i] == FREE_INODE
    ensures KeepsWhole(v, v', i)
  {
  }

  lemma LinkWhole(v: Vol, v': Vol, i: nat, n': Inode)
    requires DirInode(v, i) && v' == v.(table := v.table[i := n']) && n'.size == v.table[i].size
    ensures KeepsWhole(v, v', i)
  {
  }

  lemma AlignedAt(v: Vol, d: nat)
    requires Aligned(v) && DirInode(v, d)
    ensures v.table[d].size % 4032 == 0
  {
  }

  lemma CreateFinished(v: Vol, v1: Vol, v2: Vol, lo: nat, d: nat, name: Name, c: nat, n: Inode)
    requires Safe(v, lo) && 0 < d && DirInode(v, d) && 0 < c < |v.table| <= MAX_INO && !v.table[c].Live()
    requires LookupName(v, d, name) == Ok(None)
    requires NoPointersIn(n) && n.blockCount == 0 && n.size == 0 && n.nlink == 1 && n.Live() && !n.IsDir()
    requires v1 == v.(table := v.table[c := n])
    requires DirAdded(v1, v2, lo, d, c, name, FILE_TYPE_FILE)
    ensures Safe(v2, lo) && CreateDone(v, v2, lo, d, name, c)
  {
    hide T, Page, Safe, Exact, DirOk, Blocks, Shaped, NodeOf, Recs, Names, OthersKept, Kept, DirAdded, Utf8,
        LookupName, NsOk, SameBlocks, Aligned;
    FreshStored(v, v1, lo, c, n);
    NodeKept(v, v1, c, d);
    AddedNode(v1, v2, lo, d, c, name, FILE_TYPE_FILE);
    OthersTable(v1, v2, d);
    KeptRefl(v);
    KeptStep(v, v, v1, {}, c);
    KeptStep(v, v1, v2, {} + {c}, d);
    assert {} + {c} + {d} == {c, d};
    BlocksKept(v, v1, c, d);
    AlignedSteps(v, v1, v2, c, d);
    CreatedBlocks(v, v1, v2, lo, d, name, c);
    CreatedPages(v, v1, v2, lo, d, name, c);
    InPlace(v, v1, v2, lo, c, d, name, c, FILE_TYPE_FILE);
    NsUpdate(v, v1, c);
    NsUpdate(v1, v2, d);
    FileNode(v1, c);
    FreeNode(v, c);
    DirNodeOf(v, d);
    if Shaped(v) {
      ShapedAt(v, d);
      LookupNames(v, d, name);
      assert name !in Names(Recs(v, d));
      assert Ns(v2) == Created(Ns(v), d, name, c);
    }
    if TreeOk(v) && !IsDot(name) {
      var home :| NsOk(Ns(v), home);
      CreatedOk(Ns(v), home, d, name, c);
    }
  }

  /** Inode `c` is free. */
  predicate UnusedInode(v: Vol, c: nat) {
    0 < c < |v.table| && !v.table[c].Live()
  }

  /** The outcome of creating a file: no inode has to have the name, one has to be free, and the
      entry has to be possible. */
  ghost function CreateResult(v: Vol, lo: nat, d: nat, name: Name): Result<()> {
    match LookupName(v, d, name)
    case Err(e) => Err(e)
    case Ok(Some(_)) => Err(Exists)
    case Ok(None) =>
      if !exists c :: UnusedInode(v, c) then Err(NoSpace) else AddResult(v, |FreeData(v, lo)|, d, name)
  }

  /** The same for a directory, which takes a block before its entry is added. */
  ghost function MkdirResult(v: Vol, lo: nat, d: nat, name: Name): Result<()> {
    match LookupName(v, d, name)
    case Err(e) => Err(e)
    case Ok(Some(_)) => Err(Exists)
    case Ok(None) =>
      if !exists c :: UnusedInode(v, c) then Err(NoSpace)
      else if FreeData(v, lo) == {} then Err(NoSpace)
      else AddResult(v, |FreeData(v, lo)| - 1, d, name)
  }

  /** A create takes an inode before it knows whether the entry can be added. */
  ghost predicate CreateTakes(v: Vol, d: nat, name: Name) {
    LookupName(v, d, name) == Ok(None) && exists c :: UnusedInode(v, c)
  }

  ghost predicate MkdirTakes(v: Vol, lo: nat, d: nat, name: Name) {
    CreateTakes(v, d, name) && FreeData(v, lo) != {}
  }

  lemma SameFree(v: Vol, v': Vol, lo: nat)
    requires v'.used == v.used && |v'.data| == |v.data|
    ensures FreeData(v', lo) == FreeData(v, lo)
  {
  }

  /** An entry could not be added for want of space: the error is also that of a name too long. */
  predicate OutOfSpace(name: Name, e: FsError) {
    e == NoSpace && |name| <= 0xFF
  }

  /** What a create or mkdir that fails with error `e` leaves: nothing, or the inode it has taken for
      an entry that could then not be added.  Blocks are lost for want of space only. */
  ghost predicate CreateLeft(v: Vol, v': Vol, lo: nat, name: Name, e: FsError, taken: bool) {
    if taken then
      && (exists c: nat :: Orphaned(v, v', c))
      && (!OutOfSpace(name, e) && Accounted(v, lo) ==> Accounted(v', lo))
    else v' == v
  }

  /** The entry for a new inode is refused once the inode is stored. */
  lemma EntryRefused(v: Vol, v1: Vol, v2: Vol, lo: nat, c: nat, d: nat, name: Name,
      free: int, e: FsError)
    requires LookupName(v, d, name).Ok? && UnusedInode(v, c) && (forall j :: 0 < j < c ==> v.table[j].Live())
    requires OthersKept(v, v1, c) && v1.table[c].Live() && EntryLeft(v1, v2, lo, d, name, e)
    requires Exact(v, lo) ==> Exact(v1, lo)
    requires v1.table[c].size % 4032 == 0
    ensures Safe(v2, lo) && CreateLeft(v, v2, lo, name, e, true)
    ensures AddResult(v1, free, d, name) == AddResult(v, free, d, name)
  {
    hide T, Page, Safe, Utf8, LookupName, OthersKept, Unseen, AddResult, Orphaned, Exact, Aligned, LeftOver, AllTaken;
    AlignedStep(v, v1, c);
    FoundDirectory(v, d, name);
    IntactUnseen(v, v1, v2, c, lo);
    UnseenSafe(v1, v2, lo);
    AddResultElsewhere(v, v1, c, free, d, name);
  }

  lemma OneLessFree(v: Vol, v1: Vol, lo: nat, b: nat)
    requires lo <= b < |v.data| == |v1.data| && b !in v.used && v1.used == v.used + {b}
    ensures b in FreeData(v, lo) && |FreeData(v1, lo)| == |FreeData(v, lo)| - 1
  {
    assert FreeData(v, lo) == FreeData(v1, lo) + {b};
  }

  lemma NoneFree(v: Vol, lo: nat)
    ensures AllTaken(v, lo) <==> FreeData(v, lo) == {}
  {
    if FreeData(v, lo) == {} {
      forall c | lo <= c < |v.data|
        ensures c in v.used
      {
        assert c !in FreeData(v, lo);
      }
    }
  }

  /** The outcome of unlinking a file. */
  function UnlinkResult(v: Vol, d: nat, name: Name): Result<()> {
    match LookupName(v, d, name)
    case Err(e) => Err(e)
    case Ok(None) => Err(NotFound)
    case Ok(Some(c)) =>
      if c == 0 || c >= |v.table| || !v.table[c].Live() then Err(NotFound)
      else if v.table[c].IsDir() then Err(IsDir)
      else RemoveResult(v, d, name)
  }

  /** A listing without names other than `.` and `..`. */
  predicate OnlyDots(listed: seq<Listed>) {
    forall k :: 0 <= k < |listed| ==> IsDot(listed[k].name)
  }

  /** The outcome of removing a directory; one that contains itself is removed before that is
      noticed. */
  ghost function RmdirResult(v: Vol, d: nat, name: Name): Result<()> {
    match LookupName(v, d, name)
    case Err(e) => Err(e)
    case Ok(None) => Err(NotFound)
    case Ok(Some(c)) =>
      if c == 0 || c >= |v.table| || !v.table[c].Live() then Err(NotFound)
      else if !v.table[c].IsDir() then Err(NotDir)
      else
        match ListingOf(v, c)
        case Err(e) => Err(e)
        case Ok(listed) =>
          if !OnlyDots(listed) then Err(NotEmpty)
          else if RemoveResult(v, d, name).Err? then RemoveResult(v, d, name)
          else if c == d then Err(NotFound)
          else Ok(())
  }

  /** Directory `d` contains itself as `name`, holds no other name, and can lose this one. */
  ghost predicate OwnChild(v: Vol, d: nat, name: Name) {
    && LookupName(v, d, name) == Ok(Some(d))
    && ListingOf(v, d).Ok? && OnlyDots(ListingOf(v, d).value) && RemoveResult(v, d, name).Ok?
  }

  /** What an rmdir that fails leaves: everything, but for a directory that is its own child,
      which is gone by the time its parent is missed. */
  ghost predicate RmdirLeft(v: Vol, v': Vol, lo: nat, d: nat, name: Name) {
    if OwnChild(v, d, name) then
      && OthersKept(v, v', d) && d < |v'.table| && v'.table[d] == FREE_INODE
      && (Accounted(v, lo) ==> Accounted(v', lo))
    else v' == v
  }

  /** A listing without other names is that of an empty directory. */
  lemma EmptyListing(v: Vol, c: nat)
    requires 0 < c && DirInode(v, c) && Blocks(v, c) && ListingOf(v, c).Ok?
    ensures OnlyDots(ListingOf(v, c).value) <==> Empty(Names(Recs(v, c)))
  {
    hide ListingOf, Blocks, T, Utf8, IsDot, Names, Recs, Page;
    if k :| 0 <= k < |ListingOf(v, c).value| && !IsDot(ListingOf(v, c).value[k].name) {
      NotAllDots(v, c, k);
    }
    if OnlyDots(ListingOf(v, c).value) {
      AllDots(v, c);
    }
  }

  lemma FoundAmongNames(v: Vol, d: nat, name: Name)
    requires 0 < d && DirInode(v, d) && LookupName(v, d, name).Ok?
    ensures Blocks(v, d) ==> (LookupName(v, d, name).value.Some? <==> name in Names(Recs(v, d)))
  {
    hide T, Page, Utf8, Names, Recs, LookupName, Blocks;
    if Blocks(v, d) {
      LookupNames(v, d, name);
    }
  }

  lemma CreatedPages(v: Vol, v1: Vol, v2: Vol, lo: nat, d: nat, name: Name, c: nat)
    requires OthersKept(v, v1, c) && c != d && d < |v.table| && c <= MAX_INO
    requires DirAdded(v1, v2, lo, d, c, name, FILE_TYPE_FILE)
    ensures d < |v2.table| && |name| < 0x100
    ensures Blocks(v, d) ==>
      Blocks(v2, d) && DirPages(v2, d) == PagesAdded(DirPages(v, d), c, name, FILE_TYPE_FILE)
  {
    hide T, Page, DirAdded, Utf8, PagesAdded, Blocks, OthersKept;
    AddedBlocks(v1, v2, lo, d, c, name, FILE_TYPE_FILE);
    OthersTable(v, v1, c);
    ReadsSame(v, v1, c, d);
    if Blocks(v, d) {
      AddedPages(v1, v2, lo, d, c, name, FILE_TYPE_FILE);
    } else {
      AddedLength(v1, v2, lo, d, c, name, FILE_TYPE_FILE);
    }
  }

  lemma AddedLength(v: Vol, v': Vol, lo: nat, d: nat, ino: u64, name: Name, fileType: byte)
    requires DirAdded(v, v', lo, d, ino, name, fileType)
    ensures |name| < 0x100
  {
    hide AddScan, PageChanged, PageAppended;
  }

  lemma CreatedBlocks(v: Vol, v1: Vol, v2: Vol, lo: nat, d: nat, name: Name, c: nat)
    requires OthersKept(v, v1, c) && c != d && d < |v.table| && c <= MAX_INO
    requires DirAdded(v1, v2, lo, d, c, name, FILE_TYPE_FILE)
    ensures d < |v2.table| && (v2.table[d].size == v.table[d].size ==> SameBlocks(v, v2, d))
  {
    hide T, Page, DirAdded, Utf8;
    AddedBlocks(v1, v2, lo, d, c, name, FILE_TYPE_FILE);
    if v2.table[d].size == v.table[d].size {
      forall t: Slot
        ensures T(v2, d, t) == T(v, d, t)
      {
        assert T(v2, d, t) == T(v1, d, t);
      }
    }
  }

  // ---------------------------------------------------------------- mkdir

  /** A directory whose inode has not changed reads as before. */
  lemma ReadsSame(v: Vol, v': Vol, i: nat, x: nat)
    requires OthersKept(v, v', i) && x != i && x < |v.table|
    ensures Blocks(v', x) <==> Blocks(v, x)
    ensures DirPages(v', x) == DirPages(v, x) && Recs(v', x) == Recs(v, x)
  {
    hide T, Page, Walk, Utf8, DirRecs, SlotOf;
    forall m: nat
      ensures T(v', x, SlotOf(m)) == T(v, x, SlotOf(m)) && Page(v', x, m) == Page(v, x, m)
    {
    }
    assert DirPages(v', x) == DirPages(v, x);
  }

  lemma PagesElsewhere(v: Vol, v': Vol, i: nat, j: nat)
    requires OthersKept(v, v', i) && i != j && j < |v.table|
    ensures DirPages(v', j) == DirPages(v, j)
  {
    hide T, Page;
  }

  /** An entry for which there is room brings no block along. */
  lemma InPlace(v: Vol, v1: Vol, v2: Vol, lo: nat, c: nat, d: nat, name: Name, ino: u64, fileType: byte)
    requires OthersKept(v, v1, c) && c != d && d < |v.table| && DirAdded(v1, v2, lo, d, ino, name, fileType)
    ensures d < |v2.table|
    ensures Blocks(v, d) && !NoRoomIn(v, d, |name|) ==> v2.used == v1.used && v2.table[d].size == v.table[d].size
  {
    hide T, Page, Safe, Walk, Utf8, NoRoom, RequiredLen, RecsOf, Blocks, NewPage, Tight, AddScan;
    assert v1.table[d] == v.table[d];
    if Blocks(v, d) {
      BlocksKept(v, v1, c, d);
      PagesElsewhere(v, v1, c, d);
      AddedPages(v1, v2, lo, d, ino, name, fileType);
      BlocksSize(v1, d);
      AddScanTiled(v1, d, 0, ino, name, fileType);
    }
  }

  lemma InitialNames(c: nat, d: nat)
    requires 0 < c <= MAX_INO && 0 < d <= MAX_INO
    ensures var entries := InitialEntries(c, d);
            && Names(entries) == map[DOT := Target(c, FILE_TYPE_DIR), DOTDOT := Target(d, FILE_TYPE_DIR)]
            && Unique(entries) && FirstBlock(entries)
  {
    hide Utf8, Names;
    var entries := InitialEntries(c, d);
    NamesOne(entries[0]);
    NamesOne(entries[1]);
    NamesConcat([entries[0]], [entries[1]]);
    assert [entries[0]] + [entries[1]] == entries;
  }

  /** The first contents of directory `c` under `d`. */
  lemma NewDirNode(v: Vol, c: nat, d: nat)
    requires c < |v.table| <= MAX_INO && 0 < c && 0 < d <= MAX_INO
    requires DirInode(v, c) && v.table[c].size == 4032 && v.table[c].nlink == 2
    requires T(v, c, SlotOf(0)) != 0 && Page(v, c, 0) == InitialBlock(c, d)
    ensures DirOk(v, c) && NodeOf(v, c) == NewDir(c, d)
  {
    hide T, Page, Utf8, InitialBlock, SlotOf, Names, Unique, Walk, DirRecs, InitialEntries, FirstBlock;
    InitialWalk(c, d);
    InitialNames(c, d);
    assert DirPages(v, c) == [InitialBlock(c, d)];
    DirRecsOne(InitialBlock(c, d));
    assert Recs(v, c) == InitialEntries(c, d);
  }

  /** The effect of making directory `c` under `name` in directory `d`. */
  ghost predicate MkdirDone(v: Vol, v': Vol, lo: nat, d: nat, name: Name, c: nat) {
    && 0 < d && DirInode(v, d) && |v.table| <= MAX_INO
    && 0 < c < |v.table| == |v'.table| && !v.table[c].Live()
    && LookupName(v, d, name) == Ok(None)
    && DirInode(v', c) && v'.table[c].size == 4032 && Page(v', c, 0) == InitialBlock(c, d)
    && SameAttributes(v.table[d].(nlink := Increment(v.table[d].nlink)), v'.table[d]) && v'.table[d].Stamped()
    && Kept(v, v', {c, d})
    && (Blocks(v, d) && !NoRoomIn(v, d, |name|) ==>
      v'.used == v.used + {v'.table[c].direct[0]} && v'.table[d].size == v.table[d].size)
    && (Exact(v, lo) && v.table[d].size % 4032 == 0 ==> Exact(v', lo)) && (Aligned(v) ==> Aligned(v'))
    && (v.table[d].nlink < 0xFFFF_FFFF ==>
      && (Shaped(v) ==> Shaped(v') && name !in Names(Recs(v, d)) && Ns(v') == MadeDir(Ns(v), d, name, c))
      && (TreeOk(v) && !IsDot(name) ==> TreeOk(v')))
  }

  lemma MkdirFinished(v: Vol, v1: Vol, v2: Vol, v3: Vol, lo: nat, d: nat, name: Name, c: nat, b: nat, n: Inode,
      n': Inode)
    requires Safe(v, lo) && 0 < d && DirInode(v, d) && 0 < c < |v.table| <= MAX_INO && !v.table[c].Live()
    requires LookupName(v, d, name) == Ok(None)
    requires b !in v.used && lo <= b < |v.data| <= MAX_INO
    requires n.direct == NO_POINTERS[0 := b] && n.single == 0 && n.double == 0
    requires n.blockCount == 1 && n.size == 4032 && n.Live() && n.IsDir() && n.nlink == 2
    requires v1 == Vol(v.table[c := n], v.data[b := InitialBlock(c, d)], v.used + {b}, v.owner[b := Ref(c, Direct(0))])
    requires DirAdded(v1, v2, lo, d, c, name, FILE_TYPE_DIR)
    requires d < |v2.table| && SameButTimes(v2.table[d].(nlink := Increment(v2.table[d].nlink)), n') && n'.Stamped()
    requires v3 == v2.(table := v2.table[d := n'])
    ensures Safe(v3, lo) && MkdirDone(v, v3, lo, d, name, c)
  {
    hide T, Page, Safe, Exact, DirOk, Blocks, Shaped, NodeOf, Recs, Names, OthersKept, Kept, DirAdded, Utf8,
        LookupName, NsOk, InitialBlock, Aligned;
    DirStored(v, v1, lo, c, b, InitialBlock(c, d), n);
    NewDirNode(v1, c, d);
    NodeKept(v, v1, c, d);
    AddedNode(v1, v2, lo, d, c, name, FILE_TYPE_DIR);
    LinkedNode(v2, v3, lo, d, n');
    OthersTable(v, v1, c);
    OthersTable(v1, v2, d);
    OthersTable(v2, v3, d);
    KeptRefl(v);
    KeptStep(v, v, v1, {}, c);
    KeptStep(v, v1, v2, {} + {c}, d);
    KeptStep(v, v2, v3, {} + {c} + {d}, d);
    assert {} + {c} + {d} + {d} == {c, d};
    BlocksKept(v, v1, c, d);
    AlignedSteps(v, v1, v2, c, d);
    AlignedSteps(v1, v2, v3, d, d);
    InPlace(v, v1, v2, lo, c, d, name, c, FILE_TYPE_DIR);
    SamePage(v1, v2, d, c, 0);
    SamePage(v2, v3, d, c, 0);
    NsUpdate(v, v1, c);
    NsUpdate(v1, v2, d);
    NsUpdate(v2, v3, d);
    FreeNode(v, c);
    DirNodeOf(v, d);
    DirNodeOf(v1, d);
    DirNodeOf(v2, d);
    if v.table[d].nlink < 0xFFFF_FFFF && Shaped(v) {
      ShapedAt(v, d);
      LookupNames(v, d, name);
      assert name !in Names(Recs(v, d));
      assert Ns(v3) == MadeDir(Ns(v), d, name, c);
      if TreeOk(v) && !IsDot(name) {
        var home :| NsOk(Ns(v), home);
        MadeDirOk(Ns(v), home, d, name, c);
      }
    }
  }

  // ---------------------------------------------------------------- unlink

  /** The first block of directory `d` has an entry for `name`. */
  predicate InFirst(v: Vol, d: nat, name: Name) {
    FindNamed(RecsOf(Page(v, d, 0)), name) < |RecsOf(Page(v, d, 0))|
  }

  /** The effect of unlinking `name`, standing for file `c`, from directory `d`. */
  ghost predicate UnlinkDone(v: Vol, v': Vol, lo: nat, d: nat, name: Name, c: nat) {
    && 0 < d && DirInode(v, d) && 0 < c < |v.table| == |v'.table|
    && LookupName(v, d, name) == Ok(Some(c))
    && v.table[c].Live() && !v.table[c].IsDir()
    && Kept(v, v', {c, d}) && SameBlocks(v, v', d)
    && DirInode(v', d) && OlderPointers(v.table[d], v'.table[d]) && v'.table[d].size == v.table[d].size
    && SameAttributes(v.table[d], v'.table[d]) && v'.table[d].Stamped()
    && (Blocks(v, d) ==>
      && DirPages(v', d) == PagesRemoved(DirPages(v, d), name)
      && (Blocks(v', d) <==> AllTiled(DirPages(v', d))))
    && (Exact(v, lo) && v.table[d].size % 4032 == 0 ==>
      Exact(v', lo) && v'.used == if v.table[c].nlink > 1 then v.used else v.used - Owned(v, c))
    && (Aligned(v) ==> Aligned(v'))
    && (v.table[c].nlink > 1 ==>
      && v'.table[c] == v.table[c].(nlink := v.table[c].nlink - 1, ctime := v'.table[c].ctime)
      && forall m: nat {:trigger Page(v', c, m)} :: Page(v', c, m) == Page(v, c, m))
    && (v.table[c].nlink <= 1 ==>
      && v'.table[c] == FREE_INODE
      && (Shaped(v) && Removable(v, d, name) && !IsDot(name) ==>
        && Shaped(v')
        && name in Names(Recs(v, d)) && Names(Recs(v, d))[name].ino == c
        && Ns(v') == Unlinked(Ns(v), d, name)
        && (TreeOk(v) ==> TreeOk(v'))))
  }

  lemma UnlinkFinished(v: Vol, v1: Vol, v2: Vol, lo: nat, d: nat, name: Name, c: nat)
    requires Safe(v, lo) && 0 < d && DirInode(v, d) && 0 < c < |v.table|
    requires LookupName(v, d, name) == Ok(Some(c)) && v.table[c].Live() && !v.table[c].IsDir() && v.table[c].nlink <= 1
    requires DirRemoved(v, v1, lo, d, name)
    requires OthersKept(v1, v2, c) && c < |v2.table| && Safe(v2, lo)
    requires v2.table[c] == FREE_INODE && (Exact(v1, lo) ==> Exact(v2, lo) && v2.used == v1.used - Owned(v1, c))
    ensures UnlinkDone(v, v2, lo, d, name, c)
  {
    hide T, Page, Safe, Exact, DirOk, Blocks, Shaped, NodeOf, Recs, Names, OthersKept, Kept, DirRemoved, Utf8,
        LookupName, NsOk, Removable, Owned, SameBlocks, Aligned;
    RemovedNode(v, v1, lo, d, name);
    RemovedUsed(v, v1, lo, d, name);
    RemovedBlocks(v, v1, lo, d, name);
    BlocksElsewhere(v, v1, v2, c, d);
    OthersTable(v, v1, d);
    OthersTable(v1, v2, c);
    PagesAfter(v, v1, v2, lo, c, d, name);
    AlignedSteps(v, v1, v2, d, c);
    OwnedKept(v, v1, d, c);
    KeptRefl(v);
    KeptStep(v, v, v1, {}, d);
    KeptStep(v, v1, v2, {} + {d}, c);
    assert {} + {d} + {c} == {c, d};
    NsUpdate(v, v1, d);
    NsUpdate(v1, v2, c);
    FreeNode(v2, c);
    FileNode(v, c);
    DirNodeOf(v, d);
    if Shaped(v) && Removable(v, d, name) && !IsDot(name) {
      ShapedAt(v, d);
      LookupNames(v, d, name);
      assert Ns(v2) == Unlinked(Ns(v), d, name);
      if TreeOk(v) {
        var home :| NsOk(Ns(v), home);
        UnlinkedOk(Ns(v), home, d, name);
      }
    }
  }

  /** The blocks of the directory once another inode has changed as well. */
  lemma PagesAfter(v: Vol, v1: Vol, v2: Vol, lo: nat, c: nat, d: nat, name: Name)
    requires DirRemoved(v, v1, lo, d, name) && OthersKept(v1, v2, c) && c != d && d < |v1.table| == |v2.table|
    ensures Blocks(v, d) ==>
      && DirPages(v2, d) == PagesRemoved(DirPages(v, d), name)
      && (Blocks(v2, d) <==> AllTiled(DirPages(v2, d)))
  {
    hide DirRemoved, T, Page, Utf8, Blocks, PagesRemoved, HolderOf, AllTiled, OthersKept;
    ReadsSame(v1, v2, c, d);
    if Blocks(v, d) {
      RemovedPages(v, v1, lo, d, name);
      RemovedBlocksOk(v, v1, lo, d, name);
    }
  }

  /** Links and times of a directory do not matter. */
  lemma PagesRelinked(v: Vol, v': Vol, d: nat, n': Inode)
    requires d < |v.table| && SamePointers(v.table[d], n') && n'.size == v.table[d].size
    requires v' == v.(table := v.table[d := n'])
    ensures DirPages(v', d) == DirPages(v, d)
  {
    assert forall m: nat {:trigger Page(v', d, m)} :: Page(v', d, m) == Page(v, d, m);
  }

  lemma RemovedUsed(v: Vol, v': Vol, lo: nat, d: nat, name: Name)
    requires DirRemoved(v, v', lo, d, name)
    ensures v'.used == v.used && v'.owner == v.owner
  {
    hide T, Page, Safe, Utf8, Tight, OthersKept;
  }

  /** A removal from directory `d` leaves what inode `c` owns alone. */
  lemma OwnedKept(v: Vol, v': Vol, d: nat, c: nat)
    requires OthersKept(v, v', d) && c != d && v'.used == v.used && v'.owner == v.owner
    ensures Owned(v', c) == Owned(v, c)
  {
    hide Page, T;
  }

  // ---------------------------------------------------------------- rmdir

  /** The effect of removing directory `c`, called `name`, from directory `d`. */
  ghost predicate RmdirDone(v: Vol, v': Vol, lo: nat, d: nat, name: Name, c: nat) {
    && 0 < d && DirInode(v, d) && 0 < c < |v.table| == |v'.table|
    && LookupName(v, d, name) == Ok(Some(c))
    && DirInode(v, c) && c != d
    && (Blocks(v, c) ==> Empty(Names(Recs(v, c))))
    && Kept(v, v', {c, d})
    && DirInode(v', d) && OlderPointers(v.table[d], v'.table[d])
    && SameAttributes(v.table[d].(nlink := SaturatingDecrement(v.table[d].nlink)), v'.table[d])
    && v'.table[d].Stamped()
    && (Blocks(v, d) ==> DirPages(v', d) == PagesRemoved(DirPages(v, d), name))
    && v'.table[c] == FREE_INODE
    && (Exact(v, lo) && v.table[d].size % 4032 == 0 ==> Exact(v', lo) && v'.used == v.used - Owned(v, c))
    && (Aligned(v) ==> Aligned(v'))
    && (Shaped(v) && Removable(v, d, name) && !IsDot(name) && v.table[d].nlink > 0 ==>
      && Shaped(v')
      && name in Names(Recs(v, d)) && Names(Recs(v, d))[name].ino == c
      && Ns(v') == RemovedChild(Ns(v), d, name)
      && (TreeOk(v) ==> TreeOk(v')))
  }

  lemma RmdirFinished(v: Vol, v1: Vol, v2: Vol, v3: Vol, lo: nat, d: nat, name: Name, c: nat, n': Inode)
    requires Safe(v, lo) && 0 < d && DirInode(v, d) && 0 < c < |v.table| && c != d
    requires LookupName(v, d, name) == Ok(Some(c)) && DirInode(v, c) && (Blocks(v, c) ==> Empty(Names(Recs(v, c))))
    requires DirRemoved(v, v1, lo, d, name)
    requires OthersKept(v1, v2, c) && c < |v2.table| && Safe(v2, lo)
    requires v2.table[c] == FREE_INODE && (Exact(v1, lo) ==> Exact(v2, lo) && v2.used == v1.used - Owned(v1, c))
    requires d < |v2.table| && v3 == v2.(table := v2.table[d := n'])
    requires SameButTimes(v2.table[d].(nlink := SaturatingDecrement(v2.table[d].nlink)), n') && n'.Stamped()
    ensures Safe(v3, lo) && RmdirDone(v, v3, lo, d, name, c)
  {
    hide T, Page, Safe, Exact, DirOk, Blocks, Shaped, NodeOf, Recs, Names, OthersKept, Kept, DirRemoved, Utf8,
        LookupName, NsOk, Removable, Owned, Empty, Aligned, KeepsWhole, PagesRemoved, DirPages,
        AllTiled;
    RemovedNode(v, v1, lo, d, name);
    RemovedUsed(v, v1, lo, d, name);
    OthersTable(v, v1, d);
    OthersTable(v1, v2, c);
    PagesAfter(v, v1, v2, lo, c, d, name);
    PagesRelinked(v2, v3, d, n');
    OwnedKept(v, v1, d, c);
    NodeKept(v1, v2, c, d);
    LinkedNode(v2, v3, lo, d, n');
    TimesWhole(v, v1, d);
    GoneWhole(v1, v2, c);
    LinkWhole(v2, v3, d, n');
    AlignedSteps(v, v1, v2, d, c);
    AlignedSteps(v1, v2, v3, c, d);
    OthersTable(v2, v3, d);
    KeptRefl(v);
    KeptStep(v, v, v1, {}, d);
    KeptStep(v, v1, v2, {} + {d}, c);
    KeptStep(v, v2, v3, {} + {d} + {c}, d);
    assert {} + {d} + {c} + {d} == {c, d};
    NsUpdate(v, v1, d);
    NsUpdate(v1, v2, c);
    NsUpdate(v2, v3, d);
    FreeNode(v2, c);
    DirNodeOf(v, c);
    DirNodeOf(v, d);
    DirNodeOf(v1, d);
    if Shaped(v) && Removable(v, d, name) && !IsDot(name) && v.table[d].nlink > 0 {
      ShapedAt(v, d);
      ShapedAt(v, c);
      LookupNames(v, d, name);
      assert Ns(v3) == RemovedChild(Ns(v), d, name);
      if TreeOk(v) {
        var home :| NsOk(Ns(v), home);
        RemovedChildOk(Ns(v), home, d, name);
      }
    }
  }

  // ---------------------------------------------------------------- rename

  /** The name of inode `c` has been entered as `name'` in `d'` and then taken out as `name` of
      `d`: the two directories hold what a move of the entry leaves. */
  lemma EntryMoved(v: Vol, v2: Vol, v3: Vol, lo: nat, d: nat, name: Name, d': nat, name': Name, c: u64, fileType: byte)
    requires Safe(v, lo) && DirInode(v, d) && DirInode(v, d') && |v.table| <= MAX_INO
    requires DirAdded(v, v2, lo, d', c, name', fileType) && DirRemoved(v2, v3, lo, d, name)
    ensures Safe(v3, lo) && Kept(v, v3, {d, d'}) && DirInode(v3, d) && DirInode(v3, d')
    ensures OlderPointers(v.table[d], v3.table[d]) && OlderPointers(v.table[d'], v3.table[d'])
    ensures Accounted(v, lo) ==> Accounted(v3, lo)
    ensures EntryMovable(v, d, name, d', name', c, fileType) ==>
      && Shaped(v3)
      && (forall x {:trigger Ns(v3)[x]} :: 0 <= x < |v.table| ==>
        Ns(v3)[x] == if DirInode(v, x) then MovedNode(Ns(v)[x], Target(c, fileType), d, name, d', name', x, false)
          else Ns(v)[x])
  {
    hide T, Page, Safe, Exact, DirOk, Blocks, Shaped, NodeOf, Recs, Names, OthersKept, Kept, DirAdded, DirRemoved,
        Utf8, Removable, SameButTimes, Aligned;
    AddedNode(v, v2, lo, d', c, name', fileType);
    OthersTable(v, v2, d');
    RemovedNode(v2, v3, lo, d, name);
    OthersTable(v2, v3, d);
    KeptRefl(v);
    KeptStep(v, v, v2, {}, d');
    KeptStep(v, v2, v3, {} + {d'}, d);
    assert {} + {d'} + {d} == {d, d'};
    TimesWhole(v2, v3, d);
    AlignedSteps(v, v2, v3, d', d);
    if Accounted(v, lo) {
      AlignedAt(v, d');
      AlignedAt(v2, d);
    }
    SamePointersOlder(v2.table[d], v3.table[d]);
    OlderTrans(v.table[d], v2.table[d], v3.table[d]);
    if d != d' {
      SamePointersOlder(v.table[d], v2.table[d]);
      SamePointersOlder(v2.table[d'], v3.table[d']);
      OlderTrans(v.table[d'], v2.table[d'], v3.table[d']);
    }
    if EntryMovable(v, d, name, d', name', c, fileType) {
      MovedShape(v, v2, v3, lo, d, name, d', name', c, fileType);
    }
  }

  lemma SamePointersOlder(n: Inode, n': Inode)
    requires n == n' || SameButTimes(n, n')
    ensures OlderPointers(n, n')
  {
  }

  lemma OlderTrans(n: Inode, n1: Inode, n2: Inode)
    requires OlderPointers(n, n1) && OlderPointers(n1, n2)
    ensures OlderPointers(n, n2)
  {
  }

  /** The blocks of directory `d` when the entry `name'` has been added to directory `d'`. */
  ghost function PagesOnce(v: Vol, d: nat, d': nat, name': Name, c: u64, fileType: byte): seq<Layout.Block>
    requires d < |v.table|
  {
    if d == d' && |name'| < 0x100 then PagesAdded(DirPages(v, d), c, name', fileType) else DirPages(v, d)
  }

  /** The case in which moving an entry meets its purpose: well-formed directories, a free new
      name, an entry of the recorded kind whose removal, once the new entry is there, does not
      cross a dead record. */
  ghost predicate EntryMovable(v: Vol, d: nat, name: Name, d': nat, name': Name, c: u64, fileType: byte) {
    && DirInode(v, d) && DirInode(v, d')
    && Shaped(v) && PagesRemovable(PagesOnce(v, d, d', name', c, fileType), name)
    && c != 0 && name in Names(Recs(v, d)) && Names(Recs(v, d))[name] == Target(c, fileType)
    && name' !in Names(Recs(v, d')) && !IsDot(name)
  }

  lemma MovedShape(v: Vol, v2: Vol, v3: Vol, lo: nat, d: nat, name: Name, d': nat, name': Name, c: u64, fileType: byte)
    requires Safe(v, lo) && |v.table| <= MAX_INO && EntryMovable(v, d, name, d', name', c, fileType)
    requires DirAdded(v, v2, lo, d', c, name', fileType) && DirRemoved(v2, v3, lo, d, name)
    ensures Shaped(v3)
    ensures forall x {:trigger Ns(v3)[x]} :: 0 <= x < |v.table| ==>
      Ns(v3)[x] == if DirInode(v, x) then MovedNode(Ns(v)[x], Target(c, fileType), d, name, d', name', x, false)
        else Ns(v)[x]
  {
    hide T, Page, Safe, Exact, DirOk, Blocks, Shaped, NodeOf, Recs, Names, OthersKept, DirAdded, DirRemoved, Utf8,
        SameButTimes, PagesRemovable, PagesAdded;
    ShapedAt(v, d);
    ShapedAt(v, d');
    AddedNode(v, v2, lo, d', c, name', fileType);
    OthersTable(v, v2, d');
    NsUpdate(v, v2, d');
    DirNodeOf(v, d);
    DirNodeOf(v, d');
    DirNodeOf(v2, d);
    if d == d' {
      AddedPages(v, v2, lo, d, c, name', fileType);
    } else {
      NodeKept(v, v2, d', d);
      BlocksKept(v, v2, d', d);
      PagesElsewhere(v, v2, d', d);
    }
    ShapedAt(v2, d);
    RemovedNode(v2, v3, lo, d, name);
    OthersTable(v2, v3, d);
    NsUpdate(v2, v3, d);
    OtherNodes(v);
  }

  lemma OtherNodes(v: Vol)
    ensures forall x {:trigger Ns(v)[x]} :: 0 <= x < |v.table| ==> (DirInode(v, x) <==> Ns(v)[x].Dir?)
  {
    hide Recs, Names, Utf8;
  }

  /** `..` of directory `c` has been pointed at `d'`, and the link it stood for has gone from `d`
      to `d'`. */
  lemma LinkTurned(v: Vol, v1: Vol, v2: Vol, v3: Vol, lo: nat, c: nat, d: nat, d': nat, n2: Inode, n3: Inode)
    requires Safe(v, lo) && DirInode(v, c) && DirInode(v, d) && DirInode(v, d') && d != d' && 0 < d' <= MAX_INO
    requires DirRedirected(v, v1, lo, c, DOTDOT, d')
    requires d < |v1.table| && SameButTimes(v1.table[d].(nlink := SaturatingDecrement(v1.table[d].nlink)), n2)
    requires v2 == v1.(table := v1.table[d := n2])
    requires d' < |v2.table| && SameButTimes(v2.table[d'].(nlink := Increment(v2.table[d'].nlink)), n3)
    requires v3 == v2.(table := v2.table[d' := n3])
    ensures Safe(v3, lo) && Kept(v, v3, {c, d, d'})
    ensures Accounted(v, lo) ==> Accounted(v3, lo)
    ensures Shaped(v) ==>
      && Shaped(v3)
      && (forall x {:trigger Ns(v3)[x]} :: 0 <= x < |v.table| ==> Ns(v3)[x] == TurnedNode(Ns(v)[x], c, d, d', x))
  {
    hide T, Page, Safe, Exact, DirOk, Shaped, NodeOf, Recs, Names, OthersKept, Kept, DirRedirected, Utf8, Aligned;
    RedirectedNode(v, v1, lo, c, d');
    OthersTable(v, v1, c);
    LinkedNode(v1, v2, lo, d, n2);
    OthersTable(v1, v2, d);
    LinkedNode(v2, v3, lo, d', n3);
    OthersTable(v2, v3, d');
    AlignedSteps(v, v1, v2, c, d);
    AlignedSteps(v1, v2, v3, d, d');
    if Accounted(v, lo) {
      AlignedAt(v, c);
    }
    KeptRefl(v);
    KeptStep(v, v, v1, {}, c);
    KeptStep(v, v1, v2, {} + {c}, d);
    KeptStep(v, v2, v3, {} + {c} + {d}, d');
    assert {} + {c} + {d} + {d'} == {c, d, d'};
    if Shaped(v) {
      ShapedAt(v, c);
      NsUpdate(v, v1, c);
      ShapedAt(v1, d);
      NsUpdate(v1, v2, d);
      ShapedAt(v2, d');
      NsUpdate(v2, v3, d');
      DirNodeOf(v, c);
      DirNodeOf(v, d);
      DirNodeOf(v, d');
      DirNodeOf(v1, d);
      DirNodeOf(v1, d');
      DirNodeOf(v2, d');
      forall x | 0 <= x < |v.table|
        ensures Ns(v3)[x] == TurnedNode(Ns(v)[x], c, d, d', x)
      {
        assert x != c ==> Ns(v1)[x] == Ns(v)[x];
        if x == d {
          assert Ns(v3)[d] == Dir(SaturatingDecrement(v.table[d].nlink), Ns(v1)[d].names);
        } else if x == d' {
          assert Ns(v3)[d'] == NodeOf(v3, d');
          assert NodeOf(v3, d') == Dir(n3.nlink, Names(Recs(v2, d')));
          assert NodeOf(v2, d') == Dir(v2.table[d'].nlink, Names(Recs(v2, d')));
          assert Ns(v2)[d'] == NodeOf(v2, d');
          assert Ns(v2)[d'] == Ns(v1)[d'];
          assert v2.table[d'].nlink == v1.table[d'].nlink;
          assert v1.table[d'].nlink == v.table[d'].nlink;
          assert Ns(v3)[d'] == Dir(Increment(v.table[d'].nlink), Ns(v1)[d'].names);
        } else {
          assert Ns(v3)[x] == Ns(v1)[x];
        }
      }
    }
  }

  /** Node `x` after the turn. */
  ghost function TurnedNode(n: Node, c: nat, d: nat, d': nat, x: nat): Node
    requires d' <= MAX_INO
  {
    var names := if n.Dir? && x == c && DOTDOT in n.names then n.names[DOTDOT := Target(d', n.names[DOTDOT].fileType)]
                 else if n.Dir? then n.names else map[];
    if !n.Dir? then n
    else if x == d then Dir(if n.nlink == 0 then 0 else n.nlink - 1, names)
    else if x == d' then Dir(if n.nlink == 0xFFFF_FFFF then 0 else n.nlink + 1, names)
    else Dir(n.nlink, names)
  }

  /** A file that keeps a link keeps its blocks. */
  lemma UnlinkKept(v: Vol, v1: Vol, v2: Vol, lo: nat, d: nat, name: Name, c: nat, n': Inode)
    requires Safe(v, lo) && 0 < d && DirInode(v, d) && 0 < c < |v.table|
    requires LookupName(v, d, name) == Ok(Some(c)) && v.table[c].Live() && !v.table[c].IsDir() && v.table[c].nlink > 1
    requires DirRemoved(v, v1, lo, d, name) && c < |v1.table| && v2 == v1.(table := v1.table[c := n'])
    requires n' == v.table[c].(nlink := v.table[c].nlink - 1, ctime := n'.ctime)
    ensures UnlinkDone(v, v2, lo, d, name, c)
  {
    hide T, Page, Safe, Exact, Blocks, Shaped, Recs, Names, OthersKept, Kept, DirRemoved, Utf8, LookupName,
        Removable, Owned, SameBlocks, Aligned;
    RemovedNode(v, v1, lo, d, name);
    RemovedBlocks(v, v1, lo, d, name);
    RemovedUsed(v, v1, lo, d, name);
    OthersTable(v, v1, d);
    SameTree(v1, c, n', v2, lo);
    RelinkedExact(v1, v2, lo, c, n');
    AlignedSteps(v, v1, v2, d, c);
    PagesAfter(v, v1, v2, lo, c, d, name);
    BlocksElsewhere(v, v1, v2, c, d);
    KeptRefl(v);
    KeptStep(v, v, v1, {}, d);
    forall m: nat
      ensures Page(v2, c, m) == Page(v, c, m)
    {
      assert Page(v2, c, m) == Page(v1, c, m);
      SamePage(v, v1, d, c, m);
    }
    KeptStep(v, v1, v2, {} + {d}, c);
    assert {} + {d} + {c} == {c, d};
  }

  lemma SamePage(v: Vol, v': Vol, i: nat, j: nat, m: nat)
    requires OthersKept(v, v', i) && i != j
    ensures Page(v', j, m) == Page(v, j, m)
  {
    hide T, Page;
  }

  lemma RmdirTarget(v: Vol, c: nat)
    ensures 0 < c && DirInode(v, c) && Blocks(v, c) ==> ListingOf(v, c).Ok?
  {
    hide ListingOf, Blocks, T, Utf8;
    if 0 < c && DirInode(v, c) && Blocks(v, c) {
      ListingComplete(v, c, DOT);
    }
  }

  lemma NotAllDots(v: Vol, c: nat, k: nat)
    requires ListingOf(v, c).Ok? && k < |ListingOf(v, c).value| && !IsDot(ListingOf(v, c).value[k].name)
    requires c < |v.table|
    ensures Blocks(v, c) ==> !Empty(Names(Recs(v, c)))
  {
    hide T, Page, Utf8, Entries, Names, Recs, Blocks, Listing;
    if Blocks(v, c) {
      ListingComplete(v, c, ListingOf(v, c).value[k].name);
    }
  }

  lemma AllDots(v: Vol, c: nat)
    requires ListingOf(v, c).Ok? && c < |v.table|
    requires OnlyDots(ListingOf(v, c).value)
    ensures Blocks(v, c) ==> Empty(Names(Recs(v, c)))
  {
    hide T, Page, Utf8, Entries, Names, Recs, Blocks, Listing, IsDot;
    if Blocks(v, c) {
      forall name | name in Names(Recs(v, c))
        ensures IsDot(name)
      {
        ListingComplete(v, c, name);
      }
    }
  }

  lemma OthersTrans(v: Vol, v1: Vol, v2: Vol, i: nat)
    requires OthersKept(v, v1, i) && OthersKept(v1, v2, i)
    ensures OthersKept(v, v2, i)
  {
    hide T, Page;
    forall j: nat, t: Slot | j != i
      ensures T(v2, j, t) == T(v, j, t)
    {
      assert T(v2, j, t) == T(v1, j, t);
    }
    forall j: nat, m: nat | j != i
      ensures Page(v2, j, m) == Page(v, j, m)
    {
      assert Page(v2, j, m) == Page(v1, j, m);
    }
  }

  /** A directory that contained itself has been removed. */
  lemma RemovedSelf(v: Vol, v1: Vol, v2: Vol, c: nat, d: nat)
    requires OthersKept(v, v1, d) && OthersKept(v1, v2, c) && c == d
    ensures Spared(v, v2, {d})
  {
    hide T, Page;
    KeptRefl(v);
    KeptStep(v, v, v1, {}, d);
    KeptStep(v, v1, v2, {} + {d}, d);
    assert {} + {d} + {d} == {d};
    SparedKept(v, v2, {d});
  }
}
