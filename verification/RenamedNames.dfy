/** When a rename moves one name and leaves all others alone. */
module RenamedNames {
  import opened Bytes
  import Layout
  import opened Wrappers
  import opened Inodes
  import opened Volume
  import opened Files
  import opened Dirents
  import opened DirBlocks
  import opened Directories
  import opened DirTree
  import opened DirRemoval
  import opened Namespaces
  import opened FsTree
  import opened FsOps
  import opened Renames

  /** Directory `x` can be read and shows `names`, `..` aside. */
  ghost predicate Reads(v: Vol, x: nat, names: map<Name, Target>) {
    Blocks(v, x) && Names(Recs(v, x)) - {DOTDOT} == names - {DOTDOT}
  }

  /** Every directory can be read and shows what it showed, but for inode `c`, which has moved from
      `name` in `d` to `name'` in `d'`.  What `..` stands for is left out. */
  ghost predicate OneMoved(v: Vol, v': Vol, d: nat, name: Name, d': nat, name': Name, c: u64)
    requires c < |v.table|
  {
    forall x: nat {:trigger DirInode(v, x)} :: DirInode(v, x) ==>
      Reads(v', x, MovedNames(Names(Recs(v, x)), Target(c, KindOf(v.table[c])), d, name, d', name', x))
  }

  /** Links and times do not matter. */
  lemma ReadsRelinked(v: Vol, v': Vol, i: nat, n': Inode, x: nat)
    requires i < |v.table| && SamePointers(v.table[i], n') && n'.size == v.table[i].size
    requires v' == v.(table := v.table[i := n'])
    requires x < |v.table|
    ensures Blocks(v', x) <==> Blocks(v, x)
    ensures Recs(v', x) == Recs(v, x)
  {
    hide Walk, Utf8, DirRecs, SlotOf;
    forall m: nat
      ensures T(v', x, SlotOf(m)) == T(v, x, SlotOf(m)) && Page(v', x, m) == Page(v, x, m)
    {
    }
    assert DirPages(v', x) == DirPages(v, x);
  }

  /** Once the new entry is there every directory is well formed, and the one the old entry is in
      has the blocks that count. */
  lemma AddedReads(v: Vol, v2: Vol, lo: nat, d: nat, d': nat, name': Name, c: u64, fileType: byte)
    requires DirAdded(v, v2, lo, d', c, name', fileType) && DirInode(v, d) && DirInode(v, d') && Shaped(v) && c != 0
    requires name' !in Names(Recs(v, d'))
    ensures OthersKept(v, v2, d') && Shaped(v2) && DirInode(v2, d') && DirInode(v2, d)
    ensures Names(Recs(v2, d')) == Names(Recs(v, d'))[name' := Target(c, fileType)]
    ensures DirPages(v2, d) == PagesOnce(v, d, d', name', c, fileType)
  {
    hide T, Page, Safe, Exact, DirOk, Blocks, Shaped, Recs, Names, OthersKept, DirAdded, Utf8, PagesAdded, DirPages;
    ShapedAt(v, d);
    ShapedAt(v, d');
    AddedNode(v, v2, lo, d', c, name', fileType);
    OthersTable(v, v2, d');
    NsUpdate(v, v2, d');
    DirNodeOf(v2, d');
    if d == d' {
      OkBlocks(v, d);
      AddedPages(v, v2, lo, d, c, name', fileType);
    } else {
      PagesElsewhere(v, v2, d', d);
    }
  }

  /** A removal from a well-formed directory: right exactly when the walk resumes at the right
      place, and the first block stays readable and keeps its `..` whatever happens. */
  lemma RemovedReads(v: Vol, v': Vol, lo: nat, d: nat, name: Name)
    requires DirRemoved(v, v', lo, d, name) && DirInode(v, d) && DirOk(v, d) && !IsDot(name)
    ensures OthersKept(v, v', d) && DirInode(v', d)
    ensures Reads(v', d, Names(Recs(v, d)) - {name}) <==> PagesRight(DirPages(v, d), name)
    ensures HasUp(v', d)
  {
    hide T, Page, Safe, Exact, Utf8, Names, Blocks, OthersKept, DirRemoved, PagesRight, PagesRemoved, Removable, Walk,
        DirRecs, RecsOf, FirstBlock, Unique, SlotOf;
    var pages := DirPages(v, d);
    RemovedNode(v, v', lo, d, name);
    AllTiledBlocks(v, d);
    RemovedPages(v, v', lo, d, name);
    RemovedBlocksOk(v, v', lo, d, name);
    PagesRightIff(pages, name);
    RemovedUp(pages, name);
    assert pages[0] == Page(v, d, 0);
    if AllTiled(PagesRemoved(pages, name)) {
      ButUp(Names(DirRecs(pages)) - {name}, Names(DirRecs(PagesRemoved(pages, name))));
    }
  }

  /** Maps that agree on `..` and elsewhere are the same. */
  lemma ButUp(names: map<Name, Target>, names': map<Name, Target>)
    requires DOTDOT in names && DOTDOT in names' && names[DOTDOT] == names'[DOTDOT]
    ensures names - {DOTDOT} == names' - {DOTDOT} <==> names == names'
  {
    hide Utf8;
    if names - {DOTDOT} == names' - {DOTDOT} {
      forall nm: Name
        ensures nm in names <==> nm in names'
        ensures nm in names ==> names[nm] == names'[nm]
      {
        assert nm != DOTDOT ==> (nm in names <==> nm in names - {DOTDOT});
        assert nm != DOTDOT ==> (nm in names' <==> nm in names' - {DOTDOT});
        assert nm != DOTDOT && nm in names ==> (names - {DOTDOT})[nm] == (names' - {DOTDOT})[nm];
      }
    }
  }

  /** The first block can be read and holds `..`. */
  ghost predicate UpIn(pages: seq<Layout.Block>) {
    && pages != [] && Walk(pages[0], 0).Ok?
    && FindNamed(RecsOf(pages[0]), DOTDOT) < |RecsOf(pages[0])|
  }

  ghost predicate HasUp(v: Vol, d: nat) {
    d < |v.table| && UpIn(DirPages(v, d))
  }

  lemma UpBinding(pages: seq<Layout.Block>)
    requires UpIn(pages)
    ensures DOTDOT in Names(RecsOf(pages[0])) && DOTDOT in Names(DirRecs(pages))
    ensures Names(DirRecs(pages))[DOTDOT] == Names(RecsOf(pages[0]))[DOTDOT]
  {
    hide Utf8, Walk, RecsOf, Names, FindNamed, DirRecs;
    DirRecsAt(pages, 0);
    DirRecsNone(pages[..0]);
    assert DirRecs(pages) == RecsOf(pages[0]) + DirRecs(pages[1..]);
    NamesConcat(RecsOf(pages[0]), DirRecs(pages[1..]));
    NamesFind(RecsOf(pages[0]), DOTDOT);
  }

  lemma FirstUp(pages: seq<Layout.Block>)
    requires AllTiled(pages) && pages != [] && FirstBlock(RecsOf(pages[0]))
    ensures UpIn(pages)
  {
    hide Utf8, Walk, RecsOf, FindNamed;
    var recs := RecsOf(pages[0]);
    var k :| 0 <= k < |recs| && recs[k].name == DOTDOT;
    assert recs[k].Live();
  }

  /** The removal of another name leaves the `..` of a well-formed first block what it is. */
  lemma RemovedUp(pages: seq<Layout.Block>, name: Name)
    requires AllTiled(pages) && HolderOf(pages, name) < |pages| && FirstBlock(RecsOf(pages[0]))
    requires Unique(DirRecs(pages))
    requires !IsDot(name)
    ensures UpIn(pages) && UpIn(PagesRemoved(pages, name))
    ensures DOTDOT in Names(DirRecs(pages)) && DOTDOT in Names(DirRecs(PagesRemoved(pages, name)))
    ensures Names(DirRecs(PagesRemoved(pages, name)))[DOTDOT] == Names(DirRecs(pages))[DOTDOT]
  {
    hide Utf8, Walk, RecsOf, FindNamed, FirstBlock, Names, DirRecs, Unique, PagesRemoved, EntryRemoved, TakenFrom,
        AllTiled;
    var pages' := PagesRemoved(pages, name);
    FirstUp(pages);
    UpBinding(pages);
    PagesRemovedAt(pages, name);
    if HolderOf(pages, name) == 0 {
      FirstBlockRemovable(RecsOf(pages[0]), FindNamed(RecsOf(pages[0]), name));
      RemovedTiled(pages, name);
      RemovedFirstPage(pages, name);
      RemovedNames(DirRecs(pages), DirRecs(pages'), name);
      FirstUp(pages');
    } else {
      assert pages'[0] == pages[0];
    }
    UpBinding(pages');
  }

  /** Pointing `..` elsewhere changes nothing else. */
  lemma TurnedReads(v: Vol, v': Vol, lo: nat, c: nat, ino: u64)
    requires DirRedirected(v, v', lo, c, DOTDOT, ino) && HasUp(v, c) && ino != 0
    ensures OthersKept(v, v', c) && |v'.table| == |v.table|
    ensures Blocks(v', c) <==> Blocks(v, c)
    ensures Names(Recs(v', c)) - {DOTDOT} == Names(Recs(v, c)) - {DOTDOT}
  {
    hide T, Page, Safe, SlotOf, Tight, Walk, Utf8, DirRecs, RecsOf, Names, FindNamed, TurnFrom, Unique;
    var b := Page(v, c, 0);
    var page := TurnFrom(b, 0, DOTDOT, ino).value.value;
    assert DirPages(v, c)[0] == b;
    TurnWalked(b, DOTDOT, ino);
    TurnedRecs(b, TurnFrom(b, 0, DOTDOT, ino), DOTDOT, ino);
    assert DirPages(v', c) == DirPages(v, c)[0 := page];
    DirRecsAt(DirPages(v, c), 0);
    DirRecsUpdate(DirPages(v, c), 0, page);
    DirRecsNone(DirPages(v, c)[..0]);
    var rest := DirRecs(DirPages(v, c)[1..]);
    assert Recs(v, c) == RecsOf(b) + rest && Recs(v', c) == RecsOf(page) + rest;
    RedirectedRecs(RecsOf(b), RecsOf(page), rest, DOTDOT, ino);
    TurnedBlocks(v, v', lo, c, page);
  }

  lemma TurnedBlocks(v: Vol, v': Vol, lo: nat, c: nat, page: Layout.Block)
    requires PageChanged(v, v', lo, c, 0, page) && c < |v'.table|
    requires Walk(page, 0).Ok? && Walk(Page(v, c, 0), 0).Ok?
    ensures Blocks(v', c) <==> Blocks(v, c)
  {
    hide T, Page, Safe, SlotOf, Tight, Walk, Utf8;
    if Blocks(v, c) {
      forall m: nat | m < v'.table[c].size / 4032
        ensures T(v', c, SlotOf(m)) != 0 && Walk(Page(v', c, m), 0).Ok?
      {
        assert T(v, c, SlotOf(m)) != 0 && Walk(Page(v, c, m), 0).Ok?;
      }
    }
    if Blocks(v', c) {
      forall m: nat | m < v.table[c].size / 4032
        ensures T(v, c, SlotOf(m)) != 0 && Walk(Page(v, c, m), 0).Ok?
      {
        assert T(v', c, SlotOf(m)) != 0 && Walk(Page(v', c, m), 0).Ok?;
      }
    }
  }

  /** Turning `..` of a moved directory and its link shows nowhere, `..` aside. */
  lemma ParentReads(v: Vol, v1: Vol, v': Vol, lo: nat, c: nat, d: nat, d': nat, x: nat)
    requires d' <= MAX_INO && d' != 0 && d != d' && ParentTurned(v, v1, v', lo, c, d, d') && HasUp(v, c)
    requires x < |v.table|
    ensures |v'.table| == |v.table| && (Blocks(v', x) <==> Blocks(v, x))
    ensures Names(Recs(v', x)) - {DOTDOT} == Names(Recs(v, x)) - {DOTDOT}
  {
    hide T, Page, Utf8, Names, Recs, Blocks, OthersKept, DirRedirected, HasUp;
    TurnedReads(v, v1, lo, c, d');
    if x != c {
      ReadsSame(v, v1, c, x);
    }
    var v2 := v1.(table := v1.table[d := v'.table[d]]);
    ReadsRelinked(v1, v2, d, v'.table[d], x);
    ReadsRelinked(v2, v', d', v'.table[d'], x);
  }

  /** Reading the directories after the two entry steps of a move. */
  lemma StepsRead(v: Vol, v2: Vol, v3: Vol, lo: nat, d: nat, name: Name, d': nat, name': Name, c: u64, fileType: byte)
    requires Shaped(v) && DirInode(v, d) && DirInode(v, d') && c != 0 && !IsDot(name)
    requires name' !in Names(Recs(v, d'))
    requires DirAdded(v, v2, lo, d', c, name', fileType) && DirRemoved(v2, v3, lo, d, name)
    ensures |v3.table| == |v.table|
    ensures forall x: nat {:trigger DirInode(v, x)} :: DirInode(v, x) ==> HasUp(v3, x)
    ensures (forall x: nat {:trigger DirInode(v, x)} :: DirInode(v, x) ==>
              Reads(v3, x, MovedNames(Names(Recs(v, x)), Target(c, fileType), d, name, d', name', x)))
            <==> PagesRight(PagesOnce(v, d, d', name', c, fileType), name)
  {
    hide T, Page, Utf8, Names, Recs, Blocks, OthersKept, DirAdded, DirRemoved, HasUp, PagesRight, Shaped, DirOk,
        PagesOnce, Reads, IsDot;
    var t := Target(c, fileType);
    AddedReads(v, v2, lo, d, d', name', c, fileType);
    OthersTable(v, v2, d');
    ShapedAt(v2, d);
    RemovedReads(v2, v3, lo, d, name);
    OthersTable(v2, v3, d);
    forall x: nat | DirInode(v, x)
      ensures HasUp(v3, x)
      ensures x != d ==> Reads(v3, x, MovedNames(Names(Recs(v, x)), t, d, name, d', name', x))
      ensures x == d ==> Names(Recs(v2, d)) - {name} == MovedNames(Names(Recs(v, x)), t, d, name, d', name', x)
    {
      ShapedAt(v, x);
      ShapedAt(v2, x);
      if x != d' {
        ReadsSame(v, v2, d', x);
      }
      if x != d {
        ReadsSame(v2, v3, d, x);
        ReadsWell(v2, v3, x);
      }
    }
    assert DirInode(v, d);
  }

  /** A well-formed directory reads as what it holds, and goes on doing so while nothing changes. */
  lemma ReadsWell(v: Vol, v': Vol, x: nat)
    requires DirOk(v, x) && x < |v.table| && x < |v'.table| && (Blocks(v, x) ==> Blocks(v', x))
    requires Recs(v', x) == Recs(v, x)
    requires DirPages(v', x) == DirPages(v, x)
    ensures HasUp(v', x) && Reads(v', x, Names(Recs(v, x)))
  {
    hide T, Page, Utf8, Names, Recs, Blocks, Walk, RecsOf, FirstBlock, FindNamed, Unique;
    OkBlocks(v, x);
    BlocksSize(v, x);
    AllTiledBlocks(v, x);
    assert DirPages(v, x)[0] == Page(v, x, 0);
    FirstUp(DirPages(v, x));
  }

  /** The move of an entry to a free name moves that one name and leaves every directory readable
      exactly when the block of the old name, walked from where the walk goes on once it is taken
      out, shows the right names. */
  lemma CarriedNamesIff(v: Vol, v': Vol, lo: nat, d: nat, name: Name, d': nat, name': Name, c: u64)
    requires Carried(v, v', lo, d, name, d', name', c)
    requires Shaped(v) && !IsDot(name) && d' != 0 && name' !in Names(Recs(v, d'))
    ensures c < |v.table| && d < |v.table|
    ensures OneMoved(v, v', d, name, d', name', c) <==>
      PagesRight(PagesOnce(v, d, d', name', c, KindOf(v.table[c])), name)
  {
    hide T, Page, Utf8, Names, Recs, Blocks, OthersKept, DirAdded, DirRemoved, HasUp, PagesRight, Shaped, DirOk,
        PagesOnce, IsDot, Reads, EntryMovable, Kept, ParentTurned;
    var v2, v3, v4 :| MoveSteps(v, v2, v3, v4, v', lo, d, name, d', name', c);
    StepsRead(v, v2, v3, lo, d, name, d', name', c, KindOf(v.table[c]));
    if v.table[c].IsDir() && d != d' {
      assert DirInode(v, c);
      forall x: nat, names: map<Name, Target> | DirInode(v, x)
        ensures Reads(v', x, names) <==> Reads(v3, x, names)
      {
        ParentReads(v3, v4, v', lo, c, d, d', x);
        ReadsLike(v3, v', x, names);
      }
    }
  }

  lemma ReadsLike(v: Vol, v': Vol, x: nat, names: map<Name, Target>)
    requires x < |v.table| == |v'.table| && (Blocks(v', x) <==> Blocks(v, x))
    requires Names(Recs(v', x)) - {DOTDOT} == Names(Recs(v, x)) - {DOTDOT}
    ensures Reads(v', x, names) <==> Reads(v, x, names)
  {
    hide T, Page, Utf8, Names, Recs, Blocks;
  }

  /** A rename, its target out of the way, moves one name and leaves every directory readable
      exactly when the block of the old name at the time it is taken out, walked from where the
      walk will go on, shows the right names.  A removal across no dead record is one such case. */
  lemma RenamedNamesIff(v: Vol, mid: Vol, v': Vol, lo: nat, d: nat, name: Name, d': nat, name': Name)
    requires RenameDone(v, mid, v', lo, d, name, d', name') && OrderlyMove(v, d, name, d', name')
    ensures DirInode(v, d) && DirInode(v, d') && |mid.table| == |v.table|
    ensures LookupName(v, d, name).value.Some?
    ensures var c := LookupName(v, d, name).value.value;
            && c < |v.table| && c <= MAX_INO && TreeOk(mid)
            && Ns(mid) == Vacated(Ns(v), d', name', v.table[c].IsDir())
            && (OneMoved(mid, v', d, name, d', name', c) <==> PagesRight(PagesThen(v, d, name, d', name'), name))
            && (PagesRemovable(PagesThen(v, d, name, d', name'), name) ==>
              PagesRight(PagesThen(v, d, name, d', name'), name))
  {
    hide T, Page, Safe, Exact, DirOk, Blocks, Kept, Recs, Names, NodeOf, Utf8, LookupName, NsOk, Removable, Owned,
        TargetReplaced, Carried, PagesRight, PagesThen, PagesOnce, OneMoved, Ns, Vacated, Shaped, IsDot, PagesRemovable,
        AllTiled;
    var c := LookupName(v, d, name).value.value;
    ReplacedFound(v, mid, lo, d', name', c);
    LookedUp(v, d', name');
    TargetGone(v, mid, lo, d, name, d', name', c);
    DirectoriesStay(v, mid, lo, d, name, d', name', c);
    EntryStays(v, mid, lo, d, name, d', name', c);
    PagesMid(v, mid, lo, d, name, d', name', c);
    CarriedNamesIff(mid, v', lo, d, name, d', name', c);
    TiledOnce(mid, d, d', name', c, KindOf(mid.table[c]));
    if PagesRemovable(PagesThen(v, d, name, d', name'), name) {
      AdjacentRight(PagesThen(v, d, name, d', name'), name);
    }
  }

  lemma TiledOnce(v: Vol, d: nat, d': nat, name': Name, c: u64, fileType: byte)
    requires Shaped(v) && DirInode(v, d)
    ensures AllTiled(PagesOnce(v, d, d', name', c, fileType))
  {
    hide T, Page, DirOk, Blocks, Utf8, AllTiled, PagesAdded;
    ShapedAt(v, d);
    OkBlocks(v, d);
    AllTiledBlocks(v, d);
    if d == d' && |name'| < 0x100 {
      PagesAddedTiled(DirPages(v, d), c, name', fileType);
    }
  }
}
