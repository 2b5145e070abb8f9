/** The whole tree of names hangs together: what each operation does to that. */
module RootedTrees {
  import opened Wrappers
  import opened Volume
  import opened Files
  import opened Dirents
  import opened Directories
  import opened DirTree
  import opened Namespaces
  import opened FsTree
  import opened FsOps
  import opened Renames
  import opened Reachability

  /** The tree invariant, with every inode found from the root. */
  ghost predicate RootedTree(v: Vol) {
    Shaped(v) && exists home :: NsOk(Ns(v), home) && Rooted(Ns(v), home)
  }

  /** Inode `x` is `y` or lies below it. */
  ghost predicate Beneath(v: Vol, x: nat, y: nat) {
    exists home :: NsOk(Ns(v), home) && Under(home, x, y)
  }

  lemma RootedIsTree(v: Vol)
    requires RootedTree(v)
    ensures TreeOk(v)
  {
    hide Shaped, NsOk, Rooted;
    var home :| NsOk(Ns(v), home) && Rooted(Ns(v), home);
  }

  lemma CreateRooted(v: Vol, v': Vol, lo: nat, d: nat, name: Name, c: nat)
    requires CreateDone(v, v', lo, d, name, c) && RootedTree(v) && !IsDot(name)
    ensures RootedTree(v')
  {
    hide T, Page, Safe, Exact, Blocks, Shaped, Recs, Names, NodeOf, Utf8, LookupName, NsOk, IsDot, Kept, Rooted, DirOk;
    var home :| NsOk(Ns(v), home) && Rooted(Ns(v), home);
    NewNode(v, home, d, c);
    DirNodeOf(v, d);
    CreatedOk(Ns(v), home, d, name, c);
    RootedGrown(Ns(v), home, Ns(v'), d, name, c);
  }

  /** A new inode is not the root and its directory is a node of the tree. */
  lemma NewNode(v: Vol, home: map<nat, Home>, d: nat, c: nat)
    requires NsOk(Ns(v), home) && DirInode(v, d) && c < |v.table| && !v.table[c].Live() && c > 0
    ensures Ns(v)[d].Dir? && Ns(v)[c].Free? && c > 1 && d > 0
  {
    hide Recs, Names, Utf8;
  }

  lemma MkdirRooted(v: Vol, v': Vol, lo: nat, d: nat, name: Name, c: nat)
    requires MkdirDone(v, v', lo, d, name, c) && RootedTree(v) && !IsDot(name)
    requires v.table[d].nlink < 0xFFFF_FFFF
    ensures RootedTree(v')
  {
    hide T, Page, Safe, Exact, Blocks, Shaped, Recs, Names, NodeOf, Utf8, LookupName, NsOk, IsDot, Kept, Rooted, DirOk;
    var home :| NsOk(Ns(v), home) && Rooted(Ns(v), home);
    NewNode(v, home, d, c);
    DirNodeOf(v, d);
    MadeDirOk(Ns(v), home, d, name, c);
    RootedGrown(Ns(v), home, Ns(v'), d, name, c);
  }

  lemma UnlinkRooted(v: Vol, v': Vol, lo: nat, d: nat, name: Name, c: nat)
    requires UnlinkDone(v, v', lo, d, name, c) && RootedTree(v) && Removable(v, d, name) && !IsDot(name)
    ensures RootedTree(v')
  {
    hide T, Page, Safe, Exact, Blocks, Shaped, Recs, Names, NodeOf, Utf8, LookupName, NsOk, IsDot, Kept, Rooted,
        DirOk, Removable;
    var home :| NsOk(Ns(v), home) && Rooted(Ns(v), home);
    TargetNode(v, home, d, name, c);
    DirNodeOf(v, d);
    FileNode(v, c);
    UnlinkedOk(Ns(v), home, d, name);
    RootedCut(Ns(v), home, Ns(v'), c);
  }

  lemma RmdirRooted(v: Vol, v': Vol, lo: nat, d: nat, name: Name, c: nat)
    requires RmdirDone(v, v', lo, d, name, c) && RootedTree(v) && Removable(v, d, name) && !IsDot(name)
    ensures RootedTree(v')
  {
    hide T, Page, Safe, Exact, Blocks, Shaped, Recs, Names, NodeOf, Utf8, LookupName, NsOk, IsDot, Kept, Rooted,
        DirOk, Removable, Empty;
    var home :| NsOk(Ns(v), home) && Rooted(Ns(v), home);
    TargetNode(v, home, d, name, c);
    DirNodeOf(v, d);
    DirNodeOf(v, c);
    ShapedAt(v, c);
    RemovedChildOk(Ns(v), home, d, name);
    RootedCut(Ns(v), home, Ns(v'), c);
  }

  /** Within its scope a rename keeps every inode below the root exactly when it does not move a
      directory to itself or to a place below it.  The program does not check this. */
  lemma RenameRooted(v: Vol, mid: Vol, v': Vol, lo: nat, d: nat, name: Name, d': nat, name': Name)
    requires RenameDone(v, mid, v', lo, d, name, d', name') && ProperMove(v, d, name, d', name') && RootedTree(v)
    ensures LookupName(v, d, name).value.Some?
    ensures RootedTree(v') <==> !Beneath(v, d', LookupName(v, d, name).value.value)
  {
    hide T, Page, Safe, Exact, DirOk, Blocks, Recs, Names, NodeOf, Utf8, LookupName, NsOk, Removable,
        Owned, Carried, Rooted, Shaped, Moved, Vacated, RenameDone, Under, IsDot;
    RenameMoves(v, mid, v', lo, d, name, d', name');
    var c := LookupName(v, d, name).value.value;
    var h :| NsOk(Ns(v), h) && Rooted(Ns(v), h);
    RenameFacts(v, mid, v', lo, d, name, d', name');
    DirNodeOf(v, d');
    DirNodeOf(mid, d);
    DirNodeOf(mid, d');
    RootIsNotFree(v, h, d');
    var home := VacatedHome(v, mid, h, d', name', c, lo, d, name);
    MovedOk(Ns(mid), home, d, name, d', name');
    MovedRooted(Ns(mid), home, d, name, d', name');
    var home' := home[c := Home(d', name')];
    if RootedTree(v') {
      var any :| NsOk(Ns(v'), any) && Rooted(Ns(v'), any);
      RootedAnyHome(Ns(v'), any, home');
    }
    if Beneath(v, d', c) {
      var any :| NsOk(Ns(v), any) && Under(any, d', c);
      OneHome(Ns(v), any, h, d', c);
    }
  }

  lemma RootIsNotFree(v: Vol, home: map<nat, Home>, d: nat)
    requires NsOk(Ns(v), home) && DirInode(v, d)
    ensures d > 0 && !Ns(v)[d].Free?
  {
    hide Recs, Names, Utf8;
  }

  lemma RenameFacts(v: Vol, mid: Vol, v': Vol, lo: nat, d: nat, name: Name, d': nat, name': Name)
    requires RenameDone(v, mid, v', lo, d, name, d', name') && LookupName(v, d', name') != LookupName(v, d, name)
    ensures LookupName(v, d, name).Ok? && LookupName(v, d, name).value.Some?
    ensures var c := LookupName(v, d, name).value.value;
            c < |v.table| && v.table[c].Live() && TargetReplaced(v, mid, lo, d', name', c)
    ensures |mid.table| <= MAX_INO
  {
    hide T, Page, Safe, Exact, Utf8, LookupName, TargetReplaced, Kept, Shaped, EntryMovable;
  }

  /** The homes of the tree once the target of a rename is gone. */
  lemma VacatedHome(v: Vol, mid: Vol, h: map<nat, Home>, d': nat, name': Name, c: nat, lo: nat, d: nat,
      name: Name) returns (home: map<nat, Home>)
    requires NsOk(Ns(v), h) && Rooted(Ns(v), h) && Shaped(v) && DirInode(v, d') && DirInode(mid, d')
    requires |mid.table| == |v.table|
    requires c < |v.table| && v.table[c].Live() && !IsDot(name')
    requires TargetReplaced(v, mid, lo, d', name', c) && Ns(mid) == Vacated(Ns(v), d', name', v.table[c].IsDir())
    ensures NsOk(Ns(mid), home) && Rooted(Ns(mid), home)
    ensures Under(home, d', c) <==> Under(h, d', c)
  {
    hide T, Page, Safe, Exact, DirOk, Blocks, Recs, Names, NodeOf, Utf8, LookupName, NsOk, Removable, Owned,
        PagesRemoved, Kept, Under, Empty, IsDot, Rooted;
    home := h;
    LookedUp(v, d', name');
    ShapedAt(v, d');
    LookupNames(v, d', name');
    DirNodeOf(v, d');
    DirNodeOf(mid, d');
    if LookupName(v, d', name').value.Some? {
      var t := LookupName(v, d', name').value.value;
      TargetNode(v, h, d', name', t);
      home := h - {t};
      DirNodeOf(v, d');
      if v.table[c].IsDir() {
        DirNodeOf(v, t);
        ShapedAt(v, t);
        RemovedChildOk(Ns(v), h, d', name');
      } else {
        FileNode(v, t);
        UnlinkedOk(Ns(v), h, d', name');
      }
      RootedCut(Ns(v), h, Ns(mid), t);
    }
  }

  /** Where an inode other than the root is found: its parent and its name there. */
  ghost predicate FoundAt(v: Vol, c: nat, parent: nat, name: Name) {
    DirInode(v, parent) && !IsDot(name) && LookupName(v, parent, name) == Ok(Some(c))
  }

  /** In a rooted tree a directory has two links and one more for every child directory, finds
      itself under `.`, and finds under `..` the directory it is in, the root itself. */
  lemma LinksAndParents(v: Vol, d: nat)
    requires RootedTree(v) && DirInode(v, d)
    ensures v.table[d].nlink == 2 + |KidDirs(Ns(v)[d].names)|
    ensures LookupName(v, d, DOT) == Ok(Some(d))
    ensures d == 1 ==> LookupName(v, d, DOTDOT) == Ok(Some(1))
    ensures d != 1 ==> exists parent: nat, name: Name {:trigger FoundAt(v, d, parent, name)} ::
      LookupName(v, d, DOTDOT) == Ok(Some(parent)) && FoundAt(v, d, parent, name)
  {
    hide T, Page, Utf8, LookupName, Recs, EntryOk, KidDirs, Rooted, IsDot, Shaped, DirOk, Blocks;
    RootedIsTree(v);
    var home: map<nat, Home> :| NsOk(Ns(v), home) && Rooted(Ns(v), home);
    DirNodeOf(v, d);
    OtherNodes(v);
    RootIsNotFree(v, home, d);
    assert DirNode(Ns(v), home, d);
    LookupNode(v, d, DOT);
    LookupNode(v, d, DOTDOT);
    if d != 1 {
      assert HomeOk(Ns(v), home, d);
      var h := home[d];
      LookupNode(v, h.parent, h.name);
      assert FoundAt(v, d, h.parent, h.name);
    }
  }

  /** And a file has one link. */
  lemma FileLinks(v: Vol, f: nat)
    requires RootedTree(v) && f < |v.table| && v.table[f].Live() && !v.table[f].IsDir()
    ensures v.table[f].nlink == 1
  {
    hide Recs, Utf8, Rooted, Shaped;
    var home :| NsOk(Ns(v), home) && Rooted(Ns(v), home);
    FileNode(v, f);
    assert Ns(v)[f].File?;
  }

  lemma IntactNode(v: Vol, v': Vol, j: nat)
    requires Intact(v, v') && j < |v.table| && v.table[j].Live()
    ensures NodeOf(v', j) == NodeOf(v, j)
  {
    hide Page, T, Utf8, DirRecs, Names;
    assert DirPages(v', j) == DirPages(v, j);
  }

  /** An inode that was taken for an entry that could then not be added cannot be found from the
      root: nothing names it. */
  lemma OrphanIsLost(v: Vol, v': Vol, c: nat)
    requires RootedTree(v) && Orphaned(v, v', c)
    ensures !RootedTree(v')
  {
    hide T, Page, Utf8, NodeOf, Recs, Shaped, Intact, DirNode, KidDirs, Under;
    if RootedTree(v') {
      var home :| NsOk(Ns(v), home) && Rooted(Ns(v), home);
      var home': map<nat, Home> :| NsOk(Ns(v'), home') && Rooted(Ns(v'), home');
      FreeNode(v, c);
      RootIsLive(v, home);
      LiveNode(v', c);
      assert HomeOk(Ns(v'), home', c);
      var h := home'[c];
      assert Under(home', c, 1);
      NoLoop(home', c);
      LiveParent(v', h.parent);
      IntactNode(v, v', h.parent);
      NamedIsLive(Ns(v), home, h.parent, h.name);
    }
  }

  lemma NamedIsLive(ns: seq<Node>, home: map<nat, Home>, d: nat, name: Name)
    requires NsOk(ns, home) && d < |ns| && ns[d].Dir? && name in ns[d].names && !IsDot(name)
    ensures ns[d].names[name].ino < |ns| && !ns[ns[d].names[name].ino].Free?
  {
    hide Utf8;
    assert EntryOk(ns, home, d, name);
  }

  lemma RootIsLive(v: Vol, home: map<nat, Home>)
    requires NsOk(Ns(v), home)
    ensures |v.table| > 1 && v.table[1].Live()
  {
    hide Utf8, Recs;
  }

  lemma LiveNode(v: Vol, c: nat)
    requires c < |v.table| && v.table[c].Live()
    ensures !Ns(v)[c].Free?
  {
    hide Utf8, Recs;
  }

  lemma LiveParent(v: Vol, p: nat)
    requires p < |v.table| && Ns(v)[p].Dir?
    ensures v.table[p].Live()
  {
    hide Utf8, Recs;
  }
}
