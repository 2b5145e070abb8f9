/** The tree of names a volume holds. */
module FsTree {
  import opened Bytes
  import opened Layout
  import opened Inodes
  import opened Volume
  import opened Files
  import opened Dirents
  import opened DirBlocks
  import opened Directories
  import opened DirTree
  import opened Namespaces

  /** Inode `i` as a node of the tree. */
  function NodeOf(v: Vol, i: nat): Node
    requires i < |v.table|
  {
    if !v.table[i].Live() then Free
    else if v.table[i].IsDir() then Dir(v.table[i].nlink, Names(Recs(v, i)))
    else File(v.table[i].nlink)
  }

  ghost function Ns(v: Vol): (ns: seq<Node>)
    ensures |ns| == |v.table|
    ensures forall i {:trigger ns[i]} :: 0 <= i < |ns| ==> ns[i] == NodeOf(v, i)
  {
    seq(|v.table|, i requires 0 <= i < |v.table| => NodeOf(v, i))
  }

  predicate DirInode(v: Vol, d: nat) {
    d < |v.table| && v.table[d].Live() && v.table[d].IsDir()
  }

  /** Every directory is a number of whole blocks. */
  ghost predicate Aligned(v: Vol) {
    forall d: nat {:trigger DirInode(v, d)} :: DirInode(v, d) ==> v.table[d].size % 4032 == 0
  }

  /** Exact accounting, of a volume whose directories are whole blocks. */
  ghost predicate Accounted(v: Vol, lo: nat) {
    Exact(v, lo) && Aligned(v)
  }

  /** Inode `i` is no directory, or one of whole blocks if it was one before. */
  predicate KeepsWhole(v: Vol, v': Vol, i: nat) {
    DirInode(v', i) ==>
      v'.table[i].size % 4032 == 0 || (DirInode(v, i) && v'.table[i].size % 4032 == v.table[i].size % 4032)
  }

  /** It is enough to look at the inode that has changed. */
  lemma AlignedStep(v: Vol, v': Vol, i: nat)
    requires OthersKept(v, v', i) && KeepsWhole(v, v', i)
    ensures Aligned(v) ==> Aligned(v')
  {
    hide T, Page;
    if Aligned(v) {
      forall d: nat | DirInode(v', d)
        ensures v'.table[d].size % 4032 == 0
      {
        assert DirInode(v, if d != i || v'.table[i].size % 4032 != 0 then d else 0) || d == i;
      }
    }
  }

  /** Every directory is well formed. */
  ghost predicate Shaped(v: Vol) {
    forall d: nat {:trigger DirOk(v, d)} :: DirInode(v, d) ==> DirOk(v, d)
  }

  lemma ShapedAligned(v: Vol)
    requires Shaped(v)
    ensures Aligned(v)
  {
    hide T, Page, Utf8, Walk, RecsOf, DirRecs, FirstBlock, Unique;
    forall d: nat | DirInode(v, d)
      ensures v.table[d].size % 4032 == 0
    {
      assert DirOk(v, d);
    }
  }

  /** The invariant of the tree of names. */
  ghost predicate TreeOk(v: Vol) {
    Shaped(v) && exists home :: NsOk(Ns(v), home)
  }

  /** Inodes other than `i` are the same nodes. */
  lemma NodeKept(v: Vol, v': Vol, i: nat, j: nat)
    requires OthersKept(v, v', i) && j != i && j < |v.table|
    ensures NodeOf(v', j) == NodeOf(v, j)
    ensures DirOk(v, j) ==> DirOk(v', j)
    ensures Recs(v', j) == Recs(v, j)
  {
    hide Page, T, Walk, Utf8, DirRecs, Names, Unique, RecsOf, SlotOf;
    assert DirPages(v', j) == DirPages(v, j);
    assert Page(v', j, 0) == Page(v, j, 0);
    if DirOk(v, j) {
      forall m: nat | m < v'.table[j].size / 4032
        ensures T(v', j, SlotOf(m)) != 0 && Walk(Page(v', j, m), 0).Ok?
      {
        assert T(v, j, SlotOf(m)) != 0;
        assert Page(v', j, m) == Page(v, j, m);
      }
    }
  }

  lemma NsUpdate(v: Vol, v': Vol, i: nat)
    requires OthersKept(v, v', i) && i < |v.table|
    ensures Ns(v') == Ns(v)[i := NodeOf(v', i)]
    ensures Shaped(v) && (DirInode(v', i) ==> DirOk(v', i)) ==> Shaped(v')
  {
    hide OthersKept, DirOk, NodeOf, Utf8, Recs;
    OthersTable(v, v', i);
    forall j: nat | j < |v.table| && j != i
      ensures NodeOf(v', j) == NodeOf(v, j) && (DirOk(v, j) ==> DirOk(v', j))
    {
      NodeKept(v, v', i, j);
    }
  }

  lemma OthersTable(v: Vol, v': Vol, i: nat)
    requires OthersKept(v, v', i)
    ensures |v'.table| == |v.table| && forall j :: 0 <= j < |v.table| && j != i ==> v'.table[j] == v.table[j]
  {
  }

  /** Changing the bytes of a file leaves the tree of names alone. */
  lemma FileChanged(v: Vol, v': Vol, i: nat)
    requires OthersKept(v, v', i) && i < |v.table| && v.table[i].Live() && !v.table[i].IsDir()
    requires SameAttributes(v.table[i], v'.table[i])
    ensures Ns(v') == Ns(v) && (Shaped(v) ==> Shaped(v')) && (TreeOk(v) ==> TreeOk(v'))
  {
    hide OthersKept, DirOk, Utf8, Recs, Names, NsOk;
    OthersTable(v, v', i);
    NsUpdate(v, v', i);
    assert Ns(v') == Ns(v);
  }

  /** Directory `d` has the same blocks. */
  ghost predicate SameBlocks(v: Vol, v': Vol, d: nat) {
    forall t: Slot {:trigger T(v', d, t)} :: T(v', d, t) == T(v, d, t)
  }

  /** An entry either finds room in a block or brings one along. */
  lemma AddedBlocks(v: Vol, v': Vol, lo: nat, d: nat, ino: u64, name: Name, fileType: byte)
    requires DirAdded(v, v', lo, d, ino, name, fileType)
    ensures d < |v.table| == |v'.table| && (v'.table[d].size == v.table[d].size ==> SameBlocks(v, v', d))
  {
    hide T, Page, Safe, Utf8, NewPage, Tight, AddScan;
  }

  lemma RemovedBlocks(v: Vol, v': Vol, lo: nat, d: nat, name: Name)
    requires DirRemoved(v, v', lo, d, name)
    ensures SameBlocks(v, v', d)
  {
    hide T, Page, Safe, Utf8, Tight, RemoveScan;
  }

  lemma BlocksElsewhere(v: Vol, v1: Vol, v2: Vol, c: nat, d: nat)
    requires OthersKept(v1, v2, c) && c != d
    ensures SameBlocks(v, v1, d) ==> SameBlocks(v, v2, d)
  {
    hide T, Page;
    if SameBlocks(v, v1, d) {
      forall t: Slot
        ensures T(v2, d, t) == T(v, d, t)
      {
        assert T(v2, d, t) == T(v1, d, t);
      }
    }
  }

  // ---------------------------------------------------------------- single steps

  lemma AddedNode(v: Vol, v': Vol, lo: nat, d: nat, ino: u64, name: Name, fileType: byte)
    requires DirAdded(v, v', lo, d, ino, name, fileType) && DirInode(v, d)
    ensures OthersKept(v, v', d) && Safe(v', lo) && DirInode(v', d)
    ensures OlderPointers(v.table[d], v'.table[d])
    ensures SameAttributes(v.table[d], v'.table[d]) && v'.table[d].Stamped()
    ensures v'.table[d].size % 4032 == v.table[d].size % 4032
    ensures v.table[d].size % 4032 == 0 && Exact(v, lo) ==> Exact(v', lo)
    ensures ino != 0 && DirOk(v, d) && name !in Names(Recs(v, d)) ==>
      DirOk(v', d) && NodeOf(v', d) == Dir(v.table[d].nlink, Names(Recs(v, d))[name := Target(ino, fileType)])
  {
    hide T, Page, Safe, Exact, Utf8, DirRecs, Names, Blocks, NewPage, OthersKept, AddScan;
    AddScanBound(v, d, 0, DivCeil(v.table[d].size, 4032), ino, name, fileType);
    var r := AddScan(v, d, 0, DivCeil(v.table[d].size, 4032), ino, name, fileType);
    if r.value.None? {
      OthersTable(v, v', d);
      if v.table[d].size % 4032 == 0 && Exact(v, lo) {
        PageAppendedExact(v, v', lo, d, NewPage(ino, name, fileType));
      }
    } else {
      OthersTable(v, v', d);
      if v.table[d].size % 4032 == 0 && Exact(v, lo) {
        PageChangedExact(v, v', lo, d, r.value.value.0, r.value.value.1);
      }
    }
    if ino != 0 && DirOk(v, d) && name !in Names(Recs(v, d)) {
      AddedDir(v, v', lo, d, ino, name, fileType);
    }
  }

  lemma BlocksSize(v: Vol, d: nat)
    ensures Blocks(v, d) ==> v.table[d].size % 4032 == 0
  {
  }

  lemma RemovedNode(v: Vol, v': Vol, lo: nat, d: nat, name: Name)
    requires DirRemoved(v, v', lo, d, name) && DirInode(v, d)
    ensures OthersKept(v, v', d) && Safe(v', lo) && DirInode(v', d)
    ensures SameButTimes(v.table[d], v'.table[d]) && v'.table[d].Stamped()
    ensures v.table[d].size % 4032 == 0 && Exact(v, lo) ==> Exact(v', lo)
    ensures DirOk(v, d) && Removable(v, d, name) && name != DOT && name != DOTDOT ==>
      && name in Names(Recs(v, d)) && DirOk(v', d)
      && NodeOf(v', d) == Dir(v.table[d].nlink, Names(Recs(v, d)) - {name})
  {
    hide T, Page, Safe, Exact, Utf8, DirRecs, Names, Blocks, OthersKept, Removable, RemoveScan;
    RemoveScanBound(v, d, 0, DivCeil(v.table[d].size, 4032), name);
    var (at, page) := RemoveScan(v, d, 0, DivCeil(v.table[d].size, 4032), name).value.value;
    OthersTable(v, v', d);
    if v.table[d].size % 4032 == 0 && Exact(v, lo) {
      PageChangedExact(v, v', lo, d, at, page);
    }
    if DirOk(v, d) && Removable(v, d, name) && name != DOT && name != DOTDOT {
      RemovedDir(v, v', lo, d, name);
    }
  }

  lemma RedirectedNode(v: Vol, v': Vol, lo: nat, d: nat, ino: u64)
    requires DirRedirected(v, v', lo, d, DOTDOT, ino) && DirInode(v, d)
    ensures OthersKept(v, v', d) && Safe(v', lo) && DirInode(v', d)
    ensures SameButTimes(v.table[d], v'.table[d])
    ensures v.table[d].size % 4032 == 0 && Exact(v, lo) ==> Exact(v', lo)
    ensures ino != 0 && DirOk(v, d) ==>
      var names := Names(Recs(v, d));
      && DOTDOT in names && DirOk(v', d)
      && NodeOf(v', d) == Dir(v.table[d].nlink, names[DOTDOT := Target(ino, names[DOTDOT].fileType)])
  {
    hide T, Page, Safe, Exact, Utf8, DirRecs, Names, Blocks, OthersKept, FindNamed, Walk, TurnFrom;
    var page := TurnFrom(Page(v, d, 0), 0, DOTDOT, ino).value.value;
    OthersTable(v, v', d);
    if v.table[d].size % 4032 == 0 && Exact(v, lo) {
      TurnedSize(v, d, ino, lo);
      PageChangedExact(v, v', lo, d, 0, page);
    }
    if ino != 0 && DirOk(v, d) {
      RedirectedDir(v, v', lo, d, DOTDOT, ino);
    }
  }

  /** A first block in which `..` is found is mapped, and so lies below the size. */
  lemma TurnedSize(v: Vol, d: nat, ino: u64, lo: nat)
    requires d < |v.table| && Exact(v, lo)
    requires TurnFrom(Page(v, d, 0), 0, DOTDOT, ino).Ok? && TurnFrom(Page(v, d, 0), 0, DOTDOT, ino).value.Some?
    ensures v.table[d].size > 0
  {
    hide Utf8, Tight, Byte;
    assert TrimAt(v, d);
    ZeroUndecodable();
    UnmappedFirst(v, d);
  }

  lemma UnmappedFirst(v: Vol, d: nat)
    ensures T(v, d, SlotOf(0)) == 0 ==> Page(v, d, 0) == ZERO_BLOCK
  {
  }

  lemma ZeroUndecodable()
    ensures Decode(ZERO_BLOCK, 0).Err?
  {
    hide Utf8;
    FromLeZero(ZERO_BLOCK[8..10]);
  }

  /** Storing a directory's inode with another link count. */
  lemma LinkedNode(v: Vol, v': Vol, lo: nat, d: nat, n': Inode)
    requires Safe(v, lo) && DirInode(v, d)
    requires SameButTimes(v.table[d].(nlink := n'.nlink), n') && v' == v.(table := v.table[d := n'])
    ensures OthersKept(v, v', d) && Safe(v', lo) && DirInode(v', d)
    ensures Exact(v, lo) ==> Exact(v', lo)
    ensures NodeOf(v', d) == Dir(n'.nlink, Names(Recs(v, d)))
    ensures DirOk(v, d) ==> DirOk(v', d)
  {
    hide T, Page, Safe, Utf8, DirRecs, Names, Unique, Walk, RecsOf, Full, NoLeak, Counted, SlotOf;
    SameTree(v, d, n', v', lo);
    assert DirPages(v', d) == DirPages(v, d);
    RelinkedExact(v, v', lo, d, n');
    if DirOk(v, d) {
      forall m: nat | m < v'.table[d].size / 4032
        ensures T(v', d, SlotOf(m)) != 0 && Walk(Page(v', d, m), 0).Ok?
      {
        assert T(v, d, SlotOf(m)) != 0;
        assert Page(v', d, m) == Page(v, d, m);
      }
      assert Page(v', d, 0) == Page(v, d, 0);
    }
  }

  /** Links and times play no part in the accounting. */
  lemma RelinkedExact(v: Vol, v': Vol, lo: nat, i: nat, n': Inode)
    requires Safe(v, lo) && i < |v.table| && SamePointers(v.table[i], n') && n'.blockCount == v.table[i].blockCount
    requires n'.size == v.table[i].size && n'.Live() && v' == v.(table := v.table[i := n'])
    ensures OthersKept(v, v', i)
    ensures Exact(v, lo) ==> Exact(v', lo)
  {
    hide T, Page, Safe, Full, NoLeak, Counted, SlotOf;
    SameTree(v, i, n', v', lo);
    if Exact(v, lo) {
      assert TrimAt(v, i);
      SameTrim(v, v', i);
      TrimOthers(v, v', i);
      IdleKept(v, v', i);
    }
  }

  lemma SameTrim(v: Vol, v': Vol, i: nat)
    requires i < |v.table| == |v'.table| && TrimAt(v, i) && v'.table[i].size == v.table[i].size
    requires forall t: Slot {:trigger T(v', i, t)} :: T(v', i, t) == T(v, i, t)
    requires forall m: nat {:trigger Page(v', i, m)} :: Page(v', i, m) == Page(v, i, m)
    ensures TrimAt(v', i)
  {
    hide T, Page, SlotOf;
    forall pos: nat | v'.table[i].size <= pos
      ensures Byte(v', i, pos) == 0
    {
      assert Byte(v, i, pos) == 0;
      assert Page(v', i, pos / 4032) == Page(v, i, pos / 4032);
    }
  }

  // ---------------------------------------------------------------- new inodes

  predicate NoPointersIn(n: Inode) {
    n.direct == NO_POINTERS && n.single == 0 && n.double == 0
  }

  /** An inode without pointers has no blocks. */
  lemma NothingUnder(v: Vol, i: nat)
    requires i < |v.table| && NoPointersIn(v.table[i])
    ensures forall t: Slot {:trigger T(v, i, t)} :: T(v, i, t) == 0
    ensures forall m: nat {:trigger Page(v, i, m)} :: Page(v, i, m) == ZERO_BLOCK
  {
  }

  /** Storing an inode without pointers over a free one. */
  lemma FreshStored(v: Vol, v': Vol, lo: nat, c: nat, n: Inode)
    requires Safe(v, lo) && c < |v.table| && NoPointersIn(n) && v' == v.(table := v.table[c := n])
    ensures Safe(v', lo) && OthersKept(v, v', c)
    ensures Exact(v, lo) && !v.table[c].Live() && n.Live() && n.blockCount == 0 && n.size == 0 ==> Exact(v', lo)
  {
    NothingUnder(v', c);
    assert OthersKept(v, v', c);
    if Exact(v, lo) && !v.table[c].Live() && n.Live() && n.blockCount == 0 && n.size == 0 {
      assert v.table[c] == FREE_INODE;
      NothingUnder(v, c);
      SameTargets(v, v', lo);
      assert TrimAt(v', c);
      TrimOthers(v, v', c);
      IdleKept(v, v', c);
    }
  }

  /** Inodes outside `but` are as they were: record, blocks and contents. */
  ghost predicate Kept(v: Vol, v': Vol, but: set<nat>) {
    && |v'.table| == |v.table|
    && (forall j {:trigger v'.table[j]} :: 0 <= j < |v.table| && j !in but ==> v'.table[j] == v.table[j])
    && (forall j: nat, t: Slot {:trigger T(v', j, t)} :: j !in but ==> T(v', j, t) == T(v, j, t))
    && (forall j: nat, m: nat {:trigger Page(v', j, m)} :: j !in but ==> Page(v', j, m) == Page(v, j, m))
  }

  lemma KeptStep(v: Vol, v1: Vol, v2: Vol, but: set<nat>, i: nat)
    requires Kept(v, v1, but) && OthersKept(v1, v2, i)
    ensures Kept(v, v2, but + {i})
  {
    hide T, Page;
    forall j: nat, t: Slot | j !in but + {i}
      ensures T(v2, j, t) == T(v, j, t)
    {
      assert T(v2, j, t) == T(v1, j, t);
    }
    forall j: nat, m: nat | j !in but + {i}
      ensures Page(v2, j, m) == Page(v, j, m)
    {
      assert Page(v2, j, m) == Page(v1, j, m);
    }
  }

  lemma KeptRefl(v: Vol)
    ensures Kept(v, v, {})
  {
    hide T, Page;
  }

  /** No file or directory that was there has changed in record or contents. */
  ghost predicate Intact(v: Vol, v': Vol) {
    && |v'.table| == |v.table|
    && (forall j {:trigger v'.table[j]} :: 0 <= j < |v.table| && v.table[j].Live() ==> v'.table[j] == v.table[j])
    && (forall j: nat, m: nat {:trigger Page(v', j, m)} :: j < |v.table| && v.table[j].Live() ==>
      Page(v', j, m) == Page(v, j, m))
  }

  /** Inode `c`, the first free one, has been taken, and nothing that was there has changed. */
  ghost predicate Orphaned(v: Vol, v': Vol, c: nat) {
    && 0 < c < |v.table| && !v.table[c].Live() && (forall j :: 0 < j < c ==> v.table[j].Live())
    && Intact(v, v') && v'.table == v.table[c := v'.table[c]] && v'.table[c].Live()
  }

  lemma IntactUnseen(v: Vol, v1: Vol, v2: Vol, c: nat, lo: nat)
    requires 0 < c < |v.table| && !v.table[c].Live() && (forall j :: 0 < j < c ==> v.table[j].Live())
    requires OthersKept(v, v1, c) && v1.table[c].Live() && Unseen(v1, v2, lo)
    ensures Orphaned(v, v2, c)
  {
    hide T, Page, Safe;
    forall j: nat, m: nat | j < |v.table| && v.table[j].Live()
      ensures Page(v2, j, m) == Page(v, j, m)
    {
      assert Page(v2, j, m) == Page(v1, j, m);
    }
  }

  /** Inodes outside `but` keep their record and contents. */
  ghost predicate Spared(v: Vol, v': Vol, but: set<nat>) {
    && |v'.table| == |v.table|
    && (forall j {:trigger v'.table[j]} :: 0 <= j < |v.table| && j !in but ==> v'.table[j] == v.table[j])
    && (forall j: nat, m: nat {:trigger Page(v', j, m)} :: j !in but ==> Page(v', j, m) == Page(v, j, m))
  }

  lemma SparedKept(v: Vol, v': Vol, but: set<nat>)
    requires Kept(v, v', but)
    ensures Spared(v, v', but)
  {
    hide T, Page;
  }

  lemma SparedUnseen(v: Vol, v': Vol, lo: nat, but: set<nat>)
    requires Unseen(v, v', lo)
    ensures Spared(v, v', but)
  {
    hide T, Page, Safe;
  }

  lemma SparedTrans(v: Vol, v1: Vol, v2: Vol, a: set<nat>, b: set<nat>)
    requires Spared(v, v1, a) && Spared(v1, v2, b)
    ensures Spared(v, v2, a + b)
  {
    hide Page;
    forall j: nat, m: nat | j !in a + b
      ensures Page(v2, j, m) == Page(v, j, m)
    {
      assert Page(v2, j, m) == Page(v1, j, m);
    }
  }

  // ---------------------------------------------------------------- nodes

  lemma ShapedAt(v: Vol, d: nat)
    requires Shaped(v) && DirInode(v, d)
    ensures DirOk(v, d) && Blocks(v, d)
  {
  }

  lemma FreeNode(v: Vol, c: nat)
    requires c < |v.table| && !v.table[c].Live()
    ensures NodeOf(v, c) == Free
  {
  }

  lemma FileNode(v: Vol, c: nat)
    requires c < |v.table| && v.table[c].Live() && !v.table[c].IsDir()
    ensures NodeOf(v, c) == File(v.table[c].nlink)
  {
  }

  lemma DirNodeOf(v: Vol, d: nat)
    requires DirInode(v, d)
    ensures NodeOf(v, d) == Dir(v.table[d].nlink, Names(Recs(v, d)))
  {
  }

  lemma BlocksKept(v: Vol, v': Vol, i: nat, d: nat)
    requires OthersKept(v, v', i) && d != i
    ensures Blocks(v, d) ==> Blocks(v', d)
  {
    hide T, Page, Walk, SlotOf;
    if Blocks(v, d) {
      forall m: nat | m < v'.table[d].size / 4032
        ensures T(v', d, SlotOf(m)) != 0 && Walk(Page(v', d, m), 0).Ok?
      {
        assert T(v, d, SlotOf(m)) != 0;
        assert Page(v', d, m) == Page(v, d, m);
      }
    }
  }

  // ---------------------------------------------------------------- freeing an inode

  /** Freeing everything an inode maps and clearing its record takes exactly its blocks. */
  lemma Discarded(v: Vol, n: Inode, v1: Vol, v': Vol, lo: nat, i: nat)
    requires Safe(v, lo) && i < |v.table| && Safe(With(v, i, n), lo)
    requires SamePointers(v.table[i], n) && n.size == v.table[i].size && n.blockCount == v.table[i].blockCount
    requires Cleared(With(v, i, n), v1, lo, i, 0, DivCeil(n.size, 4032))
    requires v' == v1.(table := v1.table[i := FREE_INODE])
    ensures Safe(v', lo) && OthersKept(v, v', i)
    ensures Exact(v, lo) ==> Exact(v', lo) && v'.used == v.used - Owned(v, i)
  {
    hide Safe, Page, T, Full, NoLeak, Counted, SlotOf, Cleared, Exact;
    var w := With(v, i, n);
    SameTree(v, i, n, w, lo);
    ClearedOthers(w, v1, lo, i, DivCeil(n.size, 4032));
    DroppedInode(v1, v', lo, i);
    ComposeOthers(v, w, v1, i);
    ComposeOthers(v, v1, v', i);
    if Exact(v, lo) {
      DiscardedExact(v, n, v1, v', lo, i);
    }
  }

  lemma ClearedOthers(v: Vol, v': Vol, lo: nat, i: nat, to: nat)
    requires Cleared(v, v', lo, i, 0, to)
    ensures OthersKept(v, v', i) && Safe(v', lo) && |v'.data| == |v.data|
  {
    hide T, Page, Safe, NoLeak, Full, Counted, SlotOf;
  }

  lemma ComposeOthers(v: Vol, v1: Vol, v2: Vol, i: nat)
    requires OthersKept(v, v1, i) && OthersKept(v1, v2, i)
    ensures OthersKept(v, v2, i)
  {
    hide T, Page;
    forall j: nat, t: Slot | j != i
      ensures T(v2, j, t) == T(v, j, t)
    {
      assert T(v2, j, t) == T(v1, j, t);
    }
    forall j: nat, m: nat | j != i
      ensures Page(v2, j, m) == Page(v, j, m)
    {
      assert Page(v2, j, m) == Page(v1, j, m);
    }
  }

  lemma DroppedInode(v: Vol, v': Vol, lo: nat, i: nat)
    requires Safe(v, lo) && i < |v.table| && v' == v.(table := v.table[i := FREE_INODE])
    ensures Safe(v', lo) && OthersKept(v, v', i)
  {
    NothingUnder(v', i);
    assert forall j: nat, t: Slot {:trigger T(v', j, t)} :: T(v', j, t) == if j == i then 0 else T(v, j, t);
  }

  lemma DiscardedExact(v: Vol, n: Inode, v1: Vol, v': Vol, lo: nat, i: nat)
    requires Safe(v, lo) && i < |v.table| && Exact(v, lo)
    requires SamePointers(v.table[i], n) && n.size == v.table[i].size && n.blockCount == v.table[i].blockCount
    requires Cleared(With(v, i, n), v1, lo, i, 0, DivCeil(n.size, 4032))
    requires v' == v1.(table := v1.table[i := FREE_INODE])
    requires OthersKept(v, v', i)
    ensures Exact(v', lo) && v'.used == v.used - Owned(v, i)
  {
    hide Page, NoLeak, Full, Counted, SlotOf, T;
    var w := With(v, i, n);
    SameTree(v, i, n, w, lo);
    assert TrimAt(v, i);
    SameTrim(v, w, i);
    AllCleared(w, v1, lo, i, DivCeil(n.size, 4032));
    assert Owned(w, i) == Owned(v, i);
    DiscardedTight(v1, v', lo, i);
    EmptyTrim(v', i);
    TrimOthers(v, v', i);
    IdleKept(v, v', i);
  }

  lemma DiscardedTight(v1: Vol, v': Vol, lo: nat, i: nat)
    requires i < |v1.table| && v' == v1.(table := v1.table[i := FREE_INODE])
    requires forall s: Slot {:trigger T(v1, i, s)} :: T(v1, i, s) == 0
    requires Tight(v1, lo) && v1.table[i].blockCount == 0
    ensures Tight(v', lo)
  {
    NothingUnder(v', i);
    assert forall j: nat, t: Slot {:trigger T(v', j, t)} :: j != i ==> T(v', j, t) == T(v1, j, t);
    SameTargets(v1, v', lo);
  }

  lemma EmptyTrim(v: Vol, i: nat)
    requires i < |v.table| && v.table[i] == FREE_INODE
    ensures TrimAt(v, i)
  {
    NothingUnder(v, i);
  }

  // ---------------------------------------------------------------- mkdir

  /** A new directory's block and inode, stored over a free inode. */
  lemma DirStored(v: Vol, v': Vol, lo: nat, c: nat, b: nat, page: Block, n: Inode)
    requires Safe(v, lo) && c < |v.table| && b !in v.used && lo <= b < |v.data| <= MAX_INO
    requires n.direct == NO_POINTERS[0 := b] && n.single == 0 && n.double == 0
    requires n.blockCount == 1 && n.size == 4032 && n.Live()
    requires v' == Vol(v.table[c := n], v.data[b := page], v.used + {b}, v.owner[b := Ref(c, Direct(0))])
    ensures Safe(v', lo) && OthersKept(v, v', c)
    ensures T(v', c, SlotOf(0)) != 0 && Page(v', c, 0) == page
    ensures Exact(v, lo) && !v.table[c].Live() ==> Exact(v', lo)
  {
    hide T, Page, Safe, Full, NoLeak, Counted, Linked;
    var w0 := v.(table := v.table[c := FREE_INODE]);
    DroppedInode(v, w0, lo, c);
    NothingUnder(w0, c);
    var w1 := Vol(w0.table[c := n], w0.data[b := ZERO_BLOCK], w0.used + {b}, w0.owner[b := Ref(c, Direct(0))]);
    LinkRoot(w0, lo, c, Direct(0), b, n, w1);
    LinkedGrows(w0, w1, lo, c, Direct(0), b, SlotOf(0));
    LinkedTarget(w0, w1, c, Direct(0), b);
    GrownFacts(w0, w1, lo, c, SlotOf(0));
    assert v' == w1.(data := w1.data[b := page]);
    LeafWrite(w1, lo, c, SlotOf(0), page, v');
    PagesAfterLeafWrite(w1, v', lo, c, 0);
    GrownOthers(v, w0, w1, v', lo, c, SlotOf(0));
    if Exact(v, lo) && !v.table[c].Live() {
      assert w0 == v;
      LeafReached(w0, w1, lo, c, 0);
      SameTargets(w1, v', lo);
      NewDirTrim(w0, w1, v', lo, c);
      TrimOthers(v, v', c);
      IdleKept(v, v', c);
    }
  }

  lemma LinkedTarget(v: Vol, v': Vol, i: nat, s: Slot, b: nat)
    requires Linked(v, v', i, s, b)
    ensures T(v', i, s) == b
  {
    hide T;
  }

  lemma GrownFacts(v: Vol, v': Vol, lo: nat, i: nat, leaf: Slot)
    requires Grown(v, v', lo, i, leaf)
    ensures Safe(v', lo) && |v'.table| == |v.table| && |v'.data| == |v.data|
  {
    hide T, Page, Safe, NoLeak;
  }

  /** Growth of inode `i` and new contents for its block leave the others alone. */
  lemma GrownOthers(v: Vol, w0: Vol, w1: Vol, v': Vol, lo: nat, i: nat, leaf: Slot)
    requires OthersKept(v, w0, i) && Grown(w0, w1, lo, i, leaf) && |v'.table| == |v.table|
    requires forall j :: 0 <= j < |v.table| && j != i ==> v'.table[j] == w0.table[j]
    requires forall j: nat, t: Slot {:trigger T(v', j, t)} :: T(v', j, t) == T(w1, j, t)
    requires forall j: nat, m: nat {:trigger Page(v', j, m)} :: j != i ==> Page(v', j, m) == Page(w1, j, m)
    ensures OthersKept(v, v', i)
  {
    hide T, Page, Safe, NoLeak;
    forall j: nat, t: Slot | j != i
      ensures T(v', j, t) == T(v, j, t)
    {
      assert T(v', j, t) == T(w1, j, t);
      assert T(w1, j, t) == T(w0, j, t);
      assert T(w0, j, t) == T(v, j, t);
    }
    forall j: nat, m: nat | j != i
      ensures Page(v', j, m) == Page(v, j, m)
    {
      assert Page(v', j, m) == Page(w1, j, m);
      assert Page(w1, j, m) == Page(w0, j, m);
      assert Page(w0, j, m) == Page(v, j, m);
    }
  }

  lemma NewDirTrim(v: Vol, w: Vol, v': Vol, lo: nat, c: nat)
    requires c < |v.table| == |w.table| == |v'.table| && v.table[c] == FREE_INODE && v'.table[c].size == 4032
    requires Grown(v, w, lo, c, SlotOf(0))
    requires forall j: nat, t: Slot {:trigger T(v', j, t)} :: T(v', j, t) == T(w, j, t)
    requires forall m: nat {:trigger Page(v', c, m)} :: m != 0 ==> Page(v', c, m) == Page(w, c, m)
    ensures TrimAt(v', c)
  {
    NothingUnder(v, c);
    hide T, Page, Safe, NoLeak, SlotOf;
    forall m: nat | T(v', c, SlotOf(m)) != 0
      ensures m * 4032 < 4032
    {
      assert T(w, c, SlotOf(m)) != 0 && T(v, c, SlotOf(m)) == 0;
      LeafOnPath(m, 0);
    }
    forall pos: nat | 4032 <= pos
      ensures Byte(v', c, pos) == 0
    {
      assert Page(v', c, pos / 4032) == Page(w, c, pos / 4032);
      assert Page(w, c, pos / 4032) == Page(v, c, pos / 4032) == ZERO_BLOCK;
    }
  }

  lemma RedirectedTable(v: Vol, v': Vol, lo: nat, c: nat, d: u64)
    requires DirRedirected(v, v', lo, c, DOTDOT, d)
    ensures |v'.table| == |v.table|
    ensures forall x {:trigger v'.table[x]} :: 0 <= x < |v.table| ==> SameButTimes(v.table[x], v'.table[x])
  {
    hide T, Page, Utf8, Safe, Walk, FindNamed, Tight;
  }

  lemma SparedRefl(v: Vol, but: set<nat>)
    ensures Spared(v, v, but)
  {
    hide Page;
  }

  lemma SparedOthers(v: Vol, v': Vol, i: nat, but: set<nat>)
    requires OthersKept(v, v', i) && i in but
    ensures Spared(v, v', but)
  {
    hide T, Page;
  }

  lemma SparedMore(v: Vol, v': Vol, a: set<nat>, b: set<nat>)
    requires Spared(v, v', a) && a <= b
    ensures Spared(v, v', b)
  {
    hide Page;
  }

  lemma UnseenSafe(v: Vol, v': Vol, lo: nat)
    requires Unseen(v, v', lo)
    ensures Safe(v', lo)
  {
  }

  lemma FoundDirectory(v: Vol, d: nat, name: Name)
    requires LookupName(v, d, name).Ok?
    ensures 0 < d && DirInode(v, d)
  {
    hide Entries, Utf8;
  }
}
