/** What a rename does to the volume: one entry changes place. */
module Renames {
  import opened Bytes
  import Layout
  import opened Wrappers
  import opened Inodes
  import opened Volume
  import opened Space
  import opened Files
  import opened Dirents
  import opened DirBlocks
  import opened Directories
  import opened DirTree
  import opened Namespaces
  import opened FsTree
  import opened FsOps

  function KindOf(n: Inode): byte {
    if n.IsDir() then FILE_TYPE_DIR else FILE_TYPE_FILE
  }

  /** The directory inodes a move touches: a directory that changes hands is one of them. */
  function Touched(n: Inode, d: nat, d': nat, c: nat): set<nat> {
    if n.IsDir() && d != d' then {c, d, d'} else {d, d'}
  }

  /** A directory that changes parents finds a link to spare in the new one. */
  predicate LinkToSpare(v: Vol, c: nat, d: nat, d': nat)
    requires c < |v.table| && d' < |v.table|
  {
    v.table[c].IsDir() && d != d' ==> v.table[d'].nlink < 0xFFFF_FFFF
  }

  /** `..` of directory `c` has been pointed from `d` to `d'`, and the link it stands for has gone
      with it. */
  ghost predicate ParentTurned(v: Vol, v1: Vol, v': Vol, lo: nat, c: nat, d: nat, d': nat)
    requires d' <= MAX_INO
  {
    && DirRedirected(v, v1, lo, c, DOTDOT, d')
    && d < |v1.table| == |v'.table| && d' < |v1.table|
    && SameButTimes(v1.table[d].(nlink := SaturatingDecrement(v1.table[d].nlink)), v'.table[d])
    && SameButTimes(v1.table[d'].(nlink := Increment(v1.table[d'].nlink)), v'.table[d'])
    && v'.table[d].Stamped() && v'.table[d'].Stamped()
    && v' == v1.(table := v1.table[d := v'.table[d]][d' := v'.table[d']])
  }

  /** The steps of a move: the new entry is added, the old one taken out, and for a directory that
      changes parents `..` and its link are turned. */
  ghost predicate MoveSteps(v: Vol, v2: Vol, v3: Vol, v4: Vol, v': Vol, lo: nat, d: nat, name: Name, d': nat,
      name': Name, c: u64)
    requires c < |v.table|
  {
    && DirAdded(v, v2, lo, d', c, name', KindOf(v.table[c])) && DirRemoved(v2, v3, lo, d, name)
    && if v.table[c].IsDir() && d != d' then d' <= MAX_INO && ParentTurned(v3, v4, v', lo, c, d, d')
      else v4 == v3 && v' == v3
  }

  /** The effect of giving inode `c`, found as `name` in `d`, the free name `name'` in `d'`
      instead. */
  ghost predicate Carried(v: Vol, v': Vol, lo: nat, d: nat, name: Name, d': nat, name': Name, c: u64) {
    && DirInode(v, d) && DirInode(v, d') && |v.table| <= MAX_INO
    && 0 < c < |v.table| == |v'.table| && v.table[c].Live()
    && Kept(v, v', Touched(v.table[c], d, d', c))
    && (exists v2, v3, v4 :: MoveSteps(v, v2, v3, v4, v', lo, d, name, d', name', c))
    && (Accounted(v, lo) ==> Accounted(v', lo))
    && (EntryMovable(v, d, name, d', name', c, KindOf(v.table[c])) && LinkToSpare(v, c, d, d') ==>
      && Shaped(v')
      && Ns(v') == Moved(Ns(v), d, name, d', name'))
  }

  lemma CarriedPlain(v: Vol, v2: Vol, v3: Vol, lo: nat, d: nat, name: Name, d': nat, name': Name, c: u64)
    requires Safe(v, lo) && DirInode(v, d) && DirInode(v, d') && |v.table| <= MAX_INO
    requires 0 < c < |v.table| && v.table[c].Live() && !(v.table[c].IsDir() && d != d')
    requires DirAdded(v, v2, lo, d', c, name', KindOf(v.table[c])) && DirRemoved(v2, v3, lo, d, name)
    ensures Safe(v3, lo) && Carried(v, v3, lo, d, name, d', name', c)
  {
    hide T, Page, Safe, Exact, Shaped, Recs, Names, Kept, DirAdded, DirRemoved, Utf8, MovedNode, NodeOf;
    var fileType := KindOf(v.table[c]);
    assert MoveSteps(v, v2, v3, v3, v3, lo, d, name, d', name', c);
    EntryMoved(v, v2, v3, lo, d, name, d', name', c, fileType);
    KeptLength(v, v3, {d, d'});
    if EntryMovable(v, d, name, d', name', c, fileType) {
      DirNodeOf(v, d);
      KindOfNode(v, c);
      OtherNodes(v);
      assert Ns(v3) == Moved(Ns(v), d, name, d', name');
    }
  }

  lemma KeptLength(v: Vol, v': Vol, but: set<nat>)
    requires Kept(v, v', but)
    ensures |v'.table| == |v.table|
    ensures forall j :: 0 <= j < |v.table| && j !in but ==> v'.table[j] == v.table[j]
  {
    hide T, Page;
  }

  lemma KindOfNode(v: Vol, c: nat)
    requires c < |v.table| && v.table[c].Live()
    ensures !NodeOf(v, c).Free? && (NodeOf(v, c).Dir? <==> v.table[c].IsDir())
  {
    hide Recs, Names, Utf8;
  }

  /** Turning `..` and the link counts completes a move whose entries are in place. */
  lemma TurnedMoved(n: Node, t: Target, d: nat, name: Name, d': nat, name': Name, x: nat)
    requires n.Dir? && d' <= MAX_INO && d != d' && (x == d' ==> n.nlink < 0xFFFF_FFFF)
    ensures TurnedNode(MovedNode(n, t, d, name, d', name', x, false), t.ino, d, d', x)
         == MovedNode(n, t, d, name, d', name', x, true)
  {
    hide Utf8, MovedNames;
  }

  lemma TurnStepped(v: Vol, v2: Vol, v3: Vol, v4: Vol, v5: Vol, v6: Vol, lo: nat, d: nat, name: Name, d': nat,
      name': Name, c: u64, n5: Inode, n6: Inode)
    requires c < |v.table| && v.table[c].IsDir() && d != d' && d' <= MAX_INO
    requires DirAdded(v, v2, lo, d', c, name', FILE_TYPE_DIR) && DirRemoved(v2, v3, lo, d, name)
    requires DirRedirected(v3, v4, lo, c, DOTDOT, d')
    requires d < |v4.table| && SameButTimes(v4.table[d].(nlink := SaturatingDecrement(v4.table[d].nlink)), n5)
    requires v5 == v4.(table := v4.table[d := n5])
    requires d' < |v5.table| && SameButTimes(v5.table[d'].(nlink := Increment(v5.table[d'].nlink)), n6)
    requires v6 == v5.(table := v5.table[d' := n6]) && n5.Stamped() && n6.Stamped()
    ensures MoveSteps(v, v2, v3, v4, v6, lo, d, name, d', name', c)
  {
    hide T, Page, DirAdded, DirRemoved, DirRedirected, Utf8, SameButTimes;
  }

  lemma CarriedTurned(v: Vol, v2: Vol, v3: Vol, v4: Vol, v5: Vol, v6: Vol, lo: nat, d: nat, name: Name, d': nat,
      name': Name, c: u64, n5: Inode, n6: Inode)
    requires Safe(v, lo) && DirInode(v, d) && DirInode(v, d') && 0 < d' && |v.table| <= MAX_INO
    requires 0 < c < |v.table| && DirInode(v, c) && d != d'
    requires DirAdded(v, v2, lo, d', c, name', FILE_TYPE_DIR) && DirRemoved(v2, v3, lo, d, name)
    requires DirRedirected(v3, v4, lo, c, DOTDOT, d')
    requires d < |v4.table| && SameButTimes(v4.table[d].(nlink := SaturatingDecrement(v4.table[d].nlink)), n5)
    requires v5 == v4.(table := v4.table[d := n5])
    requires d' < |v5.table| && SameButTimes(v5.table[d'].(nlink := Increment(v5.table[d'].nlink)), n6)
    requires v6 == v5.(table := v5.table[d' := n6]) && n5.Stamped() && n6.Stamped()
    ensures Safe(v6, lo) && Carried(v, v6, lo, d, name, d', name', c)
  {
    hide T, Page, Safe, Exact, Shaped, Recs, Names, Kept, DirAdded, DirRemoved, DirRedirected, Utf8,
        MovedNode, TurnedNode, NodeOf, SameButTimes, EntryMovable, MoveSteps, Moved;
    TurnStepped(v, v2, v3, v4, v5, v6, lo, d, name, d', name', c, n5, n6);
    EntryMoved(v, v2, v3, lo, d, name, d', name', c, FILE_TYPE_DIR);
    KeptLength(v, v3, {d, d'});
    assert DirInode(v3, c);
    LinkTurned(v3, v4, v5, v6, lo, c, d, d', n5, n6);
    KeptLength(v3, v6, {c as nat, d, d'});
    KeptTrans(v, v3, v6, {d, d'}, {c as nat, d, d'});
    assert {d, d'} + {c as nat, d, d'} == Touched(v.table[c], d, d', c);
    if EntryMovable(v, d, name, d', name', c, FILE_TYPE_DIR) && LinkToSpare(v, c, d, d') {
      MovableNode(v, d, name, d', name', c, FILE_TYPE_DIR);
      TurnedNodes(v, v3, v6, d, name, d', name', c);
    }
  }

  lemma MovableNode(v: Vol, d: nat, name: Name, d': nat, name': Name, c: u64, fileType: byte)
    requires EntryMovable(v, d, name, d', name', c, fileType)
    ensures DirInode(v, d) && Ns(v)[d].Dir? && name in Ns(v)[d].names && Ns(v)[d].names[name] == Target(c, fileType)
    ensures Shaped(v)
  {
    hide T, Page, Shaped, Recs, Names, PagesRemovable, Utf8, PagesOnce, IsDot;
    DirNodeOf(v, d);
  }

  /** Once `..` and the links are turned, the nodes are those of a move. */
  lemma TurnedNodes(v: Vol, v3: Vol, v6: Vol, d: nat, name: Name, d': nat, name': Name, c: u64)
    requires |v.table| == |v3.table| == |v6.table| && DirInode(v, c) && DirInode(v, d) && DirInode(v, d')
    requires d != d' <= MAX_INO
    requires Ns(v)[d].Dir? && name in Ns(v)[d].names && Ns(v)[d].names[name] == Target(c, FILE_TYPE_DIR)
    requires forall x {:trigger Ns(v3)[x]} :: 0 <= x < |v.table| ==>
      Ns(v3)[x] == if DirInode(v, x) then MovedNode(Ns(v)[x], Target(c, FILE_TYPE_DIR), d, name, d', name', x, false)
        else Ns(v)[x]
    requires forall x {:trigger Ns(v6)[x]} :: 0 <= x < |v.table| ==> Ns(v6)[x] == TurnedNode(Ns(v3)[x], c, d, d', x)
    requires v.table[d'].nlink < 0xFFFF_FFFF
    ensures Ns(v6) == Moved(Ns(v), d, name, d', name')
  {
    hide T, Page, Recs, Names, Utf8, MovedNode, TurnedNode, NodeOf;
    DirNodeOf(v, d');
    KindOfNode(v, c);
    OtherNodes(v);
    var t := Target(c, FILE_TYPE_DIR);
    forall x | 0 <= x < |v.table|
      ensures Ns(v6)[x] == Moved(Ns(v), d, name, d', name')[x]
    {
      assert Ns(v6)[x] == TurnedNode(Ns(v3)[x], c, d, d', x);
      if DirInode(v, x) {
        TurnedMoved(Ns(v)[x], t, d, name, d', name', x);
      } else {
        TurnedOther(Ns(v)[x], c, d, d', x);
      }
    }
  }

  lemma TurnedOther(n: Node, c: nat, d: nat, d': nat, x: nat)
    requires !n.Dir? && d' <= MAX_INO
    ensures TurnedNode(n, c, d, d', x) == n
  {
  }

  lemma KeptTrans(v: Vol, v1: Vol, v2: Vol, a: set<nat>, b: set<nat>)
    requires Kept(v, v1, a) && Kept(v1, v2, b)
    ensures Kept(v, v2, a + b)
  {
    hide T, Page;
    forall j: nat, t: Slot | j !in a + b
      ensures T(v2, j, t) == T(v, j, t)
    {
      assert T(v2, j, t) == T(v1, j, t);
    }
    forall j: nat, m: nat | j !in a + b
      ensures Page(v2, j, m) == Page(v, j, m)
    {
      assert Page(v2, j, m) == Page(v1, j, m);
    }
  }

  /** What stood in the way of a rename has been removed, as by rmdir or unlink. */
  ghost predicate TargetReplaced(v: Vol, mid: Vol, lo: nat, d': nat, name': Name, c: nat)
    requires c < |v.table|
  {
    match LookupName(v, d', name')
    case Err(_) => false
    case Ok(None) => mid == v
    case Ok(Some(t)) =>
      t != c
      && if v.table[c].IsDir() then RmdirDone(v, mid, lo, d', name', t) else UnlinkDone(v, mid, lo, d', name', t)
  }

  /** The effect of a rename; `mid` is the volume once a replaced target is gone. */
  ghost predicate RenameDone(v: Vol, mid: Vol, v': Vol, lo: nat, d: nat, name: Name, d': nat, name': Name) {
    if d == d' && name == name' then mid == v && v' == v
    else
      && LookupName(v, d, name).Ok? && LookupName(v, d, name).value.Some?
      && var c := LookupName(v, d, name).value.value;
      && 0 < c < |v.table| && v.table[c].Live() && c <= MAX_INO
      && if LookupName(v, d', name') == Ok(Some(c)) then mid == v && v' == v
         else TargetReplaced(v, mid, lo, d', name', c) && Carried(mid, v', lo, d, name, d', name', c)
  }

  /** The target of a move is a directory. */
  predicate OntoDirectory(v: Vol, d': nat, name': Name) {
    match LookupName(v, d', name')
    case Ok(Some(t)) => DirInode(v, t)
    case _ => false
  }

  /** If `name` in `d` stands for a directory that is to change parents, the new one has a link to
      spare, or the target gives one back. */
  predicate LinkThere(v: Vol, d: nat, name: Name, d': nat, name': Name)
    requires d' < |v.table|
  {
    match LookupName(v, d, name)
    case Ok(Some(c)) => c < |v.table| ==> LinkToSpare(v, c, d, d') || OntoDirectory(v, d', name')
    case _ => true
  }

  /** The blocks of directory `d` at the time `name` is taken out of it: a target called `name'` is
      gone from `d'` by then, and the new entry is there. */
  ghost function PagesThen(v: Vol, d: nat, name: Name, d': nat, name': Name): seq<Layout.Block>
    requires d < |v.table|
  {
    if d != d' then DirPages(v, d)
    else
      var gone := PagesRemoved(DirPages(v, d), name');
      match LookupName(v, d, name)
      case Ok(Some(c)) =>
        if |name'| < 0x100 && c < |v.table| && c <= MAX_INO then PagesAdded(gone, c, name', KindOf(v.table[c]))
          else gone
      case _ => gone
  }

  /** A move in a well-formed tree, of a name other than `.` and `..` to another such name that
      does not stand for the same inode, and whose target, if there is one, can be taken out
      without crossing a dead record. */
  ghost predicate OrderlyMove(v: Vol, d: nat, name: Name, d': nat, name': Name) {
    && TreeOk(v) && !IsDot(name) && !IsDot(name')
    && LookupName(v, d, name).Ok? && LookupName(v, d', name') != LookupName(v, d, name)
    && Removable(v, d', name')
  }

  /** A move in scope: an orderly one whose old name does not cross a dead record at the time it is
      taken out, and with a link to spare in the new parent of a directory. */
  ghost predicate ProperMove(v: Vol, d: nat, name: Name, d': nat, name': Name) {
    && OrderlyMove(v, d, name, d', name')
    && d < |v.table| && PagesRemovable(PagesThen(v, d, name, d', name'), name)
    && d' < |v.table| && LinkThere(v, d, name, d', name')
  }

  /** The tree of names once a replaced target is gone. */
  function Vacated(ns: seq<Node>, d': nat, name': Name, turned: bool): seq<Node>
    requires d' < |ns| && ns[d'].Dir?
  {
    if name' !in ns[d'].names then ns
    else
      var t := ns[d'].names[name'].ino;
      if t >= |ns| then ns
      else if !turned then Unlinked(ns, d', name')
      else if t == d' || ns[d'].nlink == 0 then ns
      else RemovedChild(ns, d', name')
  }

  /** Removing a target of the right kind keeps the tree well formed and frees what the target
      owned and nothing else. */
  lemma TargetGone(v: Vol, mid: Vol, lo: nat, d: nat, name: Name, d': nat, name': Name, c: nat)
    requires c < |v.table| && v.table[c].Live() && TargetReplaced(v, mid, lo, d', name', c)
    requires LookupName(v, d, name) == Ok(Some(c)) && TreeOk(v) && !IsDot(name') && Removable(v, d', name')
    ensures DirInode(v, d) && DirInode(v, d') && |mid.table| == |v.table| && mid.table[c].Live()
    ensures Ns(mid) == Vacated(Ns(v), d', name', v.table[c].IsDir())
    ensures TreeOk(mid) && (Exact(v, lo) ==> Exact(mid, lo))
    ensures Exact(v, lo) ==> mid.used == match LookupName(v, d', name')
                                          case Ok(Some(t)) => v.used - Owned(v, t)
                                          case _ => v.used
    ensures mid.table[c].IsDir() == v.table[c].IsDir()
  {
    hide T, Page, Safe, Exact, DirOk, Blocks, Kept, Recs, Names, NodeOf, Utf8, LookupName, NsOk, Removable,
        Owned, DirPages, PagesRemoved, Empty, IsDot;
    LookedUp(v, d, name);
    LookedUp(v, d', name');
    ShapedAt(v, d');
    LookupNames(v, d', name');
    DirNodeOf(v, d');
    var home :| NsOk(Ns(v), home);
    match LookupName(v, d', name') {
      case Ok(Some(t)) =>
        TargetNode(v, home, d', name', t);
        if v.table[c].IsDir() {
          KeptLength(v, mid, {t, d'});
        } else {
          KeptLength(v, mid, {t, d'});
        }
      case Ok(None) =>
    }
  }

  lemma LookedUp(v: Vol, d: nat, name: Name)
    requires LookupName(v, d, name).Ok?
    ensures 0 < d && DirInode(v, d)
  {
    hide Entries, Utf8;
  }

  /** In a well-formed tree a target that is a file has one link, and one that is a directory
      has a parent with links to spare. */
  lemma TargetNode(v: Vol, home: map<nat, Home>, d': nat, name': Name, t: nat)
    requires NsOk(Ns(v), home) && DirInode(v, d') && t < |v.table|
    ensures v.table[d'].nlink > 0
    ensures v.table[t].Live() && !v.table[t].IsDir() ==> v.table[t].nlink == 1
  {
    hide Recs, Names, Utf8, KidDirs;
    DirNodeOf(v, d');
    assert DirNode(Ns(v), home, d');
    if v.table[t].Live() && !v.table[t].IsDir() {
      FileNode(v, t);
      assert Ns(v)[t].File?;
    }
  }

  lemma KeptPages(v: Vol, v': Vol, but: set<nat>, d: nat)
    requires Kept(v, v', but) && d < |v.table| && d !in but
    ensures DirPages(v', d) == DirPages(v, d)
  {
    hide T, Page;
  }

  /** A name that is not there is not taken out. */
  lemma NotThere(pages: seq<Layout.Block>, name: Name)
    requires name !in Names(DirRecs(pages))
    ensures PagesRemoved(pages, name) == pages
  {
    hide Utf8, Names, DirRecs;
    HolderNames(pages, name);
  }

  /** The blocks the old name is taken out of are known before the target is removed. */
  lemma PagesMid(v: Vol, mid: Vol, lo: nat, d: nat, name: Name, d': nat, name': Name, c: u64)
    requires c < |v.table| && v.table[c].Live() && TargetReplaced(v, mid, lo, d', name', c)
    requires LookupName(v, d, name) == Ok(Some(c as nat)) && OrderlyMove(v, d, name, d', name')
    ensures d < |v.table| && d < |mid.table| && c < |mid.table| && mid.table[c].IsDir() == v.table[c].IsDir()
    ensures PagesOnce(mid, d, d', name', c, KindOf(mid.table[c])) == PagesThen(v, d, name, d', name')
  {
    hide T, Page, Safe, Exact, DirOk, Blocks, Kept, Recs, Names, NodeOf, Utf8, LookupName, NsOk,
        PagesAdded, PagesRemoved, Removable, Owned, Empty, IsDot, HolderOf;
    LookedUp(v, d, name);
    LookedUp(v, d', name');
    ShapedAt(v, d);
    ShapedAt(v, d');
    LookupNames(v, d, name);
    LookupNames(v, d', name');
    OkBlocks(v, d);
    OkBlocks(v, d');
    TargetGone(v, mid, lo, d, name, d', name', c);
    match LookupName(v, d', name') {
      case Ok(Some(t)) =>
        GonePages(v, mid, lo, d', name', c, t);
        if d != d' {
          NotTheTarget(v, mid, lo, d, name, d', name', c, t);
          KeptPages(v, mid, {t, d'}, d);
        }
      case Ok(None) =>
        RecsArePages(v, d');
        NotThere(DirPages(v, d'), name');
    }
  }

  /** What is asked of the volume before a rename holds, as far as the move of the entry needs
      it, once the target is gone. */
  lemma ProperMid(v: Vol, mid: Vol, lo: nat, d: nat, name: Name, d': nat, name': Name, c: u64)
    requires c < |v.table| && v.table[c].Live() && TargetReplaced(v, mid, lo, d', name', c)
    requires LookupName(v, d, name) == Ok(Some(c as nat)) && ProperMove(v, d, name, d', name')
    ensures d < |mid.table| && c < |mid.table| && mid.table[c].IsDir() == v.table[c].IsDir()
    ensures PagesRemovable(PagesOnce(mid, d, d', name', c, KindOf(mid.table[c])), name)
    ensures d' < |mid.table| && LinkToSpare(mid, c, d, d')
  {
    hide T, Page, Safe, Exact, DirOk, Blocks, Kept, Recs, Names, NodeOf, Utf8, LookupName, NsOk, PagesRemovable,
        PagesThen, PagesOnce, Removable, Owned, Empty, IsDot;
    LookedUp(v, d', name');
    PagesMid(v, mid, lo, d, name, d', name', c);
    TargetGone(v, mid, lo, d, name, d', name', c);
    var home :| NsOk(Ns(v), home);
    match LookupName(v, d', name') {
      case Ok(Some(t)) =>
        TargetNode(v, home, d', name', t);
        if v.table[c].IsDir() && d != d' {
          GoneLinks(v, mid, lo, d', name', c, t);
        }
      case Ok(None) =>
    }
  }

  lemma ReplacedFound(v: Vol, mid: Vol, lo: nat, d': nat, name': Name, c: nat)
    requires c < |v.table| && TargetReplaced(v, mid, lo, d', name', c)
    ensures LookupName(v, d', name').Ok?
  {
    hide T, Page, Utf8, LookupName, RmdirDone, UnlinkDone;
  }

  lemma GonePages(v: Vol, mid: Vol, lo: nat, d': nat, name': Name, c: nat, t: nat)
    requires c < |v.table| && TargetReplaced(v, mid, lo, d', name', c) && LookupName(v, d', name') == Ok(Some(t))
    ensures d' < |v.table| && d' < |mid.table|
    ensures Blocks(v, d') ==> DirPages(mid, d') == PagesRemoved(DirPages(v, d'), name')
  {
    hide T, Page, Safe, Exact, Blocks, Kept, Recs, Names, Utf8, LookupName, PagesRemoved, Owned, Empty, Removable,
        TreeOk, Shaped, Unlinked, RemovedChild;
  }

  lemma RecsArePages(v: Vol, d: nat)
    requires d < |v.table|
    ensures Recs(v, d) == DirRecs(DirPages(v, d))
  {
    hide DirRecs;
  }

  /** A removed target takes its link to the new parent with it. */
  lemma GoneLinks(v: Vol, mid: Vol, lo: nat, d': nat, name': Name, c: nat, t: nat)
    requires c < |v.table| && TargetReplaced(v, mid, lo, d', name', c) && LookupName(v, d', name') == Ok(Some(t))
    requires TreeOk(v) && !IsDot(name') && Removable(v, d', name') && DirInode(v, d') && v.table[d'].nlink > 0
    requires !v.table[c].IsDir() && t < |v.table| ==> v.table[t].nlink <= 1
    requires v.table[d'].nlink < 0xFFFF_FFFF || DirInode(v, t)
    ensures d' < |mid.table| && mid.table[d'].nlink < 0xFFFF_FFFF
  {
    hide T, Page, Safe, Exact, DirOk, Blocks, Kept, Recs, Names, Utf8, LookupName, NsOk, Removable,
        PagesRemoved, Owned, Empty, IsDot;
    DirNodeOf(v, d');
    DirNodeOf(mid, d');
    assert Ns(mid)[d'].nlink == if v.table[c].IsDir() then Ns(v)[d'].nlink - 1 else Ns(v)[d'].nlink;
  }

  /** The directory of the source holds a name, so it is not the target. */
  lemma NotTheTarget(v: Vol, mid: Vol, lo: nat, d: nat, name: Name, d': nat, name': Name, c: nat, t: nat)
    requires c < |v.table| && TargetReplaced(v, mid, lo, d', name', c) && LookupName(v, d', name') == Ok(Some(t))
    requires Shaped(v) && DirInode(v, d) && name in Names(Recs(v, d)) && !IsDot(name)
    ensures d != t && Kept(v, mid, {t, d'})
  {
    hide T, Page, Safe, Exact, Kept, Recs, Names, Utf8, LookupName, Removable, Owned, Shaped;
    if d == t && v.table[c].IsDir() {
      ShapedAt(v, d);
    }
  }

  /** A rename within its scope keeps the tree well formed and the accounting exact, and is the
      removal of the target, if there is one, followed by the move of one entry. */
  lemma RenameMoves(v: Vol, mid: Vol, v': Vol, lo: nat, d: nat, name: Name, d': nat, name': Name)
    requires RenameDone(v, mid, v', lo, d, name, d', name') && ProperMove(v, d, name, d', name')
    ensures DirInode(v, d) && DirInode(v, d') && |mid.table| == |v.table|
    ensures LookupName(v, d, name).value.Some?
    ensures var c := LookupName(v, d, name).value.value;
            && c < |v.table| && v.table[c].Live()
            && Ns(mid) == Vacated(Ns(v), d', name', v.table[c].IsDir())
            && DirInode(mid, d) && DirInode(mid, d') && TreeOk(mid) && c < |mid.table|
              && (v.table[c].IsDir() ==> DirInode(mid, c))
            && name in Ns(mid)[d].names && Ns(mid)[d].names[name].ino == c && name' !in Ns(mid)[d'].names
              && d' <= MAX_INO
            && Ns(v') == Moved(Ns(mid), d, name, d', name')
    ensures TreeOk(v')
    ensures Exact(v, lo) ==> Exact(v', lo)
  {
    hide T, Page, Safe, Exact, DirOk, Blocks, Kept, Recs, Names, NodeOf, Utf8, LookupName, NsOk, Removable,
        Owned, TargetReplaced, Carried, Moved;
    var c := LookupName(v, d, name).value.value;
    TargetGone(v, mid, lo, d, name, d', name', c);
    CarriedFacts(mid, v', lo, d, name, d', name', c);
    MovableIn(v, mid, lo, d, name, d', name', c);
    DirNodeOf(mid, d);
    DirNodeOf(mid, d');
    CarriedMoves(mid, v', lo, d, name, d', name', c);
    var home :| NsOk(Ns(mid), home);
    MovedOk(Ns(mid), home, d, name, d', name');
  }

  lemma CarriedFacts(v: Vol, v': Vol, lo: nat, d: nat, name: Name, d': nat, name': Name, c: u64)
    requires Carried(v, v', lo, d, name, d', name', c)
    ensures DirInode(v, d) && DirInode(v, d') && |v.table| <= MAX_INO && |v'.table| == |v.table| && 0 < c < |v.table|
    ensures Kept(v, v', Touched(v.table[c], d, d', c))
  {
    hide T, Page, Safe, Exact, Kept, Utf8, EntryMovable, Shaped, Ns;
  }

  lemma CarriedMoves(v: Vol, v': Vol, lo: nat, d: nat, name: Name, d': nat, name': Name, c: u64)
    requires Carried(v, v', lo, d, name, d', name', c)
    requires EntryMovable(v, d, name, d', name', c, KindOf(v.table[c])) && LinkToSpare(v, c, d, d')
    ensures Ns(v)[d].Dir? && name in Ns(v)[d].names
    ensures (Exact(v, lo) ==> Exact(v', lo)) && Shaped(v') && Ns(v') == Moved(Ns(v), d, name, d', name')
  {
    hide T, Page, Safe, Exact, Kept, Utf8, Shaped, Recs, Names, Moved, Ns, MoveSteps, EntryMovable, Aligned;
    MovableNode(v, d, name, d', name', c, KindOf(v.table[c]));
    ShapedAligned(v);
  }

  /** After the target is gone the source entry is still there, of the recorded kind, and the new
      name is free. */
  lemma EntryStays(v: Vol, mid: Vol, lo: nat, d: nat, name: Name, d': nat, name': Name, c: u64)
    requires TreeOk(v) && TreeOk(mid) && DirInode(v, d) && DirInode(v, d') && DirInode(mid, d) && DirInode(mid, d')
    requires 0 < c < |v.table| == |mid.table| && v.table[c].Live() && mid.table[c].Live()
    requires mid.table[c].IsDir() == v.table[c].IsDir()
    requires LookupName(v, d, name) == Ok(Some(c as nat)) && OrderlyMove(v, d, name, d', name')
    requires Ns(mid) == Vacated(Ns(v), d', name', v.table[c].IsDir()) && TargetReplaced(v, mid, lo, d', name', c)
    ensures name in Names(Recs(mid, d)) && Names(Recs(mid, d))[name] == Target(c, KindOf(mid.table[c]))
    ensures name' !in Names(Recs(mid, d'))
  {
    hide T, Page, Safe, Exact, DirOk, Blocks, Kept, Recs, Names, NodeOf, Utf8, LookupName, KidDirs, Removable,
        Owned, DirNode, HomeOk, DirPages, PagesRemoved, Empty, IsDot;
    LookedUp(v, d, name);
    LookedUp(v, d', name');
    ShapedAt(v, d);
    ShapedAt(v, d');
    LookupNames(v, d, name);
    LookupNames(v, d', name');
    DirNodeOf(v, d);
    DirNodeOf(v, d');
    DirNodeOf(mid, d);
    DirNodeOf(mid, d');
    KindOfNode(v, c);
    var home :| NsOk(Ns(v), home);
    assert EntryOk(Ns(v), home, d, name);
    if name' in Ns(v)[d'].names {
      var t := Ns(v)[d'].names[name'].ino;
      assert EntryOk(Ns(v), home, d', name');
      TargetNode(v, home, d', name', t);
      assert t != d';
      assert Ns(mid) == if v.table[c].IsDir() then RemovedChild(Ns(v), d', name') else Unlinked(Ns(v), d', name');
    }
    assert name in Ns(mid)[d].names && Ns(mid)[d].names[name] == Ns(v)[d].names[name];
    assert name' !in Ns(mid)[d'].names;
  }

  lemma MovableIn(v: Vol, mid: Vol, lo: nat, d: nat, name: Name, d': nat, name': Name, c: u64)
    requires TreeOk(v) && TreeOk(mid) && DirInode(v, d) && DirInode(v, d') && DirInode(mid, d) && DirInode(mid, d')
    requires 0 < c < |v.table| == |mid.table| && v.table[c].Live() && mid.table[c].Live()
    requires mid.table[c].IsDir() == v.table[c].IsDir()
    requires LookupName(v, d, name) == Ok(Some(c as nat)) && ProperMove(v, d, name, d', name')
    requires Ns(mid) == Vacated(Ns(v), d', name', v.table[c].IsDir()) && TargetReplaced(v, mid, lo, d', name', c)
    ensures EntryMovable(mid, d, name, d', name', c, KindOf(mid.table[c])) && LinkToSpare(mid, c, d, d')
  {
    hide T, Page, Safe, Exact, DirOk, Blocks, Kept, Recs, Names, NodeOf, Utf8, LookupName, KidDirs, Removable,
        PagesThen, PagesRemovable, PagesOnce, Owned, DirNode, HomeOk, TargetReplaced, Ns, Vacated, NsOk, Shaped;
    ProperMid(v, mid, lo, d, name, d', name', c);
    EntryStays(v, mid, lo, d, name, d', name', c);
  }

  // ---------------------------------------------------------------- a rename that is refused

  /** The entry a move is about to take out is still there once the new one is in. */
  lemma StillThere(v: Vol, v2: Vol, lo: nat, d: nat, name: Name, d': nat, name': Name, c: u64, fileType: byte)
    requires DirInode(v, d') && DirAdded(v, v2, lo, d', c, name', fileType)
    ensures EntryMovable(v, d, name, d', name', c, fileType) ==>
      DirInode(v2, d) && Blocks(v2, d) && name in Names(Recs(v2, d))
  {
    hide T, Page, Safe, Exact, DirOk, Blocks, Shaped, Recs, Names, OthersKept, DirAdded, Utf8;
    AddedNode(v, v2, lo, d', c, name', fileType);
    OthersTable(v, v2, d');
    if EntryMovable(v, d, name, d', name', c, fileType) {
      ShapedAt(v, d);
      ShapedAt(v, d');
      DirNodeOf(v2, d);
      if d != d' {
        NodeKept(v, v2, d', d);
      }
      OkBlocks(v2, d);
    }
  }

  lemma OkBlocks(v: Vol, d: nat)
    requires DirOk(v, d)
    ensures Blocks(v, d)
  {
    hide Blocks, Page, Utf8, Recs, Unique;
  }

  /** A directory that moves has its `..` where the program looks for it. */
  lemma Turnable(v: Vol, c: nat)
    requires Shaped(v) && DirInode(v, c)
    ensures DirOk(v, c) && v.table[c].direct[0] != 0
  {
    hide DirOk, Page, Utf8, RecsOf, FindNamed;
    ShapedAt(v, c);
    DotdotFirst(v, c);
  }

  /** Within the scope of a rename, the move can be carried out once the target is gone. */
  lemma RenameMovable(v: Vol, mid: Vol, lo: nat, d: nat, name: Name, d': nat, name': Name, c: u64)
    requires 0 < c < |v.table| && v.table[c].Live() && TargetReplaced(v, mid, lo, d', name', c)
    requires LookupName(v, d, name) == Ok(Some(c as nat)) && ProperMove(v, d, name, d', name')
    ensures 0 < d && c < |mid.table| && EntryMovable(mid, d, name, d', name', c, KindOf(mid.table[c]))
    ensures v.table[c].IsDir() ==> v.table[c].direct[0] != 0
  {
    hide T, Page, Safe, Exact, DirOk, Blocks, Kept, Recs, Names, NodeOf, Utf8, LookupName, NsOk, Removable,
        PagesThen, Owned, Empty, IsDot, Shaped, Ns, Vacated, EntryMovable;
    LookedUp(v, d, name);
    TargetGone(v, mid, lo, d, name, d', name', c);
    DirectoriesStay(v, mid, lo, d, name, d', name', c);
    MovableIn(v, mid, lo, d, name, d', name', c);
    if v.table[c].IsDir() {
      Turnable(v, c);
    }
  }

  lemma DirectoriesStay(v: Vol, mid: Vol, lo: nat, d: nat, name: Name, d': nat, name': Name, c: nat)
    requires c < |v.table| && v.table[c].Live() && TargetReplaced(v, mid, lo, d', name', c)
    requires LookupName(v, d, name) == Ok(Some(c)) && OrderlyMove(v, d, name, d', name')
    ensures DirInode(mid, d) && DirInode(mid, d')
  {
    hide T, Page, Safe, Exact, DirOk, Blocks, Kept, Recs, Names, NodeOf, Utf8, LookupName, NsOk, Removable,
        PagesThen, Owned, Empty, IsDot, Ns;
    LookedUp(v, d, name);
    LookedUp(v, d', name');
    FoundAmongNames(v, d, name);
    ShapedAt(v, d);
    OkBlocks(v, d);
    match LookupName(v, d', name') {
      case Ok(Some(t)) =>
        NotTheTarget(v, mid, lo, d, name, d', name', c, t);
        KeptLength(v, mid, {t, d'});
      case Ok(None) =>
    }
  }

  /** What a rename is to replace can be removed if it is a file or an empty directory. */
  lemma ReplaceableTarget(v: Vol, lo: nat, d: nat, name: Name, d': nat, name': Name, t: nat)
    requires ProperMove(v, d, name, d', name') && LookupName(v, d', name') == Ok(Some(t))
    ensures UnlinkResult(v, d', name') == if t < |v.table| && v.table[t].IsDir() then Err(IsDir) else Ok(())
    ensures RmdirResult(v, d', name') == if !DirInode(v, t) then Err(NotDir)
                                         else if Empty(Names(Recs(v, t))) then Ok(()) else Err(NotEmpty)
    ensures !OwnChild(v, d', name')
  {
    hide T, Page, Safe, Exact, DirOk, Blocks, Recs, Names, Utf8, LookupName, Removable, PagesThen, IsDot, NsOk,
        RemoveResult, ListingOf, PagesRemovable, Empty, OnlyDots;
    NamedNode(v, d', name', t);
    LookedUp(v, d', name');
    ShapedAt(v, d');
    OkBlocks(v, d');
    LookupNames(v, d', name');
    RemoveResultTiled(v, d', name');
    if DirInode(v, t) {
      ShapedAt(v, t);
      OkBlocks(v, t);
      RmdirTarget(v, t);
      EmptyListing(v, t);
      if t == d' {
        NotEmptyWith(Names(Recs(v, t)), name');
      }
    }
  }

  lemma NotEmptyWith(names: map<Name, Target>, name: Name)
    requires name in names && !IsDot(name)
    ensures !Empty(names)
  {
    hide Utf8, IsDot;
  }

  /** Why a move stopped, and what it leaves: the new entry was not added, which no contents show;
      the old one could not be taken out once the new one was there; or `..` of `source`, the
      record of the moved directory as it was read first, could not be turned after both. */
  ghost predicate MoveStopped(v: Vol, v': Vol, lo: nat, d: nat, name: Name, d': nat, name': Name, c: nat, source: Inode,
      e: FsError)
    requires c < |v.table|
  {
    match AddResult(v, |FreeData(v, lo)|, d', name')
    case Err(x) => e == x && EntryLeft(v, v', lo, d', name', e)
    case Ok(_) =>
      && c <= MAX_INO
      && exists v2 ::
           && DirAdded(v, v2, lo, d', c, name', KindOf(v.table[c]))
           && StoppedAfter(v2, v', lo, d, name, d', c, source, e)
  }

  /** Why a move stopped once the new entry was there. */
  ghost predicate StoppedAfter(v2: Vol, v': Vol, lo: nat, d: nat, name: Name, d': nat, c: nat, source: Inode,
      e: FsError) {
    match RemoveResult(v2, d, name)
    case Err(x) => e == x && v' == v2
    case Ok(_) =>
      && source.IsDir() && d != d' && d' <= MAX_INO && DirRemoved(v2, v', lo, d, name)
      && TurnResult(v', source, c, d') == Err(e)
  }

  /** Why a rename to another name was refused, and what it leaves.  Until a target is removed nothing
      has changed, but for a directory that contains itself, which is then gone. */
  ghost predicate RenameRefused(v: Vol, mid: Vol, v': Vol, lo: nat, d: nat, name: Name, d': nat, name': Name,
      e: FsError) {
    && (d != d' || name != name')
    && match LookupName(v, d, name)
    case Err(x) => e == x && mid == v && v' == v
    case Ok(None) => e == NotFound && mid == v && v' == v
    case Ok(Some(c)) =>
      if c == 0 || c >= |v.table| || !v.table[c].Live() then e == NotFound && mid == v && v' == v
      else
        match LookupName(v, d', name')
        case Err(x) => e == x && mid == v && v' == v
        case Ok(None) => mid == v && MoveStopped(v, v', lo, d, name, d', name', c, v.table[c], e)
        case Ok(Some(t)) =>
          if t == 0 || t >= |v.table| || !v.table[t].Live() then e == NotFound && mid == v && v' == v
          else if v.table[c].IsDir() && !v.table[t].IsDir() then e == NotDir && mid == v && v' == v
          else if !v.table[c].IsDir() && v.table[t].IsDir() then e == IsDir && mid == v && v' == v
          else
            match if v.table[c].IsDir() then RmdirResult(v, d', name') else UnlinkResult(v, d', name')
            case Err(x) =>
              && e == x && mid == v
              && if v.table[c].IsDir() then RmdirLeft(v, v', lo, d', name') else v' == v
            case Ok(_) =>
              && TargetReplaced(v, mid, lo, d', name', c) && c < |mid.table|
              && MoveStopped(mid, v', lo, d, name, d', name', c, v.table[c], e)
  }

  /** Within the scope of a rename the only thing to fail once a target is gone is adding the new
      entry, and no contents show that. */
  lemma StoppedInScope(v: Vol, mid: Vol, v': Vol, lo: nat, d: nat, name: Name, d': nat, name': Name, e: FsError)
    requires RenameRefused(v, mid, v', lo, d, name, d', name', e) && ProperMove(v, d, name, d', name') && v' != v
    ensures LookupName(v, d, name).Ok? && LookupName(v, d, name).value.Some?
    ensures var c := LookupName(v, d, name).value.value;
            && 0 < c < |v.table| && v.table[c].Live() && TargetReplaced(v, mid, lo, d', name', c)
            && Unseen(mid, v', lo) && AddResult(mid, |FreeData(mid, lo)|, d', name') == Err(e)
  {
    hide T, Page, Safe, Exact, Utf8, LookupName, Unseen, ProperMove, DirAdded, DirRemoved, AddResult, TurnResult,
        TargetReplaced, RemoveResult, UnlinkResult, RmdirResult, Empty, Names, Recs, OwnChild, MoveStopped;
    var c := LookupName(v, d, name).value.value;
    ScopeFacts(v, d, name, d', name');
    match LookupName(v, d', name') {
      case Ok(Some(t)) =>
        ReplaceableTarget(v, lo, d, name, d', name', t);
        MoveCannotStop(v, mid, v', lo, d, name, d', name', c, e);
      case Ok(None) =>
        NothingReplaced(v, lo, d', name', c);
        MoveCannotStop(v, mid, v', lo, d, name, d', name', c, e);
    }
  }

  lemma NothingReplaced(v: Vol, lo: nat, d': nat, name': Name, c: nat)
    requires c < |v.table| && LookupName(v, d', name') == Ok(None)
    ensures TargetReplaced(v, v, lo, d', name', c)
  {
    hide T, Page, Utf8, LookupName;
  }

  lemma ScopeFacts(v: Vol, d: nat, name: Name, d': nat, name': Name)
    requires ProperMove(v, d, name, d', name')
    ensures OrderlyMove(v, d, name, d', name')
    ensures LookupName(v, d, name).Ok? && LookupName(v, d', name') != LookupName(v, d, name) && !IsDot(name')
  {
    hide TreeOk, LookupName, Removable, PagesRemovable, PagesThen;
  }

  /** Once a target is gone, a move within scope cannot stop after its new entry is there. */
  lemma MoveCannotStop(v: Vol, mid: Vol, v': Vol, lo: nat, d: nat, name: Name, d': nat, name': Name, c: nat, e: FsError)
    requires 0 < c < |v.table| && v.table[c].Live() && TargetReplaced(v, mid, lo, d', name', c)
    requires LookupName(v, d, name) == Ok(Some(c)) && ProperMove(v, d, name, d', name')
    requires c < |mid.table| && MoveStopped(mid, v', lo, d, name, d', name', c, v.table[c], e)
    ensures Unseen(mid, v', lo) && AddResult(mid, |FreeData(mid, lo)|, d', name') == Err(e)
  {
    hide T, Page, Safe, Exact, Utf8, LookupName, Unseen, ProperMove, DirAdded, DirRemoved, AddResult, TurnResult,
        TargetReplaced, RemoveResult, EntryMovable, Names, Recs, Blocks, DirOk, Shaped;
    ScopeFacts(v, d, name, d', name');
    if AddResult(mid, |FreeData(mid, lo)|, d', name').Ok? {
      RenameMovable(v, mid, lo, d, name, d', name', c);
      SourceStays(v, mid, lo, d, name, d', name', c);
      DirectoriesStay(v, mid, lo, d, name, d', name', c);
      var v2 :|
        && DirAdded(mid, v2, lo, d', c, name', KindOf(mid.table[c]))
        && StoppedAfter(v2, v', lo, d, name, d', c, v.table[c], e);
      EntryThere(mid, v2, lo, d, name, d', name', c);
      if v.table[c].IsDir() && d != d' && d' <= MAX_INO && DirRemoved(v2, v', lo, d, name) {
        DotdotThere(mid, v2, v', lo, d, name, d', name', c, v.table[c]);
      }
    }
  }

  /** When the entry can be moved, the step after the addition cannot fail. */
  lemma EntryThere(v: Vol, v2: Vol, lo: nat, d: nat, name: Name, d': nat, name': Name, c: u64)
    requires 0 < d && c < |v.table| && DirInode(v, d') && EntryMovable(v, d, name, d', name', c, KindOf(v.table[c]))
    requires DirAdded(v, v2, lo, d', c, name', KindOf(v.table[c]))
    ensures RemoveResult(v2, d, name) == Ok(())
  {
    hide T, Page, Safe, Exact, Utf8, DirAdded, RemoveResult, Names, Recs, Blocks, DirOk, Shaped, PagesRemovable,
        PagesOnce, EntryMovable;
    StillThere(v, v2, lo, d, name, d', name', c, KindOf(v.table[c]));
    RemoveResultTiled(v2, d, name);
  }

  /** Nor the last one, for a directory. */
  lemma DotdotThere(v: Vol, v2: Vol, v3: Vol, lo: nat, d: nat, name: Name, d': nat, name': Name, c: u64, source: Inode)
    requires 0 < d && c < |v.table| && DirInode(v, c) && source.direct[0] != 0
    requires DirInode(v, d) && DirInode(v, d') && EntryMovable(v, d, name, d', name', c, KindOf(v.table[c]))
    requires DirAdded(v, v2, lo, d', c, name', KindOf(v.table[c])) && DirRemoved(v2, v3, lo, d, name) && d' <= MAX_INO
    requires d != d'
    ensures TurnResult(v3, source, c, d') == Ok(())
  {
    hide T, Page, Safe, Exact, Utf8, DirAdded, DirRemoved, TurnResult, Names, Recs, Blocks, DirOk, Shaped,
        PagesRemovable, PagesOnce, EntryMovable, NodeOf, OthersKept;
    MoveShapes(v, v2, v3, lo, d, name, d', name', c);
    TurnResultOk(v3, c, d');
    TurnWhatever(v3, c, source, d');
  }

  /** Which copy of the record is used does not matter as long as it has a first block. */
  lemma TurnWhatever(v: Vol, c: nat, source: Inode, ino: u64)
    requires c < |v.table| && TurnResult(v, v.table[c], c, ino) == Ok(()) && source.direct[0] != 0
    ensures TurnResult(v, source, c, ino) == Ok(())
  {
    hide T, Page, Utf8, TurnFrom;
  }

  lemma MoveShapes(v: Vol, v2: Vol, v3: Vol, lo: nat, d: nat, name: Name, d': nat, name': Name, c: u64)
    requires c < |v.table| && DirInode(v, c) && DirInode(v, d) && DirInode(v, d') && d != d'
    requires EntryMovable(v, d, name, d', name', c, KindOf(v.table[c]))
    requires DirAdded(v, v2, lo, d', c, name', KindOf(v.table[c])) && DirRemoved(v2, v3, lo, d, name)
    ensures DirInode(v3, c) && DirOk(v3, c)
  {
    hide T, Page, Safe, Exact, Utf8, DirAdded, DirRemoved, Names, Recs, Blocks, DirOk, Shaped, PagesRemovable, NodeOf,
        OthersKept;
    ShapedAt(v, d);
    ShapedAt(v, d');
    ShapedAt(v, c);
    AddedNode(v, v2, lo, d', c, name', KindOf(v.table[c]));
    OthersTable(v, v2, d');
    NodeKept(v, v2, d', d);
    PagesElsewhere(v, v2, d', d);
    if c != d' {
      NodeKept(v, v2, d', c);
    }
    RemovedNode(v2, v3, lo, d, name);
    OthersTable(v2, v3, d);
    if c != d {
      NodeKept(v2, v3, d, c);
    }
  }

  /** In a well-formed tree lookups answer from the nodes. */
  lemma LookupNode(v: Vol, x: nat, nm: Name)
    requires TreeOk(v) && DirInode(v, x)
    ensures Ns(v)[x].Dir?
    ensures LookupName(v, x, nm) == Ok(if nm in Ns(v)[x].names then Some(Ns(v)[x].names[nm].ino as nat) else None)
  {
    hide T, Page, Blocks, Recs, Names, Utf8, DirNode, EntryOk, HomeOk, KidDirs, LookupName;
    var home :| NsOk(Ns(v), home);
    DirNodeOf(v, x);
    ShapedAt(v, x);
    LookupNames(v, x, nm);
  }

  /** The bindings of the tree of names after the target is gone and the entry has moved. */
  lemma MovedBindings(ns: seq<Node>, d: nat, name: Name, d': nat, name': Name, turned: bool, x: nat, nm: Name)
    requires d < |ns| && d' < |ns| && d' <= MAX_INO && ns[d].Dir? && ns[d'].Dir? && x < |ns|
    requires var mid := Vacated(ns, d', name', turned);
             mid[d].Dir? && mid[d'].Dir? && name in mid[d].names && name' !in mid[d'].names
    requires !IsDot(name) && !IsDot(name') && (d != d' || name != name')
    ensures var mid := Vacated(ns, d', name', turned);
            var ns' := Moved(mid, d, name, d', name');
            && ns'[d].Dir? && ns'[d'].Dir? && name !in ns'[d].names
            && name' in ns'[d'].names && ns'[d'].names[name'] == mid[d].names[name]
            && (ns'[x].Dir? ==>
              && ns[x].Dir? && mid[x].Dir?
              && (!IsDot(nm) && !(x == d && nm == name) && !(x == d' && nm == name') ==>
                (nm in ns'[x].names <==> nm in ns[x].names)
                    && (nm in ns[x].names ==> ns'[x].names[nm] == ns[x].names[nm])))
  {
    hide Utf8;
  }

  /** A directory that moves to another parent finds that parent under `..`. */
  lemma TurnedUp(ns: seq<Node>, home: map<nat, Home>, d: nat, name: Name, d': nat, name': Name)
    requires NsOk(ns, home) && d < |ns| && d' < |ns| && d' <= MAX_INO && ns[d].Dir? && ns[d'].Dir?
    requires name in ns[d].names && !IsDot(name) && !IsDot(name') && d != d'
    requires ns[d].names[name].ino < |ns| && ns[ns[d].names[name].ino].Dir?
    ensures var c := ns[d].names[name].ino;
            var ns' := Moved(ns, d, name, d', name');
            ns'[c].Dir? && DOTDOT in ns'[c].names && ns'[c].names[DOTDOT].ino == d'
  {
    hide Utf8, KidDirs;
    assert DirNode(ns, home, ns[d].names[name].ino);
  }

  /** A rename within its scope moves exactly one binding: the inode is found under the new name
      and no longer under the old one, a moved directory's `..` names its new parent, and every
      other name in every directory that is left stands for what it stood for. */
  lemma RenamedLookups(v: Vol, mid: Vol, v': Vol, lo: nat, d: nat, name: Name, d': nat, name': Name)
    requires RenameDone(v, mid, v', lo, d, name, d', name') && ProperMove(v, d, name, d', name')
    ensures LookupName(v', d', name') == LookupName(v, d, name)
    ensures LookupName(v', d, name) == Ok(None)
    ensures var c := LookupName(v, d, name).value.value;
            c < |v.table| && v.table[c].IsDir() && d != d' ==> LookupName(v', c, DOTDOT) == Ok(Some(d'))
    ensures forall x: nat, nm: Name {:trigger LookupName(v', x, nm)} ::
      DirInode(v', x) && !IsDot(nm) && !(x == d && nm == name) && !(x == d' && nm == name') ==>
        LookupName(v', x, nm) == LookupName(v, x, nm)
  {
    hide T, Page, Safe, Exact, DirOk, Blocks, Kept, Recs, Names, NodeOf, Utf8, LookupName, NsOk, Removable,
        Owned, TargetReplaced, Carried, RenameDone, KidDirs, Moved, Vacated, IsDot;
    RenameMoves(v, mid, v', lo, d, name, d', name');
    var c := LookupName(v, d, name).value.value;
    OtherNodes(v);
    OtherNodes(mid);
    OtherNodes(v');
    LookupNode(v, d, name);
    var turned := v.table[c].IsDir();
    MovedBindings(Ns(v), d, name, d', name', turned, d, name);
    LookupNode(v', d', name');
    LookupNode(v', d, name);
    if turned && d != d' {
      TurnedLookup(mid, v', d, name, d', name', c);
    }
    forall x: nat, nm: Name | DirInode(v', x) && !IsDot(nm) && !(x == d && nm == name) && !(x == d' && nm == name')
      ensures LookupName(v', x, nm) == LookupName(v, x, nm)
    {
      MovedBindings(Ns(v), d, name, d', name', turned, x, nm);
      LookupNode(v, x, nm);
      LookupNode(v', x, nm);
    }
  }

  lemma TurnedLookup(mid: Vol, v': Vol, d: nat, name: Name, d': nat, name': Name, c: nat)
    requires TreeOk(mid) && TreeOk(v') && DirInode(mid, d) && DirInode(mid, d') && d' <= MAX_INO && d != d'
    requires name in Ns(mid)[d].names && Ns(mid)[d].names[name].ino == c && !IsDot(name) && !IsDot(name')
    requires DirInode(mid, c) && Ns(v') == Moved(Ns(mid), d, name, d', name')
    ensures LookupName(v', c, DOTDOT) == Ok(Some(d'))
  {
    hide T, Page, Blocks, Recs, Names, Utf8, DirNode, EntryOk, HomeOk, KidDirs, LookupName, Moved;
    OtherNodes(mid);
    OtherNodes(v');
    var home :| NsOk(Ns(mid), home);
    TurnedUp(Ns(mid), home, d, name, d', name');
    LookupNode(v', c, DOTDOT);
  }

  /** The inode that a rename replaces. */
  function TargetSet(v: Vol, d': nat, name': Name): set<nat> {
    match LookupName(v, d', name')
    case Ok(Some(t)) => {t}
    case _ => {}
  }

  /** Whatever the operands, a rename leaves every inode alone but the two directories, the
      replaced target and a directory that changes parents. */
  lemma {:induction false} RenameKeeps(v: Vol, mid: Vol, v': Vol, lo: nat, d: nat, name: Name, d': nat, name': Name)
    requires RenameDone(v, mid, v', lo, d, name, d', name') && LookupName(v, d, name).Ok?
    requires LookupName(v, d, name).value.Some?
    ensures var c := LookupName(v, d, name).value.value;
            c < |v.table| ==> Kept(v, v', TargetSet(v, d', name') + {d'}
                + (if v.table[c].IsDir() && d != d' then {c, d, d'} else {d, d'}))
  {
    hide T, Page, Safe, Exact, DirOk, Blocks, Kept, Recs, Names, NodeOf, Utf8, LookupName, NsOk, Removable,
        Owned, Carried, Shaped;
    KeptRefl(v);
    var c := LookupName(v, d, name).value.value;
    if c < |v.table| {
      var but := TargetSet(v, d', name') + {d'} + (if v.table[c].IsDir() && d != d' then {c, d, d'} else {d, d'});
      if mid == v && v' == v {
        KeptMore(v, v', {}, but);
      } else {
        CarriedFacts(mid, v', lo, d, name, d', name', c);
        var first := if LookupName(v, d', name').value.None? then {} else {LookupName(v, d', name').value.value, d'};
        KeptLength(v, mid, first);
        KeptTrans(v, mid, v', first, Touched(mid.table[c], d, d', c));
        KeptMore(v, v', first + Touched(mid.table[c], d, d', c), but);
      }
    }
  }

  lemma KeptMore(v: Vol, v': Vol, a: set<nat>, b: set<nat>)
    requires Kept(v, v', a) && a <= b
    ensures Kept(v, v', b)
  {
    hide T, Page;
  }

  lemma TargetRemovable(v: Vol, d: nat, name: Name)
    requires TreeOk(v) && LookupName(v, d, name).Ok?
    requires LookupName(v, d, name) == Ok(None) || InFirst(v, d, name)
    ensures Removable(v, d, name)
  {
    hide T, Page, Recs, Names, NodeOf, Utf8, LookupName, NsOk, FindNamed, RecsOf, Blocks;
    LookedUp(v, d, name);
    ShapedAt(v, d);
    LookupNames(v, d, name);
    if InFirst(v, d, name) {
      InFirstBlockRemovable(v, d, name);
    } else {
      RecsArePages(v, d);
      HolderNames(DirPages(v, d), name);
    }
  }

  /** The first block of a directory, as it is kept while other names come and go. */
  ghost predicate FirstHolds(pages: seq<Layout.Block>, name: Name) {
    && AllTiled(pages) && pages != [] && FirstBlock(RecsOf(pages[0])) && Unique(RecsOf(pages[0]))
    && name in Names(RecsOf(pages[0]))
  }

  lemma FirstHoldsRemovable(pages: seq<Layout.Block>, name: Name)
    requires FirstHolds(pages, name)
    ensures PagesRemovable(pages, name)
  {
    hide Utf8, Names, FindNamed, RecsOf, FirstBlock, Unique;
    NamesFind(RecsOf(pages[0]), name);
    FirstBlockRemovable(RecsOf(pages[0]), FindNamed(RecsOf(pages[0]), name));
  }

  /** Taking another name out of it. */
  lemma FirstHoldsRemoved(pages: seq<Layout.Block>, name: Name, gone: Name)
    requires FirstHolds(pages, name) && !IsDot(gone) && name != gone
    requires gone !in Names(DirRecs(pages)) || gone in Names(RecsOf(pages[0]))
    ensures FirstHolds(PagesRemoved(pages, gone), name) && gone !in Names(RecsOf(PagesRemoved(pages, gone)[0]))
  {
    hide Utf8, Names, FindNamed, Walk, PagesRemoved, FirstBlock, Unique, DirRecs, EntryRemoved, RecsOf, Adjacent,
        RemovedRec, TakeAt;
    HolderNames(pages, gone);
    NamesFind(RecsOf(pages[0]), gone);
    if HolderOf(pages, gone) < |pages| {
      var recs, k := RecsOf(pages[0]), FindNamed(RecsOf(pages[0]), gone);
      FirstHoldsRemovable(pages, gone);
      RemovedTiled(pages, gone);
      RemovedFirstPage(pages, gone);
      PagesRemovedAt(pages, gone);
      FirstTiles(pages);
      RemovedRecs(pages[0], PagesRemoved(pages, gone)[0], recs, k);
      RecsWalk(PagesRemoved(pages, gone)[0]);
      RemovedNames(recs, RecsOf(PagesRemoved(pages, gone)[0]), gone);
    } else {
      NotThere(pages, gone);
      DirRecsAt(pages, 0);
      NamesIn(RecsOf(pages[0]), gone);
      NamesIn(DirRecs(pages), gone);
      DirRecsNone(pages[..0]);
      assert forall k :: 0 <= k < |RecsOf(pages[0])| ==> DirRecs(pages)[k] == RecsOf(pages[0])[k];
    }
  }

  lemma FirstTiles(pages: seq<Layout.Block>)
    requires AllTiled(pages) && pages != []
    ensures Tiles(pages[0], 0, RecsOf(pages[0]), Layout.UB)
  {
    hide Utf8, Walk, Tiles;
    WalkTiles(pages[0], 0, RecsOf(pages[0]));
  }

  /** Adding a name. */
  lemma FirstHoldsAdded(pages: seq<Layout.Block>, name: Name, c: u64, name': Name, fileType: byte)
    requires FirstHolds(pages, name) && |name'| < 0x100 && c != 0 && name' !in Names(RecsOf(pages[0]))
    ensures FirstHolds(PagesAdded(pages, c, name', fileType), name)
  {
    hide Utf8, Names, FindNamed, Walk, PagesAdded, FirstBlock, Unique, DirRecs, RecsOf, RequiredLen, PutIn, InsertRecs,
        Place, HasRoom, Fits, NewPage;
    AddedFirst(pages, c, name', fileType);
    PagesAddedAt(pages, c, name', fileType);
    PagesAddedTiled(pages, c, name', fileType);
    if RoomAt(pages, RequiredLen(|name'|)) == 0 {
      var recs, recs' := RecsOf(pages[0]), RecsOf(PagesAdded(pages, c, name', fileType)[0]);
      PutInRecs(pages[0], PagesAdded(pages, c, name', fileType)[0], c, name', fileType);
      var p, e, q := InsertedSomewhere(recs, c, name', fileType);
      assert EntryAdded(recs, recs', c, name', fileType);
      AddedNames(recs, recs', c, name', fileType);
    }
  }

  lemma PagesAddedTiled(pages: seq<Layout.Block>, c: u64, name': Name, fileType: byte)
    requires AllTiled(pages) && |name'| < 0x100
    ensures AllTiled(PagesAdded(pages, c, name', fileType))
  {
    hide Utf8, Walk, PagesAdded, PutIn, NewPage, RequiredLen, RecsOf;
    PagesAddedAt(pages, c, name', fileType);
    var at := RoomAt(pages, RequiredLen(|name'|));
    if at < |pages| {
      PutInWalk(pages[at], PagesAdded(pages, c, name', fileType)[at], c, name', fileType);
    } else {
      NewPageWalk(c, name', fileType);
    }
  }

  lemma FirstIsHeld(v: Vol, d: nat, name: Name)
    requires TreeOk(v) && DirInode(v, d) && InFirst(v, d, name)
    ensures FirstHolds(DirPages(v, d), name)
  {
    hide T, Page, Utf8, NsOk, FindNamed, RecsOf, DirRecs, Walk, Names, FirstBlock;
    ShapedAt(v, d);
    AllTiledBlocks(v, d);
    assert DirPages(v, d)[0] == Page(v, d, 0);
    NamesFind(RecsOf(Page(v, d, 0)), name);
    FirstUnique(DirPages(v, d));
  }

  lemma FirstUnique(pages: seq<Layout.Block>)
    requires pages != [] && Unique(DirRecs(pages))
    ensures Unique(RecsOf(pages[0]))
  {
    hide Utf8, Walk, RecsOf;
    assert forall k :: 0 <= k < |RecsOf(pages[0])| ==> DirRecs(pages)[k] == RecsOf(pages[0])[k];
  }

  lemma InFirstNamed(v: Vol, d: nat, name: Name)
    requires d < |v.table| && DirPages(v, d) != []
    ensures InFirst(v, d, name) <==> name in Names(RecsOf(DirPages(v, d)[0]))
  {
    hide Page, Utf8, RecsOf, FindNamed, Names;
    NamesFind(RecsOf(Page(v, d, 0)), name);
  }

  /** In a well-formed tree a name other than `.` and `..` stands for a live inode. */
  lemma NamedNode(v: Vol, d: nat, name: Name, c: nat)
    requires TreeOk(v) && LookupName(v, d, name) == Ok(Some(c)) && !IsDot(name)
    ensures 1 < c < |v.table| && v.table[c].Live()
  {
    hide T, Page, Utf8, DirNode, HomeOk, KidDirs, LookupName, Recs, IsDot, Shaped;
    LookedUp(v, d, name);
    LookupNode(v, d, name);
    var home :| NsOk(Ns(v), home);
    assert EntryOk(Ns(v), home, d, name);
    assert !Ns(v)[c].Free?;
  }

  /** A rename whose old name, and whose target if there is one, stand in the first block of
      their directories is within scope. */
  lemma FirstBlockMove(v: Vol, d: nat, name: Name, d': nat, name': Name)
    requires TreeOk(v) && !IsDot(name) && !IsDot(name')
    requires LookupName(v, d, name).Ok? && LookupName(v, d', name').Ok?
    requires LookupName(v, d', name') != LookupName(v, d, name)
    requires d < |v.table| && InFirst(v, d, name)
    requires LookupName(v, d', name') == Ok(None) || InFirst(v, d', name')
    requires d' < |v.table| && LinkThere(v, d, name, d', name')
    ensures ProperMove(v, d, name, d', name')
  {
    hide T, Page, Recs, Names, NodeOf, Utf8, LookupName, NsOk, Removable, Shaped, InFirst, Blocks, DirOk, IsDot,
        PagesAdded, PagesRemoved, PagesRemovable, FirstHolds, DirRecs;
    LookedUp(v, d, name);
    LookedUp(v, d', name');
    TargetRemovable(v, d', name');
    FirstIsHeld(v, d, name);
    FirstHoldsRemovable(DirPages(v, d), name);
    if d == d' {
      var gone := PagesRemoved(DirPages(v, d), name');
      ShapedAt(v, d);
      OkBlocks(v, d);
      LookupNames(v, d, name');
      RecsArePages(v, d);
      InFirstNamed(v, d, name');
      FirstHoldsRemoved(DirPages(v, d), name, name');
      FirstHoldsRemovable(gone, name);
      if LookupName(v, d, name).value.Some? && |name'| < 0x100 {
        var c := LookupName(v, d, name).value.value;
        NamedNode(v, d, name, c);
        if c <= MAX_INO {
          FirstHoldsAdded(gone, name, c, name', KindOf(v.table[c]));
          FirstHoldsRemovable(PagesAdded(gone, c, name', KindOf(v.table[c])), name);
        }
      }
    }
  }

  /** The inodes a rename can touch. */
  function Involved(v: Vol, d: nat, name: Name, d': nat, name': Name): set<nat> {
    var source := match LookupName(v, d, name) { case Ok(Some(c)) => {c} case _ => {} };
    {d, d'} + source + TargetSet(v, d', name')
  }

  lemma MoveSpared(v: Vol, v': Vol, d: nat, d': nat, c: nat)
    requires Kept(v, v', {d, d'})
    ensures Spared(v, v', {c, d, d'})
  {
    hide T, Page;
  }

  /** A directory seen after an entry was added to another one was there before. */
  lemma DirStays(v: Vol, v2: Vol, d': nat, d: nat)
    requires OthersKept(v, v2, d') && DirInode(v, d') && DirInode(v2, d)
    ensures DirInode(v, d)
  {
    hide T, Page;
  }

  /** The source of a move, read before the target was removed, is still an earlier copy of the
      stored inode. */
  lemma SourceStays(v: Vol, mid: Vol, lo: nat, d: nat, name: Name, d': nat, name': Name, c: nat)
    requires c < |v.table| && v.table[c].Live() && TargetReplaced(v, mid, lo, d', name', c)
    requires LookupName(v, d, name) == Ok(Some(c))
    ensures c < |mid.table| == |v.table| && mid.table[c].Live() && mid.table[c].IsDir() == v.table[c].IsDir()
    ensures OlderPointers(v.table[c], mid.table[c])
    ensures Spared(v, mid, Involved(v, d, name, d', name'))
  {
    hide T, Page, Safe, Exact, Blocks, Shaped, Recs, Names, Kept, Utf8, LookupName, Removable, Owned;
    var scope := Involved(v, d, name, d', name');
    if LookupName(v, d', name').value.None? {
      SparedRefl(v, scope);
    } else {
      var t := LookupName(v, d', name').value.value;
      KeptLength(v, mid, {t, d'});
      KeptMore(v, mid, {t, d'}, scope);
      SparedKept(v, mid, scope);
    }
  }

  lemma SourceOlder(source: Inode, v: Vol, v': Vol, d: nat, d': nat, c: nat)
    requires c < |v.table| == |v'.table| && OlderPointers(source, v.table[c])
    requires Kept(v, v', {d, d'}) && DirInode(v, c) && DirInode(v', d) && DirInode(v', d')
    requires d < |v.table| && d' < |v.table| && OlderPointers(v.table[d], v'.table[d])
    requires OlderPointers(v.table[d'], v'.table[d'])
    ensures DirInode(v', c) && OlderPointers(source, v'.table[c])
  {
    KeptLength(v, v', {d, d'});
    OlderTrans(source, v.table[c], v'.table[c]);
  }
}
