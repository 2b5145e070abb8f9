/** Single steps of a run: what one operation, or its failure, does to the volume and to what the
    images hold of it, and what it keeps. */
module Steps {
  import opened Bytes
  import opened Wrappers
  import opened Inodes
  import opened Geometry
  import opened Volume
  import opened Space
  import opened Files
  import opened FileOps
  import opened Dirents
  import opened Directories
  import opened DirTree
  import opened Namespaces
  import opened FsTree
  import opened FsOps
  import opened Renames
  import opened Reachability
  import opened RootedTrees
  import opened Mounts

  /** What happened: an operation that succeeded, with what it was asked to do, the pool being
      opened again after a sync, or without one after the program ended, an operation that failed and
      changed nothing, or one that failed on the way. */
  datatype Event =
    | Wrote(ino: nat, offset: nat, data: seq<byte>)
    | Truncated(ino: nat, size: nat)
    | CreatedFile(parent: nat, name: Name, child: nat)
    | MadeDirectory(parent: nat, name: Name, child: nat)
    | UnlinkedFile(parent: nat, name: Name, child: nat)
    | RemovedDirectory(parent: nat, name: Name, child: nat)
    | Renamed(parent: nat, name: Name, newParent: nat, newName: Name, mid: Vol)
    | Reopened
    | Restarted(saved: Vol)
    | Refused
    | WriteStopped(ino: nat, offset: nat, data: seq<byte>, error: FsError)
    | CreateStopped(parent: nat, name: Name, error: FsError)
    | RmdirStopped(parent: nat, name: Name)
    | RenameStopped(parent: nat, name: Name, newParent: nat, newName: Name, mid: Vol, error: FsError)
  {
    /** The operation failed, and not before it had changed something. */
    predicate Stopped() {
      WriteStopped? || CreateStopped? || RmdirStopped? || RenameStopped?
    }

    predicate Succeeded() {
      !Refused? && !Stopped()
    }

    /** It ran out of blocks on the way: a write, for want of free or of mappable ones, or the addition
        of an entry, for want of free ones. */
    predicate Short() {
      match this
      case WriteStopped(_, _, _, _) => true
      case CreateStopped(_, name, error) => OutOfSpace(name, error)
      case RenameStopped(_, _, _, newName, _, error) => OutOfSpace(newName, error)
      case _ => false
    }
  }

  /** What each event does to the volume. */
  ghost predicate Step(g: Geometry, v: Vol, e: Event, v': Vol) {
    && |v.table| == g.inodeCount + 1 && |v'.table| == |v.table|
    && match e
       case Wrote(ino, offset, data) => WriteDone(g, v, v', ino, offset, data)
       case Truncated(ino, size) => IsFile(g, v, ino) && Resized(v, v', g.dataStart, ino, size)
         && (Exact(v, g.dataStart) ==> Exact(v', g.dataStart))
       case CreatedFile(d, name, c) => CreateDone(v, v', g.dataStart, d, name, c)
       case MadeDirectory(d, name, c) => MkdirDone(v, v', g.dataStart, d, name, c)
       case UnlinkedFile(d, name, c) => UnlinkDone(v, v', g.dataStart, d, name, c)
       case RemovedDirectory(d, name, c) => RmdirDone(v, v', g.dataStart, d, name, c)
       case Renamed(d, name, d', name', mid) => RenameDone(v, mid, v', g.dataStart, d, name, d', name')
       case Reopened => SameVolume(v, v')
       case Restarted(saved) => SameVolume(saved, v')
       case Refused => v' == v
       case WriteStopped(ino, offset, data, e) => WriteFailed(g, v, v', ino, offset, data, e)
       case CreateStopped(_, name, e) => CreateLeft(v, v', g.dataStart, name, e, true)
       case RmdirStopped(d, name) => RmdirLeft(v, v', g.dataStart, d, name) && Spared(v, v', {d})
       case RenameStopped(d, name, d', name', mid, e) =>
         Spared(v, v', Involved(v, d, name, d', name')) && RenameRefused(v, mid, v', g.dataStart, d, name, d', name', e)
  }

  /** A mounted filesystem: its volume, and the volume the images hold. */
  datatype State = State(vol: Vol, saved: Vol)

  /** What each event does to the images.  An operation that succeeds syncs, but for a rename that
      has nothing to do; one that fails does not, but a rename that stops after it has removed its
      target has synced then. */
  ghost predicate Saves(s: State, e: Event, s': State) {
    match e
    case Renamed(_, _, _, _, _) => s'.saved == s'.vol || s' == s
    case Restarted(saved) => saved == s.saved && s'.saved == s'.vol
    case RenameStopped(_, _, _, _, mid, _) => (mid == s.vol && s'.saved == s.saved) || s'.saved == mid
    case _ => s'.saved == if e.Succeeded() then s'.vol else s.saved
  }

  /** What each event does. */
  ghost predicate Transition(g: Geometry, s: State, e: Event, s': State) {
    Step(g, s.vol, e, s'.vol) && Saves(s, e, s')
  }

  /** A caller keeps to this when `.` and `..` are not created, removed or moved, removals do not
      cross a dead record, link counts stay below their limit and no directory is moved to itself
      or below itself.  Failures are within it, except a create or mkdir that stops on the way: it
      leaves an inode that no directory names (`OrphanIsLost`). */
  ghost predicate InScope(v: Vol, e: Event) {
    match e
    case CreatedFile(_, name, _) => !IsDot(name)
    case MadeDirectory(d, name, _) => !IsDot(name) && d < |v.table| && v.table[d].nlink < 0xFFFF_FFFF
    case UnlinkedFile(d, name, _) => !IsDot(name) && Removable(v, d, name)
    case RemovedDirectory(d, name, _) => !IsDot(name) && Removable(v, d, name)
    case Renamed(d, name, d', name', _) =>
      || (d == d' && name == name')
      || LookupName(v, d', name') == LookupName(v, d, name)
      || (ProperMove(v, d, name, d', name') && LookupName(v, d, name).value.Some?
          && !Beneath(v, d', LookupName(v, d, name).value.value))
    case CreateStopped(_, _, _) => false
    case RmdirStopped(_, name) => !IsDot(name)
    case RenameStopped(d, name, d', name', _, _) => ProperMove(v, d, name, d', name')
    case _ => true
  }

  /** One event within scope keeps the rooted tree; after a restart it is that of the images. */
  lemma StepKeeps(g: Geometry, v: Vol, e: Event, v': Vol)
    requires Step(g, v, e, v') && InScope(v, e) && RootedTree(v) && Safe(v, g.dataStart) && Safe(v', g.dataStart)
    requires e.Restarted? ==> RootedTree(e.saved) && Safe(e.saved, g.dataStart)
    ensures RootedTree(v')
  {
    hide T, Page, Safe, Exact, DirOk, Shaped, Recs, Names, Ns, NodeOf, Utf8, LookupName, Kept,
        Removable, IsDot, NsOk, RootedTree, Carried, TargetReplaced, Beneath, SameBlocks, SameAttributes, Byte,
        TrimAt, SameVolume, RenameDone, ProperMove, WriteFailed, RenameRefused, Spared, RemoveResult, ListingOf;
    var lo := g.dataStart;
    RootedIsTree(v);
    match e {
      case Wrote(ino, offset, data) =>
        FileKeepsTree(v, v', ino);
      case Truncated(ino, size) =>
        ResizedFacts(v, v', lo, ino, size);
        FileKeepsTree(v, v', ino);
      case CreatedFile(d, name, c) =>
        TreeBlocks(v, d);
        CreateRooted(v, v', lo, d, name, c);
      case MadeDirectory(d, name, c) =>
        TreeBlocks(v, d);
        MkdirRooted(v, v', lo, d, name, c);
      case UnlinkedFile(d, name, c) =>
        TreeBlocks(v, d);
        TreeLinks(v, d, name, c);
        UnlinkRooted(v, v', lo, d, name, c);
      case RemovedDirectory(d, name, c) =>
        TreeBlocks(v, d);
        RmdirRooted(v, v', lo, d, name, c);
      case Renamed(d, name, d', name', mid) =>
        RenameKeepsTree(v, mid, v', lo, d, name, d', name');
      case Reopened =>
        SameInvariants(v, v', lo);
      case Restarted(saved) =>
        SameInvariants(saved, v', lo);
      case WriteStopped(ino, offset, data, error) =>
        StoppedWriteKeepsTree(g, v, v', ino, offset, data, error);
      case RmdirStopped(d, name) =>
        NotInItself(v, d, name);
      case RenameStopped(d, name, d', name', mid, error) =>
        StoppedRenameKeepsTree(v, mid, v', lo, d, name, d', name', error);
      case _ =>
    }
  }

  /** And so it is with the tree on the images. */
  lemma SavedKeeps(g: Geometry, s: State, e: Event, s': State)
    requires Transition(g, s, e, s') && InScope(s.vol, e) && RootedTree(s.vol) && RootedTree(s'.vol)
    requires RootedTree(s.saved)
    ensures RootedTree(s'.saved)
  {
    hide T, Page, Utf8, LookupName, RootedTree, RenameRefused, ProperMove, Spared, Involved, RenameDone, Beneath,
        WriteDone, WriteFailed, CreateDone, MkdirDone, UnlinkDone, RmdirDone, Resized, CreateLeft, RmdirLeft,
        SameVolume, Removable, IsDot, Event.Succeeded;
    match e {
      case RenameStopped(d, name, d', name', mid, error) =>
        MidKeepsTree(s.vol, mid, s'.vol, g.dataStart, d, name, d', name', error);
      case _ =>
    }
  }

  /** When a rename within scope stops, the tree is rooted as it was before the new name was to be
      entered. */
  lemma MidKeepsTree(v: Vol, mid: Vol, v': Vol, lo: nat, d: nat, name: Name, d': nat, name': Name, e: FsError)
    requires RenameRefused(v, mid, v', lo, d, name, d', name', e) && ProperMove(v, d, name, d', name') && RootedTree(v)
    ensures RootedTree(mid)
  {
    hide T, Page, Safe, Exact, Utf8, LookupName, RootedTree, PagesThen, PagesRemovable, NsOk, OwnChild, UnlinkResult,
        RmdirResult, MoveStopped, Shaped, Removable, Kept, Blocks, Names, Recs, Empty, IsDot, UnlinkDone, RmdirDone,
        TreeOk, RmdirLeft;
    ScopeFacts(v, d, name, d', name');
    match LookupName(v, d', name') {
      case Ok(Some(t)) =>
        if mid != v {
          if v.table[LookupName(v, d, name).value.value].IsDir() {
            RmdirRooted(v, mid, lo, d', name', t);
          } else {
            UnlinkRooted(v, mid, lo, d', name', t);
          }
        }
      case _ =>
    }
  }

  /** One event keeps the accounting exact, whatever it is and whatever the names say, unless it
      runs out of blocks on the way. */
  lemma StepConserves(g: Geometry, v: Vol, e: Event, v': Vol)
    requires Step(g, v, e, v') && Accounted(v, g.dataStart) && Safe(v, g.dataStart) && Safe(v', g.dataStart)
    requires !e.Short() && (e.Restarted? ==> Accounted(e.saved, g.dataStart) && Safe(e.saved, g.dataStart))
    ensures Accounted(v', g.dataStart)
  {
    hide T, Page, Safe, Exact, Aligned, Shaped, Recs, Names, Ns, Utf8, LookupName, Kept, Removable, IsDot, TreeOk,
        Carried, TargetReplaced, SameBlocks, SameAttributes, Byte, TrimAt, SameVolume, RenameDone, RenameRefused,
        Spared, Owned, Blocks, PagesRemoved, Contents, Takes, Filled, Paths, Orphaned, OwnChild, Created, MadeDir,
        Unlinked, RemovedChild;
    var lo := g.dataStart;
    match e {
      case Wrote(ino, offset, data) =>
        FileKeepsWhole(v, v', ino);
      case Truncated(ino, size) =>
        ResizedFacts(v, v', lo, ino, size);
        FileKeepsWhole(v, v', ino);
      case CreatedFile(d, name, c) =>
        AlignedAt(v, d);
      case MadeDirectory(d, name, c) =>
        AlignedAt(v, d);
      case UnlinkedFile(d, name, c) =>
        AlignedAt(v, d);
      case RemovedDirectory(d, name, c) =>
        AlignedAt(v, d);
      case Renamed(d, name, d', name', mid) =>
        RenameConserves(v, mid, v', lo, d, name, d', name');
      case Reopened =>
        SameInvariants(v, v', lo);
        SameDirectories(v, v');
      case Restarted(saved) =>
        SameInvariants(saved, v', lo);
        SameDirectories(saved, v');
      case RenameStopped(d, name, d', name', mid, error) =>
        StoppedRenameConserves(v, mid, v', lo, d, name, d', name', error);
      case _ =>
    }
  }

  /** The images stay exactly accounted whatever happens: an operation that runs out of space
      half-way does not sync. */
  lemma SavedConserves(g: Geometry, s: State, e: Event, s': State)
    requires Transition(g, s, e, s') && Accounted(s.saved, g.dataStart) && Accounted(s.vol, g.dataStart)
    requires e.Short() || Accounted(s'.vol, g.dataStart)
    ensures Accounted(s'.saved, g.dataStart)
  {
    hide T, Page, Accounted, Utf8, LookupName, RenameRefused, Spared, Involved, RenameDone, OutOfSpace, WriteDone,
        WriteFailed, CreateDone, MkdirDone, UnlinkDone, RmdirDone, Resized, CreateLeft, RmdirLeft, SameVolume;
    match e {
      case RenameStopped(d, name, d', name', mid, error) =>
        MidConserves(s.vol, mid, s'.vol, g.dataStart, d, name, d', name', error);
      case _ =>
    }
  }

  lemma MidConserves(v: Vol, mid: Vol, v': Vol, lo: nat, d: nat, name: Name, d': nat, name': Name, e: FsError)
    requires RenameRefused(v, mid, v', lo, d, name, d', name', e) && Accounted(v, lo)
    ensures Accounted(mid, lo)
  {
    hide T, Page, Accounted, Utf8, LookupName, MoveStopped, UnlinkDone, RmdirDone, OwnChild, UnlinkResult, RmdirResult,
        OthersKept, TargetReplaced, RmdirLeft;
    if mid != v {
      ReplacedConserves(v, mid, lo, d', name', LookupName(v, d, name).value.value);
    }
  }

  lemma FileKeepsWhole(v: Vol, v': Vol, i: nat)
    requires OthersKept(v, v', i) && i < |v.table| && !v.table[i].IsDir() && SameAttributes(v.table[i], v'.table[i])
    ensures Aligned(v) ==> Aligned(v')
  {
    hide T, Page, OthersKept, Aligned;
    OthersTable(v, v', i);
    AlignedStep(v, v', i);
  }

  lemma SameDirectories(v: Vol, v': Vol)
    requires SameVolume(v, v')
    ensures Aligned(v) ==> Aligned(v')
  {
    hide T, Page;
    if Aligned(v) {
      forall d: nat | DirInode(v', d)
        ensures v'.table[d].size % 4032 == 0
      {
        assert DirInode(v, d);
      }
    }
  }

  lemma ReplacedConserves(v: Vol, mid: Vol, lo: nat, d': nat, name': Name, c: nat)
    requires c < |v.table| && TargetReplaced(v, mid, lo, d', name', c)
    ensures Accounted(v, lo) ==> Accounted(mid, lo)
  {
    hide T, Page, Exact, Aligned, Utf8, LookupName, Kept, Blocks, Owned, SameBlocks, Shaped, TreeOk, Names, Recs, Ns,
        PagesRemoved, Empty, Removable, IsDot, Unlinked, RemovedChild;
    if Accounted(v, lo) && LookupName(v, d', name') != Ok(None) {
      AlignedAt(v, d');
    }
  }

  lemma RenameConserves(v: Vol, mid: Vol, v': Vol, lo: nat, d: nat, name: Name, d': nat, name': Name)
    requires RenameDone(v, mid, v', lo, d, name, d', name') && Accounted(v, lo)
    ensures Accounted(v', lo)
  {
    hide T, Page, Accounted, Utf8, LookupName, TargetReplaced, EntryMovable, Shaped, Kept, Ns, MoveSteps, Moved;
    if !(d == d' && name == name') {
      var c := LookupName(v, d, name).value.value;
      if LookupName(v, d', name') != Ok(Some(c)) {
        ReplacedConserves(v, mid, lo, d', name', c);
      }
    }
  }

  /** A rename that stops, but not for want of space, has lost no block. */
  lemma StoppedRenameConserves(v: Vol, mid: Vol, v': Vol, lo: nat, d: nat, name: Name, d': nat, name': Name, e: FsError)
    requires RenameRefused(v, mid, v', lo, d, name, d', name', e) && Accounted(v, lo) && !OutOfSpace(name', e)
    ensures Accounted(v', lo)
  {
    hide T, Page, Accounted, Utf8, LookupName, MoveStopped, UnlinkDone, RmdirDone, OwnChild, UnlinkResult, RmdirResult,
        OthersKept, TargetReplaced;
    match LookupName(v, d, name) {
      case Ok(Some(c)) =>
        if 0 < c < |v.table| && v.table[c].Live() {
          match LookupName(v, d', name') {
            case Ok(None) =>
              if v' != v {
                StoppedMoveConserves(v, v', lo, d, name, d', name', c, v.table[c], e);
              }
            case Ok(Some(t)) =>
              if TargetReplaced(v, mid, lo, d', name', c) && c < |mid.table|
                && MoveStopped(mid, v', lo, d, name, d', name', c, v.table[c], e) {
                ReplacedConserves(v, mid, lo, d', name', c);
                StoppedMoveConserves(mid, v', lo, d, name, d', name', c, v.table[c], e);
              }
            case Err(_) =>
          }
        }
      case _ =>
    }
  }

  lemma RemovedFrom(v: Vol, d: nat, name: Name)
    requires RemoveResult(v, d, name).Ok?
    ensures DirInode(v, d)
  {
    hide RemoveScan, Utf8;
  }

  lemma StoppedMoveConserves(v: Vol, v': Vol, lo: nat, d: nat, name: Name, d': nat, name': Name, c: nat, source: Inode,
      e: FsError)
    requires c < |v.table| && MoveStopped(v, v', lo, d, name, d', name', c, source, e)
    requires Accounted(v, lo) && !OutOfSpace(name', e)
    ensures Accounted(v', lo)
  {
    hide T, Page, Exact, Aligned, Utf8, DirAdded, DirRemoved, RemoveResult, TurnResult, Unseen, LeftOver, AllTaken,
        RoomScan;
    if AddResult(v, |FreeData(v, lo)|, d', name').Ok? {
      var v2 :|
        && DirAdded(v, v2, lo, d', c, name', KindOf(v.table[c]))
        && StoppedAfter(v2, v', lo, d, name, d', c, source, e);
      AlignedAt(v, d');
      AddedNode(v, v2, lo, d', c, name', KindOf(v.table[c]));
      AlignedStep(v, v2, d');
      if RemoveResult(v2, d, name).Ok? {
        RemovedFrom(v2, d, name);
        AlignedAt(v2, d);
        RemovedNode(v2, v', lo, d, name);
        TimesWhole(v2, v', d);
        AlignedStep(v2, v', d);
      }
    }
  }

  lemma StoppedWriteKeepsTree(g: Geometry, v: Vol, v': Vol, ino: nat, offset: nat, data: seq<byte>, e: FsError)
    requires |v.table| == g.inodeCount + 1 && WriteFailed(g, v, v', ino, offset, data, e) && RootedTree(v)
    ensures RootedTree(v')
  {
    hide T, Page, RootedTree, OthersKept, Byte;
    if v' != v {
      FileKeepsTree(v, v', ino);
    }
  }

  /** No directory of a rooted tree has an entry for itself. */
  lemma NotInItself(v: Vol, d: nat, name: Name)
    requires RootedTree(v) && !IsDot(name)
    ensures LookupName(v, d, name) != Ok(Some(d))
  {
    hide T, Page, Blocks, Recs, Names, NodeOf, Utf8, LookupName, KidDirs, IsDot, Shaped, DirNode, Under;
    RootedIsTree(v);
    if LookupName(v, d, name) == Ok(Some(d)) {
      LookedUp(v, d, name);
      LookupNode(v, d, name);
      var home: map<nat, Home> :| NsOk(Ns(v), home) && Rooted(Ns(v), home);
      assert EntryOk(Ns(v), home, d, name);
      assert Under(home, d, 1);
      NoLoop(home, d);
    }
  }

  /** A move that is refused once the target is gone leaves the tree without the target. */
  lemma StoppedRenameKeepsTree(v: Vol, mid: Vol, v': Vol, lo: nat, d: nat, name: Name, d': nat, name': Name, e: FsError)
    requires RenameRefused(v, mid, v', lo, d, name, d', name', e) && ProperMove(v, d, name, d', name') && RootedTree(v)
    ensures RootedTree(v')
  {
    hide T, Page, Safe, Exact, Utf8, LookupName, Unseen, RootedTree, RenameRefused, PagesThen, PagesRemovable, NsOk,
        Shaped, Removable, AddResult, FreeData, Kept, Blocks, Names, Recs, Empty, IsDot, UnlinkDone, RmdirDone, TreeOk;
    if v' != v {
      StoppedInScope(v, mid, v', lo, d, name, d', name', e);
      ScopeFacts(v, d, name, d', name');
      var c := LookupName(v, d, name).value.value;
      match LookupName(v, d', name') {
        case Ok(None) =>
        case Ok(Some(t)) =>
          if v.table[c].IsDir() {
            RmdirRooted(v, mid, lo, d', name', t);
          } else {
            UnlinkRooted(v, mid, lo, d', name', t);
          }
      }
      UnseenKeepsTree(mid, v', lo);
    }
  }

  /** What goes unseen does not change the tree. */
  lemma UnseenKeepsTree(v: Vol, v': Vol, lo: nat)
    requires Unseen(v, v', lo) && RootedTree(v)
    ensures RootedTree(v')
  {
    hide T, Page, Safe, DirOk, NodeOf, NsOk, Rooted, Recs;
    forall j: nat | j < |v.table|
      ensures NodeOf(v', j) == NodeOf(v, j) && (DirOk(v, j) ==> DirOk(v', j))
    {
      UnseenNode(v, v', lo, j);
    }
    assert Ns(v') == Ns(v);
  }

  lemma UnseenNode(v: Vol, v': Vol, lo: nat, j: nat)
    requires Unseen(v, v', lo) && j < |v.table|
    ensures NodeOf(v', j) == NodeOf(v, j) && (DirOk(v, j) ==> DirOk(v', j))
  {
    hide Page, T, Walk, Utf8, DirRecs, Names, Unique, RecsOf, SlotOf, Safe;
    assert DirPages(v', j) == DirPages(v, j);
    assert Page(v', j, 0) == Page(v, j, 0);
    if DirOk(v, j) {
      forall m: nat | m < v'.table[j].size / 4032
        ensures T(v', j, SlotOf(m)) != 0 && Walk(Page(v', j, m), 0).Ok?
      {
        assert T(v, j, SlotOf(m)) != 0;
        assert Page(v', j, m) == Page(v, j, m);
      }
    }
  }

  lemma ResizedFacts(v: Vol, v': Vol, lo: nat, i: nat, size: nat)
    requires Resized(v, v', lo, i, size)
    ensures OthersKept(v, v', i) && SameAttributes(v.table[i], v'.table[i])
  {
  }

  lemma FileKeepsTree(v: Vol, v': Vol, i: nat)
    requires OthersKept(v, v', i) && i < |v.table| && v.table[i].Live() && !v.table[i].IsDir()
    requires SameAttributes(v.table[i], v'.table[i]) && RootedTree(v)
    ensures RootedTree(v')
  {
    hide T, Page, OthersKept, SameAttributes, Ns, NsOk, Shaped;
    FileChanged(v, v', i);
  }

  lemma TreeBlocks(v: Vol, d: nat)
    requires TreeOk(v)
    ensures DirInode(v, d) ==> Blocks(v, d)
  {
    hide DirOk, Blocks, NsOk;
    if DirInode(v, d) {
      ShapedAt(v, d);
    }
  }

  lemma TreeLinks(v: Vol, d: nat, name: Name, c: nat)
    requires TreeOk(v) && DirInode(v, d) && c < |v.table|
    ensures v.table[c].Live() && !v.table[c].IsDir() ==> v.table[c].nlink == 1
  {
    hide Shaped, NsOk, Utf8;
    var home :| NsOk(Ns(v), home);
    TargetNode(v, home, d, name, c);
  }

  lemma RenameKeepsTree(v: Vol, mid: Vol, v': Vol, lo: nat, d: nat, name: Name, d': nat, name': Name)
    requires RenameDone(v, mid, v', lo, d, name, d', name') && InScope(v, Renamed(d, name, d', name', mid))
    requires RootedTree(v)
    ensures RootedTree(v')
  {
    hide T, Page, Safe, Exact, Utf8, LookupName, RootedTree, Carried, TargetReplaced, Beneath, ProperMove;
    if (d == d' && name == name') || LookupName(v, d', name') == LookupName(v, d, name) {
    } else {
      RenameMoves(v, mid, v', lo, d, name, d', name');
      RenameRooted(v, mid, v', lo, d, name, d', name');
    }
  }
}
