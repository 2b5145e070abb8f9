/** Whole runs: any number of operations one after the other. */
module Runs {
  import opened Bytes
  import opened Wrappers
  import opened Primitives
  import PhysicalBlocks
  import Chunks
  import opened Geometry
  import opened Volume
  import opened Files
  import opened FileOps
  import opened Dirents
  import opened Directories
  import opened DirTree
  import opened Namespaces
  import opened FsTree
  import opened FsOps
  import opened Renames
  import opened RootedTrees
  import opened Mounts
  import opened Formatting
  import opened Steps
  import Remounting
  import opened Album

  /** A run: the states from before the first event to after the last. */
  ghost predicate Run(g: Geometry, ss: seq<State>, es: seq<Event>) {
    |ss| == |es| + 1 && forall i {:trigger es[i]} :: 0 <= i < |es| ==> Transition(g, ss[i], es[i], ss[i + 1])
  }

  /** What an operation that stops half-way can lose: blocks, when it runs out of them, or an inode it
      took and could not give a name. */
  datatype Loss = LostBlocks | LostInode

  predicate Loses(e: Event, what: Loss) {
    match what
    case LostBlocks => e.Short()
    case LostInode => e.CreateStopped?
  }

  /** Whether the volume, and what the images hold of it, can have such a loss. */
  datatype Mark = Mark(vol: bool, saved: bool)

  /** The mark after one more event: an operation that syncs hands the loss to the images, and a
      restart takes the mark from there. */
  function Marked(m: Mark, e: Event, what: Loss): Mark {
    if e.Restarted? then Mark(m.saved, m.saved)
    else Mark(m.vol || Loses(e, what),
              if e.Renamed? || e.RenameStopped? then m.vol || m.saved
              else if e.Succeeded() then m.vol
              else m.saved)
  }

  /** The mark after `n` events, when `start` is that of the images at the start. */
  function Marks(es: seq<Event>, n: nat, what: Loss, start: bool): Mark
    requires n <= |es|
  {
    if n == 0 then Mark(false, start) else Marked(Marks(es, n - 1, what, start), es[n - 1], what)
  }

  /** Every event is within scope, from a volume without a lost inode on, but for a create or mkdir
      that loses one. */
  ghost predicate AllInScope(ss: seq<State>, es: seq<Event>)
    requires |ss| == |es| + 1
  {
    forall i {:trigger es[i]} :: 0 <= i < |es| && !TreeMarks(ss, es, i).vol && !es[i].CreateStopped? ==>
      InScope(ss[i].vol, es[i])
  }

  ghost function TreeMarks(ss: seq<State>, es: seq<Event>, n: nat): Mark
    requires ss != [] && n <= |es|
  {
    Marks(es, n, LostInode, !RootedTree(ss[0].saved))
  }

  ghost function BlockMarks(ss: seq<State>, es: seq<Event>, n: nat, lo: nat): Mark
    requires ss != [] && n <= |es|
  {
    Marks(es, n, LostBlocks, !Accounted(ss[0].saved, lo))
  }

  /** In every volume, ownership holds. */
  ghost predicate AllSafe(ss: seq<State>, lo: nat) {
    forall n {:trigger ss[n]} :: 0 <= n < |ss| ==> Safe(ss[n].vol, lo)
  }

  /** And in every volume the images held. */
  ghost predicate AllSavedSafe(ss: seq<State>, lo: nat) {
    forall n {:trigger ss[n]} :: 0 <= n < |ss| ==> Safe(ss[n].saved, lo)
  }

  /** No event is a restart, or what the images hold is safe. */
  ghost predicate MayRestart(es: seq<Event>, safe: bool) {
    (exists i :: 0 <= i < |es| && es[i].Restarted?) ==> safe
  }

  /** A run within scope from a rooted tree stays a rooted tree, but for inodes that a create or mkdir
      loses, and those are back after a restart. */
  lemma {:induction false} RunKeeps(g: Geometry, ss: seq<State>, es: seq<Event>, n: nat)
    requires Run(g, ss, es) && AllSafe(ss, g.dataStart) && AllInScope(ss, es) && n < |ss| && RootedTree(ss[0].vol)
    requires MayRestart(es, AllSavedSafe(ss, g.dataStart))
    ensures !TreeMarks(ss, es, n).vol ==> RootedTree(ss[n].vol)
    ensures !TreeMarks(ss, es, n).saved ==> RootedTree(ss[n].saved)
  {
    hide RootedTree, Transition, InScope, Safe, Marked, AllSafe, AllSavedSafe;
    if n > 0 {
      RunKeeps(g, ss, es, n - 1);
      assert Transition(g, ss[n - 1], es[n - 1], ss[n]);
      BothSafe(ss, n - 1, g.dataStart);
      BothSafe(ss, n, g.dataStart);
      TreeMarked(g, ss[n - 1], es[n - 1], ss[n], TreeMarks(ss, es, n - 1));
    }
  }

  lemma BothSafe(ss: seq<State>, n: nat, lo: nat)
    requires AllSafe(ss, lo) && n < |ss|
    ensures Safe(ss[n].vol, lo) && (AllSavedSafe(ss, lo) ==> Safe(ss[n].saved, lo))
  {
    hide Safe;
  }

  lemma TreeMarked(g: Geometry, s: State, e: Event, s': State, m: Mark)
    requires Transition(g, s, e, s') && Safe(s.vol, g.dataStart) && Safe(s'.vol, g.dataStart)
    requires !m.vol && !e.CreateStopped? ==> InScope(s.vol, e)
    requires e.Restarted? ==> Safe(s.saved, g.dataStart)
    requires (!m.vol ==> RootedTree(s.vol)) && (!m.saved ==> RootedTree(s.saved))
    ensures !Marked(m, e, LostInode).vol ==> RootedTree(s'.vol)
    ensures !Marked(m, e, LostInode).saved ==> RootedTree(s'.saved)
  {
    hide RootedTree, Step, InScope, Safe, Saves;
    SavedIs(s, e, s');
    if e.Restarted? {
      AfterRestart(g, s, e, s');
    } else if !m.vol && !e.CreateStopped? {
      StepKeeps(g, s.vol, e, s'.vol);
      if RootedTree(s.saved) {
        SavedKeeps(g, s, e, s');
      }
    }
  }

  lemma SavedIs(s: State, e: Event, s': State)
    requires Saves(s, e, s')
    ensures e.Restarted? ==> e.saved == s.saved && s'.saved == s'.vol
    ensures !e.Restarted? && !e.Renamed? && !e.RenameStopped? ==> s'.saved == if e.Succeeded() then s'.vol else s.saved
    ensures e.Renamed? ==> s'.saved == s'.vol || s'.saved == s.saved
    ensures e.Succeeded() ==> !e.Short() && !e.CreateStopped?
  {
  }

  lemma AfterRestart(g: Geometry, s: State, e: Event, s': State)
    requires Transition(g, s, e, s') && e.Restarted? && Safe(s.saved, g.dataStart) && Safe(s'.vol, g.dataStart)
    ensures RootedTree(s.saved) ==> RootedTree(s'.vol) && RootedTree(s'.saved)
    ensures Accounted(s.saved, g.dataStart) ==> Accounted(s'.vol, g.dataStart) && Accounted(s'.saved, g.dataStart)
  {
    hide T, Page, SameVolume, RootedTree, Safe, Exact, Aligned;
    SameInvariants(s.saved, s'.vol, g.dataStart);
    SameDirectories(s.saved, s'.vol);
  }

  /** Whatever happens to the names, the accounting is exact in every volume, and on the images, that
      no operation has marked that ran out of blocks half-way. */
  ghost predicate Conserved(ss: seq<State>, es: seq<Event>, lo: nat)
    requires |ss| == |es| + 1
  {
    forall n {:trigger ss[n]} :: 0 <= n < |ss| ==>
      && (!BlockMarks(ss, es, n, lo).vol ==> Accounted(ss[n].vol, lo))
      && (!BlockMarks(ss, es, n, lo).saved ==> Accounted(ss[n].saved, lo))
  }

  lemma {:induction false} RunConserves(g: Geometry, ss: seq<State>, es: seq<Event>, n: nat)
    requires Run(g, ss, es) && AllSafe(ss, g.dataStart) && n < |ss| && Accounted(ss[0].vol, g.dataStart)
    requires MayRestart(es, AllSavedSafe(ss, g.dataStart))
    ensures !BlockMarks(ss, es, n, g.dataStart).vol ==> Accounted(ss[n].vol, g.dataStart)
    ensures !BlockMarks(ss, es, n, g.dataStart).saved ==> Accounted(ss[n].saved, g.dataStart)
  {
    hide Accounted, Transition, Safe, Marked, AllSafe, AllSavedSafe;
    if n > 0 {
      RunConserves(g, ss, es, n - 1);
      assert Transition(g, ss[n - 1], es[n - 1], ss[n]);
      BothSafe(ss, n - 1, g.dataStart);
      BothSafe(ss, n, g.dataStart);
      BlocksMarked(g, ss[n - 1], es[n - 1], ss[n], BlockMarks(ss, es, n - 1, g.dataStart));
    }
  }

  lemma BlocksMarked(g: Geometry, s: State, e: Event, s': State, m: Mark)
    requires Transition(g, s, e, s') && Safe(s.vol, g.dataStart) && Safe(s'.vol, g.dataStart)
    requires e.Restarted? ==> Safe(s.saved, g.dataStart)
    requires (!m.vol ==> Accounted(s.vol, g.dataStart)) && (!m.saved ==> Accounted(s.saved, g.dataStart))
    ensures !Marked(m, e, LostBlocks).vol ==> Accounted(s'.vol, g.dataStart)
    ensures !Marked(m, e, LostBlocks).saved ==> Accounted(s'.saved, g.dataStart)
  {
    hide Accounted, Step, Safe, Saves, Event.Short;
    SavedIs(s, e, s');
    if e.Restarted? {
      AfterRestart(g, s, e, s');
    } else if !m.vol {
      if !e.Short() {
        StepConserves(g, s.vol, e, s'.vol);
      }
      if Accounted(s.saved, g.dataStart) {
        SavedConserves(g, s, e, s');
      }
    }
  }

  // ---------------------------------------------------------------- the program's steps

  datatype Request =
    | WriteRequest(ino: nat, offset: u64, data: seq<byte>)
    | TruncateRequest(ino: nat, size: u64)
    | CreateRequest(parent: nat, name: Name, mode: u32)
    | MkdirRequest(parent: nat, name: Name, mode: u32)
    | UnlinkRequest(parent: nat, name: Name)
    | RmdirRequest(parent: nat, name: Name)
    | RenameRequest(parent: nat, name: Name, newParent: nat, newName: Name)
    | ReopenRequest
    | RestartRequest

  /** The event is what was asked for, or its failure. */
  predicate Answers(request: Request, e: Event) {
    match request
    case WriteRequest(ino, offset, data) => e == Wrote(ino, offset, data) || e == Refused
      || (e.WriteStopped? && e == WriteStopped(ino, offset, data, e.error))
    case TruncateRequest(ino, size) => e == Truncated(ino, size) || e == Refused
    case CreateRequest(d, name, _) => (e.CreatedFile? && e == CreatedFile(d, name, e.child)) || e == Refused
      || (e.CreateStopped? && e == CreateStopped(d, name, e.error))
    case MkdirRequest(d, name, _) => (e.MadeDirectory? && e == MadeDirectory(d, name, e.child)) || e == Refused
      || (e.CreateStopped? && e == CreateStopped(d, name, e.error))
    case UnlinkRequest(d, name) => (e.UnlinkedFile? && e == UnlinkedFile(d, name, e.child)) || e == Refused
    case RmdirRequest(d, name) => (e.RemovedDirectory? && e == RemovedDirectory(d, name, e.child)) || e == Refused
      || e == RmdirStopped(d, name)
    case RenameRequest(d, name, d', name') =>
      || (e.Renamed? && e == Renamed(d, name, d', name', e.mid))
      || e == Refused
      || (e.RenameStopped? && e == RenameStopped(d, name, d', name', e.mid, e.error))
    case ReopenRequest => e == Reopened
    case RestartRequest => e.Restarted?
  }

  predicate Answered(requests: seq<Request>, es: seq<Event>) {
    |es| == |requests| && forall k {:trigger es[k]} :: 0 <= k < |es| ==> Answers(requests[k], es[k])
  }

  lemma AnsweredNone(requests: seq<Request>)
    ensures Answered(requests[..0], [])
  {
  }

  lemma AnsweredMore(requests: seq<Request>, k: nat, es: seq<Event>, e: Event)
    requires k < |requests| && Answered(requests[..k], es) && Answers(requests[k], e)
    ensures Answered(requests[..k + 1], es + [e])
  {
    hide Answers;
  }

  /** A create or mkdir that is refused either changes nothing or leaves its inode behind. */
  lemma StoppedCreate(v: Vol, v': Vol, lo: nat, name: Name, e: FsError, taken: bool)
    requires CreateLeft(v, v', lo, name, e, taken)
    ensures v' == v || CreateLeft(v, v', lo, name, e, true)
  {
    hide Orphaned, Utf8, Exact, Aligned;
  }

  /** What carrying out a request amounts to: an event that answers it and that is a step of a
      run, a refusal whenever it failed and changed nothing. */
  ghost predicate Performed(g: Geometry, s: State, s': State, request: Request, ok: bool, e: Event) {
    && Transition(g, s, e, s') && Answers(request, e)
    && ok == e.Succeeded() && (!ok && s' == s ==> e == Refused)
  }

  /** Carry out one request on a mounted filesystem.  Whatever it asks for, what happens is a step
      of a run, and ownership holds before and after, on the images too. */
  method Perform(fs: AlbumFs, request: Request) returns (ok: bool, ghost e: Event)
    requires fs.Valid() && Safe(fs.vol, fs.geo.dataStart) && !request.ReopenRequest? && !request.RestartRequest?
    modifies fs.store, fs.bitmap, fs`vol, fs`saved
    ensures fs.Valid() && Safe(fs.vol, fs.geo.dataStart)
    ensures Safe(old(fs.saved), fs.geo.dataStart) ==> Safe(fs.saved, fs.geo.dataStart)
    ensures Performed(fs.geo, old(State(fs.vol, fs.saved)), State(fs.vol, fs.saved), request, ok, e)
  {
    hide AlbumFs.Valid, Safe, T, Page, Utf8, LookupName, WriteDone, CreateDone, MkdirDone, Resized, Exact,
        AlbumFs.Durable, Orphaned, WriteFailed, CreateResult, MkdirResult, CreateTakes, MkdirTakes, CreateLeft, NewFile,
        NewDirectory, WriteResult, UnlinkDone, RmdirDone, RenameDone, RenameRefused, RmdirLeft, Spared, Involved,
        SameVolume;
    if request.UnlinkRequest? || request.RmdirRequest? || request.RenameRequest? {
      ok, e := PerformRemoval(fs, request);
      return;
    }
    ok, e := false, Refused;
    ghost var v, saved := fs.vol, fs.saved;
    match request {
      case WriteRequest(ino, offset, data) =>
        var r := fs.Write(ino, offset, data);
        ok, e := r.Ok?, if r.Ok? then Wrote(ino, offset, data) else WriteStopped(ino, offset, data, r.error);
      case TruncateRequest(ino, size) =>
        var r := fs.Truncate(ino, size);
        ok, e := r.Ok?, if r.Ok? then Truncated(ino, size) else Refused;
      case CreateRequest(parent, name, mode) =>
        var r := fs.Create(parent, name, mode);
        ok, e := r.Ok?, if r.Ok? then CreatedFile(parent, name, r.value) else CreateStopped(parent, name, r.error);
        if r.Err? {
          StoppedCreate(v, fs.vol, fs.geo.dataStart, name, r.error, CreateTakes(v, parent, name));
        }
      case MkdirRequest(parent, name, mode) =>
        var r := fs.Mkdir(parent, name, mode);
        ok, e := r.Ok?, if r.Ok? then MadeDirectory(parent, name, r.value) else CreateStopped(parent, name, r.error);
        if r.Err? {
          StoppedCreate(v, fs.vol, fs.geo.dataStart, name, r.error, MkdirTakes(v, fs.geo.dataStart, parent, name));
        }
      case _ =>
    }
    if !ok && fs.vol == v && fs.saved == saved {
      e := Refused;
    }
  }

  /** The requests that take a name away. */
  method PerformRemoval(fs: AlbumFs, request: Request) returns (ok: bool, ghost e: Event)
    requires fs.Valid() && Safe(fs.vol, fs.geo.dataStart)
    requires request.UnlinkRequest? || request.RmdirRequest? || request.RenameRequest?
    modifies fs.store, fs.bitmap, fs`vol, fs`saved
    ensures fs.Valid() && Safe(fs.vol, fs.geo.dataStart)
    ensures Safe(old(fs.saved), fs.geo.dataStart) ==> Safe(fs.saved, fs.geo.dataStart)
    ensures Performed(fs.geo, old(State(fs.vol, fs.saved)), State(fs.vol, fs.saved), request, ok, e)
  {
    hide AlbumFs.Valid, Safe, T, Page, Utf8, LookupName, UnlinkDone, RmdirDone, RenameDone, Exact, AlbumFs.Durable,
        Spared, Blocks, RenameRefused, Names, Recs, Empty, Involved, RemoveResult, ListingOf, RmdirLeft,
        WriteDone, WriteFailed, CreateDone, MkdirDone, CreateLeft, Resized, SameVolume;
    ok, e := false, Refused;
    ghost var v, saved := fs.vol, fs.saved;
    match request {
      case UnlinkRequest(parent, name) =>
        ghost var found := LookupName(fs.vol, parent, name);
        var r := fs.Unlink(parent, name);
        ok, e := r.Ok?, if r.Ok? then UnlinkedFile(parent, name, found.value.value) else Refused;
      case RmdirRequest(parent, name) =>
        ghost var found := LookupName(fs.vol, parent, name);
        var r := fs.Rmdir(parent, name);
        ok, e := r.Ok?, if r.Ok? then RemovedDirectory(parent, name, found.value.value) else RmdirStopped(parent, name);
      case RenameRequest(parent, name, newParent, newName) =>
        var r;
        ghost var mid;
        r, mid := fs.Rename(parent, name, newParent, newName);
        ok, e := r.Ok?, if r.Ok? then Renamed(parent, name, newParent, newName, mid)
            else RenameStopped(parent, name, newParent, newName, mid, r.error);
      case _ =>
    }
    if !ok && fs.vol == v && fs.saved == saved {
      e := Refused;
    }
  }

  lemma RunMore(g: Geometry, ss: seq<State>, es: seq<Event>, s: State, e: Event)
    requires Run(g, ss, es) && AllSafe(ss, g.dataStart) && Transition(g, ss[|es|], e, s) && Safe(s.vol, g.dataStart)
    ensures Run(g, ss + [s], es + [e]) && AllSafe(ss + [s], g.dataStart)
    ensures AllSavedSafe(ss, g.dataStart) && Safe(s.saved, g.dataStart) ==> AllSavedSafe(ss + [s], g.dataStart)
  {
    hide Transition, Safe;
    forall i | 0 <= i < |es + [e]|
      ensures Transition(g, (ss + [s])[i], (es + [e])[i], (ss + [s])[i + 1])
    {
      if i < |es| {
        assert Transition(g, ss[i], es[i], ss[i + 1]);
      }
    }
  }

  /** A run that starts from the volume and the images of one filesystem and ends with those of
      another. */
  ghost predicate RunFrom(fs: AlbumFs, vol: Vol, saved: Vol, ss: seq<State>, es: seq<Event>)
    reads fs
  {
    Run(fs.geo, ss, es) && ss[0] == State(vol, saved) && ss[|es|] == State(fs.vol, fs.saved)
  }

  /** Carry out any requests one after the other, whatever they ask for and however they end; the
      program may end without a sync and start again on the way, if what the images hold is safe.  In
      every volume on the way each block that some inode reaches is an allocated data block and is
      reached by one pointer only, as long as that was so at the start.  Whatever happens to the names,
      the accounting stays exact, but for the blocks that an operation loses which runs out of blocks
      half-way; a restart before the next sync brings them back.  A rooted tree stays one while
      the events are within scope. */
  method PerformAll(mounted: AlbumFs, requests: seq<Request>)
      returns (fs: AlbumFs, ghost ss: seq<State>, ghost es: seq<Event>)
    requires mounted.Valid() && Safe(mounted.vol, mounted.geo.dataStart)
    requires RestartRequest in requests ==> Safe(mounted.saved, mounted.geo.dataStart)
    modifies mounted.store, mounted.bitmap, mounted`vol, mounted`saved
    ensures fs.Valid() && fs.geo == mounted.geo
    ensures Answered(requests, es)
    ensures RunFrom(fs, old(mounted.vol), old(mounted.saved), ss, es)
    ensures AllSafe(ss, fs.geo.dataStart)
    ensures Safe(ss[0].saved, fs.geo.dataStart) ==> AllSavedSafe(ss, fs.geo.dataStart)
    ensures RootedTree(ss[0].vol) && AllInScope(ss, es) && !TreeMarks(ss, es, |es|).vol ==> RootedTree(fs.vol)
    ensures Accounted(ss[0].vol, fs.geo.dataStart) ==> Conserved(ss, es, fs.geo.dataStart)
  {
    hide AlbumFs.Valid, Safe, Transition, InScope, Accounted, RootedTree, Event.Short, Answers, AlbumFs.Durable,
        SameVolume, TreeOk, Answered, Conserved, AllInScope, OnImages;
    fs, ss, es := mounted, [State(mounted.vol, mounted.saved)], [];
    AnsweredNone(requests);
    for k := 0 to |requests|
      invariant fs.Valid() && fs.geo == mounted.geo
      invariant fs == mounted || (fresh(fs) && fresh(fs.store) && fresh(fs.bitmap))
      invariant |es| == k && Answered(requests[..k], es)
      invariant RunFrom(fs, old(mounted.vol), old(mounted.saved), ss, es)
      invariant AllSafe(ss, fs.geo.dataStart)
      invariant Safe(ss[0].saved, fs.geo.dataStart) ==> AllSavedSafe(ss, fs.geo.dataStart)
    {
      ghost var e;
      ghost var s := State(fs.vol, fs.saved);
      assert Safe(ss[k].vol, fs.geo.dataStart);
      assert AllSavedSafe(ss, fs.geo.dataStart) ==> Safe(ss[k].saved, fs.geo.dataStart);
      if requests[k].ReopenRequest? {
        var synced := fs.Sync();
        fs := Remounting.Remount(fs);
        e := Reopened;
        ReopenedStep(fs.geo, s, State(fs.vol, fs.saved), e, requests[k]);
      } else if requests[k].RestartRequest? {
        fs := Remounting.Remount(fs);
        e := Restarted(s.saved);
        ReopenedStep(fs.geo, s, State(fs.vol, fs.saved), e, requests[k]);
      } else {
        var ok;
        ok, e := Perform(fs, requests[k]);
      }
      RunMore(fs.geo, ss, es, State(fs.vol, fs.saved), e);
      AnsweredMore(requests, k, es, e);
      ss, es := ss + [State(fs.vol, fs.saved)], es + [e];
    }
    assert requests[..|requests|] == requests;
    OnlyAsked(requests, es);
    if RootedTree(ss[0].vol) && AllInScope(ss, es) {
      RunKeeps(fs.geo, ss, es, |es|);
    }
    if Accounted(ss[0].vol, fs.geo.dataStart) {
      AllConserved(fs.geo, ss, es);
    }
  }

  /** There is no restart that was not asked for. */
  lemma OnlyAsked(requests: seq<Request>, es: seq<Event>)
    requires Answered(requests, es)
    ensures MayRestart(es, RestartRequest in requests)
  {
    hide Utf8;
  }

  lemma AllConserved(g: Geometry, ss: seq<State>, es: seq<Event>)
    requires Run(g, ss, es) && AllSafe(ss, g.dataStart) && Accounted(ss[0].vol, g.dataStart)
    requires MayRestart(es, AllSavedSafe(ss, g.dataStart))
    ensures Conserved(ss, es, g.dataStart)
  {
    hide Accounted, Transition, Safe, BlockMarks;
    forall n | 0 <= n < |ss|
      ensures !BlockMarks(ss, es, n, g.dataStart).vol ==> Accounted(ss[n].vol, g.dataStart)
      ensures !BlockMarks(ss, es, n, g.dataStart).saved ==> Accounted(ss[n].saved, g.dataStart)
    {
      RunConserves(g, ss, es, n);
    }
  }

  lemma ReopenedStep(g: Geometry, s: State, s': State, e: Event, request: Request)
    requires |s.vol.table| == |s'.vol.table| == g.inodeCount + 1 && s'.saved == s'.vol
    requires (request.ReopenRequest? && e == Reopened && SameVolume(s.vol, s'.vol)) ||
             (request.RestartRequest? && e == Restarted(s.saved) && SameVolume(s.saved, s'.vol))
    ensures Transition(g, s, e, s') && Answers(request, e)
  {
    hide T, Page;
  }

  /** What every volume of a run has kept, and the last one. */
  ghost predicate KeptThrough(ss: seq<State>, es: seq<Event>, lo: nat)
    requires |ss| == |es| + 1
  {
    && AllSafe(ss, lo) && AllSavedSafe(ss, lo) && Conserved(ss, es, lo)
    && (AllInScope(ss, es) && !TreeMarks(ss, es, |es|).vol ==> RootedTree(ss[|es|].vol))
  }

  /** What holds after a session on a pool laid out as `g`. */
  ghost predicate SessionOf(g: Geometry, fs: AlbumFs, requests: seq<Request>, ss: seq<State>, es: seq<Event>)
    reads fs, fs.store, fs.bitmap
  {
    && g.Sound() && g.inodeCount >= 1 && fs.geo == g
    && Answered(requests, es) && RunFrom(fs, FreshVol(g), FreshVol(g), ss, es)
    && KeptThrough(ss, es, g.dataStart) && fs.Valid()
  }

  /** A whole session: format a pool of images and carry out any requests.  No block ever has two
      owners; no block is lost and every count is right, but for what an operation loses that runs
      out of blocks half-way, which a restart before the next sync brings back; within scope the
      names stay a tree below the root. */
  method Session(p: Primitives, keys: Option<PhysicalBlocks.StoreKeys>, files: seq<Chunks.Medium>,
      requests: seq<Request>)
    returns (r: Result<AlbumFs>, ghost ss: seq<State>, ghost es: seq<Event>)
    requires p.Lawful() && |files| <= 0xFFFF_FFFF && (forall m :: m in files ==> m.WellFormed())
    requires keys.Some? ==> |keys.value.order| == 32
    requires PoolBlocks(keys, files) <= MAX_U64
    ensures r.Ok? ==> SessionOf(Plan(PoolBlocks(keys, files)), r.value, requests, ss, es)
  {
    hide AlbumFs.Valid, AlbumFs.Durable, Safe, Transition, InScope, Exact, RootedTree, Answers, FreshVol, Plan,
        PoolBlocks, Unformattable, Conserved, Aligned, OnImages, Answered;
    ss, es := [], [];
    var manifest;
    r, manifest := Format(p, keys, files);
    if r.Ok? {
      FreshIsGood(r.value.geo);
      RootedAligned(FreshVol(r.value.geo));
      var fs;
      fs, ss, es := PerformAll(r.value, requests);
      r := Ok(fs);
    }
  }

  lemma RootedAligned(v: Vol)
    requires RootedTree(v)
    ensures Aligned(v)
  {
    hide Aligned, Shaped, NsOk;
    RootedIsTree(v);
    ShapedAligned(v);
  }
}
