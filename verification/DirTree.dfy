/** Directories as they lie in the volume. */
module DirTree {
  import opened Bytes
  import opened Layout
  import opened Wrappers
  import opened Inodes
  import opened Volume
  import opened Space
  import opened Files
  import opened Dirents
  import opened DirBlocks
  import opened Directories

  /** The blocks of directory `i`. */
  function DirPages(v: Vol, i: nat): (pages: seq<Block>)
    requires i < |v.table|
    ensures |pages| == v.table[i].size / 4032
    ensures forall m :: 0 <= m < |pages| ==> pages[m] == Page(v, i, m)
  {
    seq(v.table[i].size / 4032, m => if 0 <= m then Page(v, i, m) else ZERO_BLOCK)
  }

  function Recs(v: Vol, i: nat): seq<DirEntry>
    requires i < |v.table|
  {
    DirRecs(DirPages(v, i))
  }

  /** Whole blocks, all mapped, each tiled by records. */
  ghost predicate Blocks(v: Vol, i: nat) {
    && i < |v.table|
    && v.table[i].size % 4032 == 0 && v.table[i].size / 4032 <= MAX_INDEX
    && (forall m: nat {:trigger T(v, i, SlotOf(m))} :: m < v.table[i].size / 4032 ==> T(v, i, SlotOf(m)) != 0)
    && (forall m: nat {:trigger Page(v, i, m)} :: m < v.table[i].size / 4032 ==> Walk(Page(v, i, m), 0).Ok?)
  }

  /** The first block starts with `.`, holds `..`, and none of its records is dead. */
  ghost predicate FirstBlock(recs: seq<DirEntry>) {
    && recs != [] && recs[0].name == DOT
    && (exists k :: 0 <= k < |recs| && recs[k].name == DOTDOT)
    && forall k :: 0 <= k < |recs| ==> recs[k].Live()
  }

  /** A well-formed directory. */
  ghost predicate DirOk(v: Vol, i: nat) {
    && Blocks(v, i)
    && v.table[i].size > 0
    && FirstBlock(RecsOf(Page(v, i, 0)))
    && Unique(Recs(v, i))
  }

  predicate SameButTimes(n: Inode, n': Inode) {
    n' == n.(mtime := n'.mtime, ctime := n'.ctime)
  }

  /** One block of inode `i` has been rewritten and its times updated. */
  ghost predicate PageChanged(v: Vol, v': Vol, lo: nat, i: nat, at: nat, page: Block) {
    && i < |v.table| && |v'.data| == |v.data|
    && Safe(v', lo) && OthersKept(v, v', i)
    && SameButTimes(v.table[i], v'.table[i])
    && v'.used == v.used && v'.owner == v.owner
    && (forall t: Slot {:trigger T(v', i, t)} :: T(v', i, t) == T(v, i, t))
    && (forall m: nat {:trigger Page(v', i, m)} :: Page(v', i, m) == if m == at then page else Page(v, i, m))
    && (Tight(v, lo) ==> Tight(v', lo))
  }

  /** Rewriting a mapped block of an inode and storing the inode with new times. */
  lemma PageStored(v: Vol, v1: Vol, v': Vol, lo: nat, i: nat, at: nat, page: Block, n': Inode)
    requires Safe(v, lo) && i < |v.table| && 0 < T(v, i, SlotOf(at)) < |v.data|
    requires v1 == v.(data := v.data[T(v, i, SlotOf(at)) := page])
    requires SameButTimes(v.table[i], n') && v' == v1.(table := v1.table[i := n'])
    ensures PageChanged(v, v', lo, i, at, page)
  {
    var b := T(v, i, SlotOf(at));
    LeafWrite(v, lo, i, SlotOf(at), page, v1);
    PagesAfterLeafWrite(v, v1, lo, i, at);
    PageStoredPages(v, v1, v', lo, i, at, page, n');
  }

  lemma PageStoredPages(v: Vol, v1: Vol, v': Vol, lo: nat, i: nat, at: nat, page: Block, n': Inode)
    requires Safe(v1, lo) && i < |v.table| && |v1.data| == |v.data| && v1.used == v.used && v1.owner == v.owner
    requires v1.table == v.table
    requires forall j: nat, t: Slot {:trigger T(v1, j, t)} :: T(v1, j, t) == T(v, j, t)
    requires forall j: nat, m: nat {:trigger Page(v1, j, m)} ::
      Page(v1, j, m) == if j == i && m == at then page else Page(v, j, m)
    requires SameButTimes(v.table[i], n') && v' == v1.(table := v1.table[i := n'])
    ensures PageChanged(v, v', lo, i, at, page)
  {
    hide T, Page, Safe, SlotOf, Full, NoLeak, Counted;
    SameTargets(v, v1, lo);
    SameTree(v1, i, n', v', lo);
    forall j: nat, t: Slot
      ensures T(v', j, t) == T(v, j, t)
    {
      assert T(v', j, t) == T(v1, j, t);
    }
    forall j: nat, m: nat
      ensures Page(v', j, m) == if j == i && m == at then page else Page(v, j, m)
    {
      assert Page(v', j, m) == Page(v1, j, m);
    }
  }

  /** A block inside the size says nothing about bytes past it. */
  lemma PageChangedExact(v: Vol, v': Vol, lo: nat, i: nat, at: nat, page: Block)
    requires PageChanged(v, v', lo, i, at, page) && Exact(v, lo)
    requires v.table[i].size % 4032 == 0 && at < v.table[i].size / 4032 && v.table[i].Live()
    ensures Exact(v', lo)
  {
    hide T, Page, Safe, SlotOf, Tight;
    assert TrimAt(v, i);
    forall pos: nat | v'.table[i].size <= pos
      ensures Byte(v', i, pos) == 0
    {
      assert Byte(v, i, pos) == 0;
      assert Page(v', i, pos / 4032) == Page(v, i, pos / 4032);
    }
    assert TrimAt(v', i);
    TrimOthers(v, v', i);
    IdleKept(v, v', i);
  }

  /** A rewritten block that is tiled again keeps the directory's shape. */
  lemma PageChangedBlocks(v: Vol, v': Vol, lo: nat, i: nat, at: nat, page: Block)
    requires PageChanged(v, v', lo, i, at, page) && Blocks(v, i)
    requires at < v.table[i].size / 4032 && Walk(page, 0).Ok?
    ensures Blocks(v', i)
    ensures Recs(v, i) == DirRecs(DirPages(v, i)[..at]) + RecsOf(Page(v, i, at)) + DirRecs(DirPages(v, i)[at + 1..])
    ensures Recs(v', i) == DirRecs(DirPages(v, i)[..at]) + RecsOf(page) + DirRecs(DirPages(v, i)[at + 1..])
  {
    hide T, Page, Safe, SlotOf, Tight, Walk, Utf8, DirRecs, RecsOf;
    assert DirPages(v', i) == DirPages(v, i)[at := page];
    DirRecsAt(DirPages(v, i), at);
    DirRecsUpdate(DirPages(v, i), at, page);
  }

  /** A block has been added at the end of directory `i`. */
  ghost predicate PageAppended(v: Vol, v': Vol, lo: nat, i: nat, page: Block) {
    && i < |v.table| && |v'.data| == |v.data|
    && Safe(v', lo) && OthersKept(v, v', i)
    && v'.table[i].size == v.table[i].size + 4032
    && SameAttributes(v.table[i], v'.table[i]) && v'.table[i].Stamped()
    && OlderPointers(v.table[i], v'.table[i])
    && (forall m: nat {:trigger T(v', i, SlotOf(m))} :: m != DivCeil(v.table[i].size, 4032) ==>
      T(v', i, SlotOf(m)) == T(v, i, SlotOf(m)))
    && T(v', i, SlotOf(DivCeil(v.table[i].size, 4032))) != 0
    && (forall m: nat {:trigger Page(v', i, m)} ::
      Page(v', i, m) == if m == DivCeil(v.table[i].size, 4032) then page else Page(v, i, m))
    && (Tight(v, lo) ==> Tight(v', lo))
    && DivCeil(v.table[i].size, 4032) < MAX_INDEX
  }

  /** Mapping one more block, filling it and storing the inode with the larger size. */
  lemma AppendStored(v: Vol, v1: Vol, v2: Vol, v': Vol, lo: nat, i: nat, page: Block, n': Inode)
    requires Safe(v, lo) && i < |v.table| && |v1.table| == |v.table|
    requires var at := DivCeil(v.table[i].size, 4032);
             && at < MAX_INDEX
             && Grown(v, v1, lo, i, SlotOf(at)) && Extends(v.table[i], v1.table[i])
             && v1.table == v.table[i := v1.table[i]]
             && (Full(v) ==> Full(v1)) && (Counted(v) ==> Counted(v1))
             && 0 < T(v1, i, SlotOf(at)) < |v1.data|
             && v2 == v1.(data := v1.data[T(v1, i, SlotOf(at)) := page])
    requires SamePointers(v1.table[i], n') && n'.blockCount == v1.table[i].blockCount
    requires n'.size == v.table[i].size + 4032
    requires SameAttributes(v.table[i], n') && n'.Stamped()
    requires v' == v2.(table := v2.table[i := n'])
    ensures PageAppended(v, v', lo, i, page)
  {
    hide T, Page, Safe, SlotOf, NoLeak, Full, Counted;
    var at := DivCeil(v.table[i].size, 4032);
    GrownStays(v, v1, lo, i, SlotOf(at));
    FilledBlock(v1, v2, lo, i, at, page);
    SameTree(v2, i, n', v', lo);
    AppendedTargets(v, v1, v2, v', lo, i, page);
  }

  lemma GrownStays(v: Vol, v1: Vol, lo: nat, i: nat, leaf: Slot)
    requires Grown(v, v1, lo, i, leaf)
    ensures Safe(v1, lo) && |v1.data| == |v.data| && (NoLeak(v, lo) ==> NoLeak(v1, lo))
  {
  }

  /** Filling a mapped block changes the contents of that block and nothing else. */
  lemma FilledBlock(v: Vol, v': Vol, lo: nat, i: nat, at: nat, page: Block)
    requires Safe(v, lo) && 0 < T(v, i, SlotOf(at)) < |v.data| && v' == v.(data := v.data[T(v, i, SlotOf(at)) := page])
    ensures Safe(v', lo) && (NoLeak(v, lo) ==> NoLeak(v', lo)) && (Full(v) ==> Full(v')) && (Counted(v) ==> Counted(v'))
    ensures forall j: nat, t: Slot {:trigger T(v', j, t)} :: T(v', j, t) == T(v, j, t)
    ensures forall j: nat, m: nat {:trigger Page(v', j, m)} ::
      Page(v', j, m) == if j == i && m == at then page else Page(v, j, m)
  {
    LeafWrite(v, lo, i, SlotOf(at), page, v');
    PagesAfterLeafWrite(v, v', lo, i, at);
    hide T, Page, Safe, NoLeak, Full, Counted;
    SameTargets(v, v', lo);
  }

  lemma AppendedTargets(v: Vol, v1: Vol, v2: Vol, v': Vol, lo: nat, i: nat, page: Block)
    requires i < |v.table| == |v'.table|
    requires var at := DivCeil(v.table[i].size, 4032);
             && at < MAX_INDEX && Grown(v, v1, lo, i, SlotOf(at)) && T(v1, i, SlotOf(at)) != 0
             && (forall j: nat, m: nat {:trigger Page(v2, j, m)} ::
               Page(v2, j, m) == if j == i && m == at then page else Page(v1, j, m))
    requires forall j :: 0 <= j < |v.table| && j != i ==> v'.table[j] == v.table[j]
    requires forall j: nat, t: Slot {:trigger T(v', j, t)} :: T(v', j, t) == T(v2, j, t) == T(v1, j, t)
    requires forall j: nat, m: nat {:trigger Page(v', j, m)} :: Page(v', j, m) == Page(v2, j, m)
    ensures OthersKept(v, v', i)
    ensures var at := DivCeil(v.table[i].size, 4032);
            && T(v', i, SlotOf(at)) != 0
            && (forall m: nat {:trigger T(v', i, SlotOf(m))} :: m != at ==> T(v', i, SlotOf(m)) == T(v, i, SlotOf(m)))
            && (forall m: nat {:trigger Page(v', i, m)} :: Page(v', i, m) == if m == at then page else Page(v, i, m))
  {
    hide T, Page, Safe, SlotOf, NoLeak;
    var at := DivCeil(v.table[i].size, 4032);
    forall m: nat | m != at
      ensures T(v', i, SlotOf(m)) == T(v, i, SlotOf(m))
    {
      if OnPath(SlotOf(m), SlotOf(at)) {
        LeafOnPath(m, at);
      }
      assert T(v', i, SlotOf(m)) == T(v1, i, SlotOf(m));
    }
    forall j: nat, t: Slot | j != i
      ensures T(v', j, t) == T(v, j, t)
    {
      assert T(v1, j, t) == T(v, j, t);
    }
    forall j: nat, m: nat
      ensures Page(v', j, m) == if j == i && m == at then page else Page(v, j, m)
    {
      assert Page(v', j, m) == Page(v2, j, m);
      assert Page(v1, j, m) == Page(v, j, m);
    }
  }

  lemma PageAppendedExact(v: Vol, v': Vol, lo: nat, i: nat, page: Block)
    requires PageAppended(v, v', lo, i, page) && Exact(v, lo) && v.table[i].size % 4032 == 0 && v.table[i].Live()
    ensures Exact(v', lo)
  {
    hide T, Page, Safe, SlotOf, Tight;
    assert TrimAt(v, i);
    forall pos: nat | v'.table[i].size <= pos
      ensures Byte(v', i, pos) == 0
    {
      assert Byte(v, i, pos) == 0;
      assert Page(v', i, pos / 4032) == Page(v, i, pos / 4032);
    }
    forall m: nat | T(v', i, SlotOf(m)) != 0
      ensures m * 4032 < v'.table[i].size
    {
      assert m != v.table[i].size / 4032 ==> T(v, i, SlotOf(m)) != 0;
    }
    assert TrimAt(v', i);
    TrimOthers(v, v', i);
    IdleKept(v, v', i);
  }

  lemma PageAppendedBlocks(v: Vol, v': Vol, lo: nat, i: nat, page: Block)
    requires PageAppended(v, v', lo, i, page) && Blocks(v, i) && Walk(page, 0).Ok?
    ensures Blocks(v', i) && Recs(v', i) == Recs(v, i) + RecsOf(page)
  {
    hide T, Page, Safe, SlotOf, Tight, Walk, Utf8, DirRecs, RecsOf;
    assert DirPages(v', i) == DirPages(v, i) + [page];
    DirRecsConcat(DirPages(v, i), [page]);
    DirRecsOne(page);
  }

  // ---------------------------------------------------------------- adding an entry

  /** What offering block `at` of inode `d` a new entry comes to. */
  function BlockPut(v: Vol, d: nat, at: nat, ino: u64, name: Name, fileType: byte): Result<Option<Block>>
    requires |name| < 0x100
  {
    match LookupResult(v, d, at)
    case Err(e) => Err(e)
    case Ok(None) => Err(Manifest)
    case Ok(Some(_)) => PutFrom(Page(v, d, at), 0, ino, name, fileType)
  }

  /** What taking an entry out of block `at` of inode `d` comes to. */
  function BlockTaken(v: Vol, d: nat, at: nat, name: Name): Result<Option<Block>> {
    match LookupResult(v, d, at)
    case Err(e) => Err(e)
    case Ok(None) => Err(Manifest)
    case Ok(Some(_)) => TakeFrom(Page(v, d, at), 0, None, name)
  }

  /** What the search for room in blocks `from..end` of inode `d` comes to: the first block with
      room and what it becomes, nothing when none has room, or the error of the first block that
      is not mapped or has a record that cannot be decoded before any room. */
  function AddScan(v: Vol, d: nat, from: nat, end: nat, ino: u64, name: Name,
      fileType: byte): Result<Option<(nat, Block)>>
    requires |name| < 0x100
    decreases end - from
  {
    if from >= end then Ok(None)
    else
      match BlockPut(v, d, from, ino, name, fileType)
      case Err(e) => Err(e)
      case Ok(Some(b)) => Ok(Some((from, b)))
      case Ok(None) => AddScan(v, d, from + 1, end, ino, name, fileType)
  }

  lemma {:induction false} AddScanBound(v: Vol, d: nat, from: nat, end: nat, ino: u64, name: Name, fileType: byte)
    requires |name| < 0x100
    ensures var r := AddScan(v, d, from, end, ino, name, fileType);
            r.Ok? && r.value.Some? ==> from <= r.value.value.0 < end
    decreases end - from
  {
    hide Utf8, PutFrom, Page, T;
    if from < end {
      AddScanBound(v, d, from + 1, end, ino, name, fileType);
    }
  }

  /** Whether the search finds room, or the error it ends with. */
  function RoomScan(v: Vol, d: nat, from: nat, end: nat, name: Name): Result<bool>
    requires |name| < 0x100
  {
    match AddScan(v, d, from, end, 0, name, 0)
    case Err(e) => Err(e)
    case Ok(found) => Ok(found.Some?)
  }

  lemma {:induction false} AddScanRoom(v: Vol, d: nat, from: nat, end: nat, ino: u64, name: Name, fileType: byte)
    requires |name| < 0x100
    ensures RoomScan(v, d, from, end, name) == match AddScan(v, d, from, end, ino, name, fileType)
                                               case Err(e) => Err(e)
                                               case Ok(found) => Ok(found.Some?)
    decreases end - from
  {
    hide Utf8, PutFrom, Page, T;
    if from < end {
      PutAnything(Page(v, d, from), 0, ino, name, fileType, 0, 0);
      AddScanRoom(v, d, from + 1, end, ino, name, fileType);
    }
  }

  /** The outcome of adding the entry `name` to inode `d` when `free` blocks are free: the first
      place with room serves, and otherwise one more block, if it can be mapped and there are as
      many free blocks as that takes. */
  ghost function AddResult(v: Vol, free: int, d: nat, name: Name): Result<()> {
    if d == 0 || d >= |v.table| || !v.table[d].Live() then Err(NotFound)
    else if !v.table[d].IsDir() then Err(NotDir)
    else if |name| > 0xFF then Err(NoSpace)
    else
      var n := DivCeil(v.table[d].size, 4032);
      match RoomScan(v, d, 0, n, name)
      case Err(e) => Err(e)
      case Ok(found) =>
        if found then Ok(()) else AppendResult(v, free, d)
  }

  /** The outcome of adding a block to inode `d`. */
  ghost function AppendResult(v: Vol, free: int, d: nat): Result<()>
    requires d < |v.table|
  {
    var n := DivCeil(v.table[d].size, 4032);
    if n >= MAX_INDEX then Err(BadBlock(n))
    else if |Lacking(v, d, PathTo(SlotOf(n)))| > free then Err(NoSpace)
    else Ok(())
  }

  /** What an addition that fails with error `e` leaves, which no contents show: nothing has changed,
      or for want of space all free blocks are taken by the path to the block to be added, and those
      of them that do not hang under a pointer the directory had before are lost. */
  ghost predicate EntryLeft(v: Vol, v': Vol, lo: nat, d: nat, name: Name, e: FsError) {
    && Unseen(v, v', lo)
    && (v' != v ==>
      && e == NoSpace && |name| <= 0xFF && d < |v.table| && AllTaken(v', lo)
      && LeftOver(v, v', d, PathTo(SlotOf(DivCeil(v.table[d].size, 4032)))))
  }

  lemma LeftUnseen(v: Vol, v': Vol, lo: nat, d: nat, name: Name, e: FsError)
    requires EntryLeft(v, v', lo, d, name, e)
    ensures Unseen(v, v', lo)
  {
  }

  lemma LeftRefl(v: Vol, lo: nat, d: nat, name: Name)
    requires Safe(v, lo)
    ensures forall e :: EntryLeft(v, v, lo, d, name, e)
  {
  }

  /** Whether a block has been rewritten. */
  function Rewritten(r: Result<Option<Block>>): Result<bool> {
    match r
    case Err(e) => Err(e)
    case Ok(found) => Ok(found.Some?)
  }

  /** Block `at` of inode `d` has become what `r` says. */
  ghost predicate BlockRewritten(v: Vol, v': Vol, lo: nat, d: nat, at: nat, r: Result<Option<Block>>) {
    r.Ok? && r.value.Some? && PageChanged(v, v', lo, d, at, r.value.value) && d < |v'.table| && v'.table[d].Stamped()
  }

  /** Another inode does not matter for it. */
  lemma AddResultElsewhere(v: Vol, v': Vol, c: nat, free: int, d: nat, name: Name)
    requires OthersKept(v, v', c) && c != d
    ensures AddResult(v', free, d, name) == AddResult(v, free, d, name)
  {
    hide T, Page, Utf8, SlotOf, PathTo;
    if 0 < d < |v.table| {
      assert v'.table[d] == v.table[d];
      var n := DivCeil(v.table[d].size, 4032);
      if |name| <= 0xFF {
        AddScanElsewhere(v, v', c, d, 0, n, name);
      }
      assert Lacking(v', d, PathTo(SlotOf(n))) == Lacking(v, d, PathTo(SlotOf(n)));
    }
  }

  lemma {:induction false} AddScanElsewhere(v: Vol, v': Vol, c: nat, d: nat, from: nat, end: nat, name: Name)
    requires OthersKept(v, v', c) && c != d && |name| < 0x100
    ensures AddScan(v', d, from, end, 0, name, 0) == AddScan(v, d, from, end, 0, name, 0)
    decreases end - from
  {
    hide T, Page, Utf8, SlotOf, PutFrom;
    if from < end {
      assert T(v', d, SlotOf(from)) == T(v, d, SlotOf(from)) && Page(v', d, from) == Page(v, d, from);
      AddScanElsewhere(v, v', c, d, from + 1, end, name);
    }
  }

  /** With room in a block, adding cannot fail. */
  lemma RoomSuffices(v: Vol, free: int, d: nat, name: Name)
    requires 0 < d < |v.table| && v.table[d].Live() && v.table[d].IsDir() && Blocks(v, d) && |name| <= 0xFF
    requires !NoRoomIn(v, d, |name|)
    ensures AddResult(v, free, d, name) == Ok(())
  {
    hide T, Page, Utf8, Walk, RequiredLen, SlotOf, AddScan;
    AddScanTiled(v, d, 0, 0, name, 0);
    AddScanRoom(v, d, 0, v.table[d].size / 4032, 0, name, 0);
  }

  /** The entry `name` has been added to directory `d`: in the first place with room, or in a
      block of its own when there is none. */
  ghost predicate DirAdded(v: Vol, v': Vol, lo: nat, d: nat, ino: u64, name: Name, fileType: byte) {
    && d < |v.table| && |name| < 0x100
    && var r := AddScan(v, d, 0, DivCeil(v.table[d].size, 4032), ino, name, fileType);
    && r.Ok?
    && (r.value.None? ==> PageAppended(v, v', lo, d, NewPage(ino, name, fileType)))
    && (r.value.Some? ==>
      PageChanged(v, v', lo, d, r.value.value.0, r.value.value.1) && d < |v'.table| && v'.table[d].Stamped())
  }

  /** In a directory of tiled blocks the search finds the first one with room. */
  lemma {:induction false} AddScanTiled(v: Vol, d: nat, from: nat, ino: u64, name: Name, fileType: byte)
    requires Blocks(v, d) && |name| < 0x100 && from <= RoomAt(DirPages(v, d), RequiredLen(|name|))
    ensures var (pages, n) := (DirPages(v, d), v.table[d].size / 4032);
            var at := RoomAt(pages, RequiredLen(|name|));
            AddScan(v, d, from, n, ino, name, fileType) ==
              if at == n then Ok(None) else Ok(Some((at, PagesAdded(pages, ino, name, fileType)[at])))
    decreases v.table[d].size / 4032 - from
  {
    hide T, Page, Walk, Utf8, SlotOf, PutFrom, RecsOf, RequiredLen, NoRoom, PutIn, NewPage;
    var pages := DirPages(v, d);
    if from < |pages| {
      assert T(v, d, SlotOf(from)) != 0 && Page(v, d, from) == pages[from];
      PutWalked(pages[from], ino, name, fileType);
      PutInRoom(pages[from], PutFrom(pages[from], 0, ino, name, fileType), ino, name, fileType);
      if from < RoomAt(pages, RequiredLen(|name|)) {
        AddScanTiled(v, d, from + 1, ino, name, fileType);
      }
    }
  }

  /** An entry goes only where there is room. */
  lemma PutInRoom(b: Block, r: Result<Option<Block>>, ino: u64, name: Name, fileType: byte)
    requires PutOutcome(b, r, ino, name, fileType) && Walk(b, 0).Ok?
    ensures r.Ok? && (r.value.Some? <==> !NoRoom(RecsOf(b), RequiredLen(|name|)))
  {
    hide Utf8, Walk, PutAt, InsertRecs;
  }

  lemma AllTiledBlocks(v: Vol, d: nat)
    requires Blocks(v, d)
    ensures AllTiled(DirPages(v, d))
  {
    hide T, Page, Walk, Utf8;
    var pages := DirPages(v, d);
    forall m | 0 <= m < |pages|
      ensures Walk(pages[m], 0).Ok?
    {
      assert pages[m] == Page(v, d, m);
    }
  }

  /** The blocks of a directory after an addition are a function of those before. */
  lemma AddedPages(v: Vol, v': Vol, lo: nat, d: nat, ino: u64, name: Name, fileType: byte)
    requires DirAdded(v, v', lo, d, ino, name, fileType) && Blocks(v, d)
    ensures d < |v'.table| && |name| < 0x100 && DirPages(v', d) == PagesAdded(DirPages(v, d), ino, name, fileType)
    ensures Blocks(v', d)
    ensures v'.table[d].size == if RoomAt(DirPages(v, d), RequiredLen(|name|)) == v.table[d].size / 4032
      then v.table[d].size + 4032 else v.table[d].size
  {
    hide T, Page, Safe, SlotOf, Tight, Walk, Utf8, DirRecs, RecsOf, RequiredLen, NewPage, PutIn, PagesAdded, AddScan;
    var pages := DirPages(v, d);
    AllTiledBlocks(v, d);
    AddScanTiled(v, d, 0, ino, name, fileType);
    PagesAddedAt(pages, ino, name, fileType);
    var at := RoomAt(pages, RequiredLen(|name|));
    if at == |pages| {
      NewPageWalk(ino, name, fileType);
      PageAppendedBlocks(v, v', lo, d, NewPage(ino, name, fileType));
      assert DirPages(v', d) == pages + [NewPage(ino, name, fileType)];
    } else {
      var page := PagesAdded(pages, ino, name, fileType)[at];
      PutInWalk(pages[at], page, ino, name, fileType);
      PageChangedBlocks(v, v', lo, d, at, page);
      assert DirPages(v', d) == pages[at := page];
    }
  }

  lemma PutInWalk(b: Block, b': Block, ino: u64, name: Name, fileType: byte)
    requires PutIn(b, b', RecsOf(b), ino, name, fileType)
    ensures Walk(b', 0).Ok?
  {
    hide Walk, Utf8, PutAt, InsertRecs;
  }

  /** No block of directory `d` has room for a name of `len` bytes. */
  ghost predicate NoRoomIn(v: Vol, d: nat, len: nat)
    requires d < |v.table|
  {
    RoomAt(DirPages(v, d), RequiredLen(len)) == v.table[d].size / 4032
  }

  lemma InsertedFirst(recs: seq<DirEntry>, recs': seq<DirEntry>, p: seq<DirEntry>, e: DirEntry, q: seq<DirEntry>,
      ino: u64, name: Name, fileType: byte)
    requires FirstBlock(recs) && PlacedAt(recs, recs', p, e, q, ino, name, fileType) && ino != 0
    ensures FirstBlock(recs')
  {
    hide Utf8, RequiredLen;
    assert recs[|p|] == e;
    forall k | 0 <= k < |recs'|
      ensures recs'[k].Live()
    {
      if k < |p| {
        assert recs'[k] == recs[k];
      } else if k > |p| + 1 {
        assert recs'[k] == recs[k - 1];
      }
    }
    assert |p| > 0 ==> recs'[0] == recs[0];
    var k :| 0 <= k < |recs| && recs[k].name == DOTDOT;
    assert recs'[if k <= |p| then k else k + 1].name == DOTDOT;
  }

  /** Adding an entry under a fresh name to a well-formed directory adds that name, keeps all
      others and keeps the directory well-formed. */
  lemma AddedDir(v: Vol, v': Vol, lo: nat, d: nat, ino: u64, name: Name, fileType: byte)
    requires DirAdded(v, v', lo, d, ino, name, fileType) && ino != 0
    requires DirOk(v, d) && name !in Names(Recs(v, d))
    ensures DirOk(v', d) && Names(Recs(v', d)) == Names(Recs(v, d))[name := Target(ino, fileType)]
  {
    hide T, Page, Safe, SlotOf, Tight, Walk, Utf8, DirRecs, Names, Unique, NewPage, DirAdded, PagesAdded, FirstBlock,
        RecsOf;
    AddedPages(v, v', lo, d, ino, name, fileType);
    AllTiledBlocks(v, d);
    AddedRecs(DirPages(v, d), ino, name, fileType);
    AddedNames(Recs(v, d), Recs(v', d), ino, name, fileType);
    assert DirPages(v, d)[0] == Page(v, d, 0) && DirPages(v', d)[0] == Page(v', d, 0);
    AddedFirst(DirPages(v, d), ino, name, fileType);
  }

  /** The blocks with one entry more hold the records with one entry more. */
  lemma AddedRecs(pages: seq<Block>, ino: u64, name: Name, fileType: byte)
    requires AllTiled(pages) && |name| < 0x100
    ensures EntryAdded(DirRecs(pages), DirRecs(PagesAdded(pages, ino, name, fileType)), ino, name, fileType)
  {
    hide Walk, Utf8, DirRecs, NewPage, PagesAdded, RecsOf, PutIn, InsertRecs, AllTiled, Place, HasRoom;
    PagesAddedAt(pages, ino, name, fileType);
    var at, pages' := RoomAt(pages, RequiredLen(|name|)), PagesAdded(pages, ino, name, fileType);
    if at == |pages| {
      NewPageWalk(ino, name, fileType);
      DirRecsConcat(pages, [NewPage(ino, name, fileType)]);
      DirRecsOne(NewPage(ino, name, fileType));
      NewPageRecs(ino, name, fileType);
    } else {
      var recs := RecsOf(pages[at]);
      PutInRecs(pages[at], pages'[at], ino, name, fileType);
      var p, e, q := InsertedSomewhere(recs, ino, name, fileType);
      DirRecsAt(pages, at);
      DirRecsUpdate(pages, at, pages'[at]);
      AddedInContext(DirRecs(pages[..at]), recs, RecsOf(pages'[at]), DirRecs(pages[at + 1..]), p, e, q, ino, name,
          fileType);
    }
  }

  lemma NewPageRecs(ino: u64, name: Name, fileType: byte)
    requires |name| < 0x100
    ensures RecsOf(NewPage(ino, name, fileType)) == [DirEntry(ino, 4032, name, fileType)]
  {
    hide Walk, Utf8, NewPage;
    NewPageWalk(ino, name, fileType);
  }

  lemma PutInRecs(b: Block, b': Block, ino: u64, name: Name, fileType: byte)
    requires PutIn(b, b', RecsOf(b), ino, name, fileType)
    ensures forall m :: 0 <= m < |RecsOf(b)| ==> Fits(RecsOf(b)[m])
    ensures InsertRecs(RecsOf(b), ino, name, fileType).Some?
    ensures RecsOf(b') == InsertRecs(RecsOf(b), ino, name, fileType).value
  {
    hide Walk, Utf8, PutAt, InsertRecs, FirstRoom, Extent, Fits;
  }

  /** A first block that takes an entry in stays one. */
  lemma AddedFirst(pages: seq<Block>, ino: u64, name: Name, fileType: byte)
    requires AllTiled(pages) && |name| < 0x100 && pages != [] && FirstBlock(RecsOf(pages[0])) && ino != 0
    ensures PagesAdded(pages, ino, name, fileType) != []
    ensures FirstBlock(RecsOf(PagesAdded(pages, ino, name, fileType)[0]))
  {
    hide Walk, Utf8, DirRecs, NewPage, PagesAdded, RecsOf, PutIn, InsertRecs, AllTiled, FirstBlock, Place, HasRoom;
    PagesAddedAt(pages, ino, name, fileType);
    if RoomAt(pages, RequiredLen(|name|)) == 0 {
      var recs := RecsOf(pages[0]);
      PutInRecs(pages[0], PagesAdded(pages, ino, name, fileType)[0], ino, name, fileType);
      var p, e, q := InsertedSomewhere(recs, ino, name, fileType);
      InsertedFirst(recs, RecsOf(PagesAdded(pages, ino, name, fileType)[0]), p, e, q, ino, name, fileType);
    }
  }

  // ---------------------------------------------------------------- removing an entry

  /** What the search for `name` in blocks `from..end` of inode `d` comes to: the first block that
      has it and what it becomes, nothing when none has it, or the error of the first block that
      is not mapped or has a record that cannot be decoded before the name. */
  function RemoveScan(v: Vol, d: nat, from: nat, end: nat, name: Name): Result<Option<(nat, Block)>>
    decreases end - from
  {
    if from >= end then Ok(None)
    else
      match BlockTaken(v, d, from, name)
      case Err(e) => Err(e)
      case Ok(Some(b)) => Ok(Some((from, b)))
      case Ok(None) => RemoveScan(v, d, from + 1, end, name)
  }

  lemma {:induction false} RemoveScanBound(v: Vol, d: nat, from: nat, end: nat, name: Name)
    ensures RemoveScan(v, d, from, end, name).Ok? && RemoveScan(v, d, from, end, name).value.Some? ==>
      from <= RemoveScan(v, d, from, end, name).value.value.0 < end
    decreases end - from
  {
    hide Utf8, TakeFrom, Page, T;
    if from < end {
      RemoveScanBound(v, d, from + 1, end, name);
    }
  }

  /** The outcome of taking the entry `name` out of inode `d`. */
  function RemoveResult(v: Vol, d: nat, name: Name): Result<()> {
    if d == 0 || d >= |v.table| || !v.table[d].Live() then Err(NotFound)
    else if !v.table[d].IsDir() then Err(NotDir)
    else
      match RemoveScan(v, d, 0, DivCeil(v.table[d].size, 4032), name)
      case Err(e) => Err(e)
      case Ok(None) => Err(NotFound)
      case Ok(Some(_)) => Ok(())
  }

  /** In a directory of tiled blocks it succeeds exactly when the name is there. */
  lemma RemoveResultTiled(v: Vol, d: nat, name: Name)
    requires 0 < d < |v.table| && v.table[d].Live() && v.table[d].IsDir() && Blocks(v, d)
    ensures RemoveResult(v, d, name) == if name in Names(Recs(v, d)) then Ok(()) else Err(NotFound)
  {
    hide T, Page, Walk, Utf8, Names, DirRecs, RemoveScan, PagesRemoved;
    RemoveScanTiled(v, d, 0, name);
    HolderNames(DirPages(v, d), name);
  }

  /** The first entry `name` has been taken out of directory `d`. */
  ghost predicate DirRemoved(v: Vol, v': Vol, lo: nat, d: nat, name: Name) {
    && d < |v.table|
    && var r := RemoveScan(v, d, 0, DivCeil(v.table[d].size, 4032), name);
    && r.Ok? && r.value.Some?
    && PageChanged(v, v', lo, d, r.value.value.0, r.value.value.1) && d < |v'.table| && v'.table[d].Stamped()
  }

  /** In a directory of tiled blocks the search finds the first one that has the name. */
  lemma {:induction false} RemoveScanTiled(v: Vol, d: nat, from: nat, name: Name)
    requires Blocks(v, d) && from <= HolderOf(DirPages(v, d), name)
    ensures var (pages, n) := (DirPages(v, d), v.table[d].size / 4032);
            var at := HolderOf(pages, name);
            RemoveScan(v, d, from, n, name) == if at == n then Ok(None)
                else Ok(Some((at, PagesRemoved(pages, name)[at])))
    decreases v.table[d].size / 4032 - from
  {
    hide T, Page, Walk, Utf8, SlotOf, TakeFrom, TakenFrom, FindNamed, RecsOf;
    var pages := DirPages(v, d);
    if from < |pages| {
      assert T(v, d, SlotOf(from)) != 0 && Page(v, d, from) == pages[from];
      TakeWalked(pages[from], name);
      TakenIfThere(pages[from], TakeFrom(pages[from], 0, None, name), name);
      if from < HolderOf(pages, name) {
        RemoveScanTiled(v, d, from + 1, name);
      }
    }
  }

  /** Only a name that is there is taken out. */
  lemma TakenIfThere(b: Block, r: Result<Option<Block>>, name: Name)
    requires Taken(b, r, name) && Walk(b, 0).Ok?
    ensures r.Ok? && (r.value.Some? <==> FindNamed(RecsOf(b), name) < |RecsOf(b)|)
  {
    hide Utf8, Walk, TakeAt, RemovedRec, FindNamed;
  }

  /** The blocks of a directory after a removal are a function of those before. */
  lemma RemovedPages(v: Vol, v': Vol, lo: nat, d: nat, name: Name)
    requires DirRemoved(v, v', lo, d, name) && Blocks(v, d)
    ensures d < |v'.table| && v'.table[d].size == v.table[d].size
    ensures DirPages(v', d) == PagesRemoved(DirPages(v, d), name) && HolderOf(DirPages(v, d), name) < |DirPages(v, d)|
  {
    hide T, Page, Safe, SlotOf, Tight, Walk, Utf8, RecsOf, TakenFrom, PagesRemoved, RemoveScan, FindNamed;
    var pages := DirPages(v, d);
    AllTiledBlocks(v, d);
    RemoveScanTiled(v, d, 0, name);
    PagesRemovedAt(pages, name);
    assert DirPages(v', d) == PagesRemoved(pages, name);
  }

  /** The removal of `name` folds it into the record right before it, not across dead ones. */
  ghost predicate Removable(v: Vol, d: nat, name: Name) {
    d < |v.table| ==> PagesRemovable(DirPages(v, d), name)
  }

  /** In the first block removal always folds into the record right before the victim. */
  lemma FirstBlockRemovable(recs: seq<DirEntry>, k: nat)
    requires FirstBlock(recs) && k < |recs|
    ensures Adjacent(recs, k)
  {
    hide Utf8;
    if k > 0 {
      assert recs[..k][k - 1].Live();
    }
  }

  lemma {:induction false} InFirstBlockRemovable(v: Vol, d: nat, name: Name)
    requires DirOk(v, d) && FindNamed(RecsOf(Page(v, d, 0)), name) < |RecsOf(Page(v, d, 0))|
    ensures Removable(v, d, name)
  {
    hide T, Page, Utf8, RecsOf, FindNamed, Unique;
    assert DirPages(v, d)[0] == Page(v, d, 0);
    FirstBlockRemovable(RecsOf(Page(v, d, 0)), FindNamed(RecsOf(Page(v, d, 0)), name));
  }

  lemma RemovedFirst(b: Block, b': Block, recs: seq<DirEntry>, k: nat)
    requires FirstBlock(recs) && Tiles(b, 0, recs, UB) && 0 < k < |recs| && RemovedRec(b, b', recs, k)
    requires recs[k].name != DOTDOT
    ensures FirstBlock(RecsOf(b'))
  {
    hide Utf8, Decode, Walk, Tiles, Extent;
    FirstBlockRemovable(recs, k);
    MergedWalk(b, b', recs, k);
    var recs' := recs[..k - 1] + [Merged(recs, k)] + recs[k + 1..];
    forall m | 0 <= m < |recs'|
      ensures recs'[m].Live()
    {
      if m >= k {
        assert recs'[m] == recs[m + 1];
      }
    }
    var up :| 0 <= up < |recs| && recs[up].name == DOTDOT;
    assert recs'[if up < k then up else up - 1].name == DOTDOT;
  }

  /** Removing a name from a well-formed directory, when the removal folds it into the record
      right before it, removes that name and no other and keeps the directory well-formed. */
  lemma RemovedDir(v: Vol, v': Vol, lo: nat, d: nat, name: Name)
    requires DirRemoved(v, v', lo, d, name) && DirOk(v, d) && Removable(v, d, name) && name != DOT && name != DOTDOT
    ensures name in Names(Recs(v, d))
    ensures DirOk(v', d) && Names(Recs(v', d)) == Names(Recs(v, d)) - {name}
  {
    hide T, Page, Safe, SlotOf, Tight, Utf8, DirRecs, Names, Unique, FindNamed, EntryRemoved, Adjacent, Walk, RecsOf,
        PagesRemoved, FirstBlock, TakenFrom, RemoveScan;
    var pages := DirPages(v, d);
    AllTiledBlocks(v, d);
    RemovedPages(v, v', lo, d, name);
    RemovedTiled(pages, name);
    RemovedBlocksOk(v, v', lo, d, name);
    RemovedNames(Recs(v, d), Recs(v', d), name);
    assert pages[0] == Page(v, d, 0) && DirPages(v', d)[0] == Page(v', d, 0);
    RemovedFirstPage(pages, name);
  }

  /** The blocks with one entry less hold the records with one entry less. */
  lemma RemovedTiled(pages: seq<Block>, name: Name)
    requires AllTiled(pages) && HolderOf(pages, name) < |pages| && PagesRemovable(pages, name)
    ensures AllTiled(PagesRemoved(pages, name))
    ensures EntryRemoved(DirRecs(pages), DirRecs(PagesRemoved(pages, name)), name)
  {
    hide Utf8, DirRecs, FindNamed, EntryRemoved, Adjacent, Walk, PagesRemoved, RemovedRec, TakeAt;
    var at, pages' := HolderOf(pages, name), PagesRemoved(pages, name);
    var recs := RecsOf(pages[at]);
    PagesRemovedAt(pages, name);
    WalkTiles(pages[at], 0, recs);
    RemovedRecs(pages[at], pages'[at], recs, FindNamed(recs, name));
    DirRecsAt(pages, at);
    DirRecsUpdate(pages, at, pages'[at]);
    RemovedInContext(DirRecs(pages[..at]), recs, RecsOf(pages'[at]), DirRecs(pages[at + 1..]), name);
  }

  /** A first block from which an entry other than `.` and `..` goes stays one. */
  lemma RemovedFirstPage(pages: seq<Block>, name: Name)
    requires AllTiled(pages) && HolderOf(pages, name) < |pages| && FirstBlock(RecsOf(pages[0])) && name != DOT
    requires name != DOTDOT
    ensures FirstBlock(RecsOf(PagesRemoved(pages, name)[0]))
  {
    hide Utf8, DirRecs, EntryRemoved, Adjacent, Walk, PagesRemoved, RemovedRec, TakeAt;
    var at, pages' := HolderOf(pages, name), PagesRemoved(pages, name);
    PagesRemovedAt(pages, name);
    if at == 0 {
      var recs := RecsOf(pages[0]);
      WalkTiles(pages[0], 0, recs);
      RemovedFirst(pages[0], pages'[0], recs, FindNamed(recs, name));
    }
  }

  /** Mapping and sizes do not change when a block is rewritten. */
  lemma RemovedBlocksOk(v: Vol, v': Vol, lo: nat, d: nat, name: Name)
    requires DirRemoved(v, v', lo, d, name) && Blocks(v, d) && d < |v'.table|
    ensures AllTiled(DirPages(v', d)) <==> Blocks(v', d)
  {
    hide T, Page, Safe, SlotOf, Tight, Walk, Utf8, RemoveScan;
    forall m: nat | m < v'.table[d].size / 4032
      ensures T(v', d, SlotOf(m)) != 0 && DirPages(v', d)[m] == Page(v', d, m)
    {
      assert T(v, d, SlotOf(m)) != 0;
    }
    if Blocks(v', d) {
      AllTiledBlocks(v', d);
    }
  }

  // ---------------------------------------------------------------- listing

  /** A listing that starts with `done`. */
  function Before(done: seq<DirEntry>, r: Result<seq<DirEntry>>): Result<seq<DirEntry>> {
    match r
    case Ok(rest) => Ok(done + rest)
    case Err(e) => Err(e)
  }

  lemma NothingBefore(r: Result<seq<DirEntry>>)
    ensures Before([], r) == r
  {
    hide Utf8;
    if r.Ok? {
      assert [] + r.value == r.value;
    }
  }

  /** What reading blocks `from..to` of directory `i` yields; holes are skipped. */
  function Entries(v: Vol, i: nat, from: nat, to: nat): Result<seq<DirEntry>>
    decreases to - from
  {
    if from >= to then Ok([])
    else
      match LookupResult(v, i, from)
      case Err(e) => Err(e)
      case Ok(None) => Entries(v, i, from + 1, to)
      case Ok(Some(_)) =>
        match Walk(Page(v, i, from), 0)
        case Err(e) => Err(e)
        case Ok(recs) =>
          match Entries(v, i, from + 1, to)
          case Err(e) => Err(e)
          case Ok(rest) => Ok(recs + rest)
  }

  /** Reading a directory made of tiled blocks yields all its records. */
  lemma {:induction false} EntriesOk(v: Vol, i: nat, from: nat)
    requires Blocks(v, i) && from <= v.table[i].size / 4032
    ensures Entries(v, i, from, v.table[i].size / 4032) == Ok(DirRecs(DirPages(v, i)[from..]))
    decreases v.table[i].size / 4032 - from
  {
    hide T, Page, Walk, Utf8, SlotOf;
    var pages := DirPages(v, i);
    if from < |pages| {
      EntriesOk(v, i, from + 1);
      assert pages[from..][1..] == pages[from + 1..];
      assert T(v, i, SlotOf(from)) != 0;
    }
  }

  /** The outcome of looking `name` up in inode `d`. */
  function LookupName(v: Vol, d: nat, name: Name): Result<Option<nat>>
  {
    if d == 0 || d >= |v.table| || !v.table[d].Live() then Err(NotFound)
    else if !v.table[d].IsDir() then Err(NotDir)
    else
      match Entries(v, d, 0, DivCeil(v.table[d].size, 4032))
      case Err(e) => Err(e)
      case Ok(recs) =>
        var k := FindNamed(recs, name);
        Ok(if k < |recs| then Some(recs[k].inode) else None)
  }

  /** In a well-formed directory a lookup answers from its map of names. */
  lemma LookupNames(v: Vol, d: nat, name: Name)
    requires 0 < d < |v.table| && v.table[d].Live() && v.table[d].IsDir() && Blocks(v, d)
    ensures LookupName(v, d, name) == Ok(if name in Names(Recs(v, d)) then Some(Names(Recs(v, d))[name].ino as nat)
      else None)
  {
    hide Names, FindNamed, Entries, DirRecs, Page, T, Utf8;
    EntriesOk(v, d, 0);
    assert DirPages(v, d)[0..] == DirPages(v, d);
    NamesFind(Recs(v, d), name);
  }

  /** A live record as a listing shows it. */
  datatype Listed = Listed(ino: u64, name: Name, fileType: byte)

  /** The live records, in order. */
  function Listing(recs: seq<DirEntry>): seq<Listed> {
    if recs == [] then []
    else
      var last := recs[|recs| - 1];
      if last.Live() then Listing(recs[..|recs| - 1]) + [Listed(last.inode, last.name, last.fileType)]
      else Listing(recs[..|recs| - 1])
  }

  /** The outcome of listing inode `d`. */
  function ListingOf(v: Vol, d: nat): Result<seq<Listed>> {
    if d == 0 || d >= |v.table| || !v.table[d].Live() then Err(NotFound)
    else if !v.table[d].IsDir() then Err(NotDir)
    else
      match Entries(v, d, 0, DivCeil(v.table[d].size, 4032))
      case Err(e) => Err(e)
      case Ok(recs) => Ok(Listing(recs))
  }

  predicate Shows(listing: seq<Listed>, name: Name) {
    exists k :: 0 <= k < |listing| && listing[k].name == name
  }

  lemma ShowsMore(listing: seq<Listed>, e: Listed, name: Name)
    ensures Shows(listing + [e], name) <==> Shows(listing, name) || e.name == name
  {
    hide Utf8;
    var more := listing + [e];
    assert more[|listing|] == e;
    if Shows(listing, name) {
      var k :| 0 <= k < |listing| && listing[k].name == name;
      assert more[k].name == name;
    }
  }

  /** A listing shows exactly the names of the directory. */
  lemma {:induction false} ListingNames(recs: seq<DirEntry>, name: Name)
    ensures name in Names(recs) <==> Shows(Listing(recs), name)
  {
    hide Utf8, Shows;
    if recs == [] {
      assert !Shows([], name) by {
        NothingShown(name);
      }
    } else {
      var front, last := recs[..|recs| - 1], recs[|recs| - 1];
      assert recs == front + [last];
      ListingNames(front, name);
      NamesConcat(front, [last]);
      NamesOne(last);
      ShowsMore(Listing(front), Listed(last.inode, last.name, last.fileType), name);
    }
  }

  lemma NothingShown(name: Name)
    ensures !Shows([], name)
  {
  }

  /** In a well-formed directory a listing shows exactly the names of its map. */
  lemma ListingComplete(v: Vol, d: nat, name: Name)
    requires 0 < d < |v.table| && v.table[d].Live() && v.table[d].IsDir() && Blocks(v, d)
    ensures ListingOf(v, d).Ok?
    ensures name in Names(Recs(v, d)) <==> Shows(ListingOf(v, d).value, name)
  {
    hide Names, Entries, DirRecs, Page, T, Utf8, Listing;
    EntriesOk(v, d, 0);
    assert DirPages(v, d)[0..] == DirPages(v, d);
    ListingNames(Recs(v, d), name);
  }

  /** A listing has one element for each live record, in its place among the others. */
  lemma {:induction false} ListingParts(p: seq<DirEntry>, e: DirEntry, q: seq<DirEntry>)
    ensures Listing(p + [e] + q) ==
      Listing(p) + (if e.inode != 0 then [Listed(e.inode, e.name, e.fileType)] else []) + Listing(q)
  {
    hide Utf8;
    var recs := p + [e] + q;
    if q == [] {
      assert recs[..|recs| - 1] == p;
    } else {
      var front, last := q[..|q| - 1], q[|q| - 1];
      ListingParts(p, e, front);
      assert recs[..|recs| - 1] == p + [e] + front && recs[|recs| - 1] == last;
    }
  }

  /** In a directory whose names differ, a listing shows inode, name and type of a record exactly
      when its name stands for that inode and type. */
  lemma {:induction false} ListingTargets(recs: seq<DirEntry>, e: Listed)
    requires Unique(recs)
    ensures e in Listing(recs) <==> e.name in Names(recs) && Names(recs)[e.name] == Target(e.ino, e.fileType)
  {
    hide Utf8;
    if recs != [] {
      var front, last := recs[..|recs| - 1], recs[|recs| - 1];
      assert recs == front + [last];
      ListingTargets(front, e);
      NamesConcat(front, [last]);
      NamesOne(last);
      NamesIn(front, last.name);
      UniqueFront(recs);
    }
  }

  lemma UniqueFront(recs: seq<DirEntry>)
    requires Unique(recs) && recs != []
    ensures var front, last := recs[..|recs| - 1], recs[|recs| - 1];
            && Unique(front)
            && forall k :: 0 <= k < |front| && front[k].Live() && last.Live() ==> front[k].name != last.name
  {
    hide Utf8;
    var front, last := recs[..|recs| - 1], recs[|recs| - 1];
    forall k | 0 <= k < |front| && front[k].Live() && last.Live()
      ensures front[k].name != last.name
    {
      assert recs[k] == front[k];
    }
    forall i, j | 0 <= i < j < |front| && front[i].Live() && front[j].Live()
      ensures front[i].name != front[j].name
    {
      assert recs[i] == front[i] && recs[j] == front[j];
    }
  }

  /** No name is listed twice. */
  lemma {:induction false} ListedOnce(recs: seq<DirEntry>, i: nat, j: nat)
    requires Unique(recs) && i < j < |Listing(recs)|
    ensures Listing(recs)[i].name != Listing(recs)[j].name
  {
    hide Utf8, Unique;
    if recs != [] {
      var front, last := recs[..|recs| - 1], recs[|recs| - 1];
      UniqueFront(recs);
      if j < |Listing(front)| {
        ListedOnce(front, i, j);
      } else {
        ListingNames(front, Listing(front)[i].name);
        NamesIn(front, Listing(front)[i].name);
      }
    }
  }

  // ---------------------------------------------------------------- redirecting `..`

  /** The outcome of pointing `..` of inode `d` at `ino`, its first block being looked up in `n`, a
      copy of its record. */
  function TurnResult(v: Vol, n: Inode, d: nat, ino: u64): Result<()> {
    if n.direct[0] == 0 then Err(Manifest)
    else
      match TurnFrom(Page(v, d, 0), 0, DOTDOT, ino)
      case Err(e) => Err(e)
      case Ok(None) => Err(Manifest)
      case Ok(Some(_)) => Ok(())
  }

  /** In a well-formed directory it succeeds. */
  lemma TurnResultOk(v: Vol, d: nat, ino: u64)
    requires DirOk(v, d)
    ensures TurnResult(v, v.table[d], d, ino) == Ok(())
  {
    hide T, Page, Walk, Utf8, Names, TurnFrom, TurnedIn, Unique, RecsOf, FindNamed, FirstBlock;
    DotdotFirst(v, d);
    var b := Page(v, d, 0);
    TurnWalked(b, DOTDOT, ino);
    RecsWalk(b);
  }

  lemma RecsWalk(b: Block)
    ensures Walk(b, 0).Ok? ==> RecsOf(b) == Walk(b, 0).value
  {
    hide Utf8, Walk;
  }

  /** The first block of directory `d` has its entry `name` pointed at `ino`. */
  ghost predicate DirRedirected(v: Vol, v': Vol, lo: nat, d: nat, name: Name, ino: u64) {
    && d < |v.table|
    && var r := TurnFrom(Page(v, d, 0), 0, name, ino);
    && r.Ok? && r.value.Some? && PageChanged(v, v', lo, d, 0, r.value.value)
    && d < |v'.table| && v'.table[d] == v.table[d]
  }

  /** A well-formed directory has its `..` in its first block, and that block is mapped. */
  lemma DotdotFirst(v: Vol, d: nat)
    requires DirOk(v, d)
    ensures FindNamed(RecsOf(Page(v, d, 0)), DOTDOT) < |RecsOf(Page(v, d, 0))| && v.table[d].direct[0] != 0
  {
    hide Page, Utf8, RecsOf, Unique, Recs, FindNamed;
    assert T(v, d, SlotOf(0)) != 0;
  }

  lemma RedirectedDir(v: Vol, v': Vol, lo: nat, d: nat, name: Name, ino: u64)
    requires DirRedirected(v, v', lo, d, name, ino) && DirOk(v, d) && ino != 0
    ensures name in Names(Recs(v, d)) && DirOk(v', d)
    ensures Names(Recs(v', d)) == Names(Recs(v, d))[name := Target(ino, Names(Recs(v, d))[name].fileType)]
  {
    hide T, Page, Safe, SlotOf, Tight, Utf8, DirRecs, Names, Unique, FindNamed, Walk, TurnFrom, FirstBlock, RecsOf;
    var b := Page(v, d, 0);
    var page := TurnFrom(b, 0, name, ino).value.value;
    TurnWalked(b, name, ino);
    TurnedRecs(b, TurnFrom(b, 0, name, ino), name, ino);
    PageChangedBlocks(v, v', lo, d, 0, page);
    DirRecsNone(DirPages(v, d)[..0]);
    var rest := DirRecs(DirPages(v, d)[1..]);
    assert Recs(v, d) == RecsOf(b) + rest && Recs(v', d) == RecsOf(page) + rest;
    RedirectedRecs(RecsOf(b), RecsOf(page), rest, name, ino);
    RedirectedFirst(RecsOf(b), FindNamed(RecsOf(b), name), ino);
  }

  lemma TurnedRecs(b: Block, r: Result<Option<Block>>, name: Name, ino: u64)
    requires Turned(b, r, name, ino) && r.Ok? && r.value.Some? && Walk(b, 0).Ok?
    ensures var (recs, k) := (RecsOf(b), FindNamed(RecsOf(b), name));
            && k < |recs| && Walk(r.value.value, 0).Ok?
            && RecsOf(r.value.value) == recs[..k] + [recs[k].(inode := ino)] + recs[k + 1..]
  {
    hide Utf8, FindNamed, Walk;
  }

  lemma RedirectedRecs(recs: seq<DirEntry>, recs': seq<DirEntry>, rest: seq<DirEntry>, name: Name, ino: u64)
    requires var k := FindNamed(recs, name);
             k < |recs| && recs' == recs[..k] + [recs[k].(inode := ino)] + recs[k + 1..]
    requires ino != 0
    ensures name in Names(recs + rest) && (Unique(recs + rest) ==> Unique(recs' + rest))
    ensures Names(recs' + rest) == Names(recs + rest)[name := Target(ino, Names(recs + rest)[name].fileType)]
  {
    hide Utf8, Names, Unique, FindNamed;
    var k, all := FindNamed(recs, name), recs + rest;
    FindInPrefix(recs, rest, name);
    assert all[..k] == recs[..k] && all[k] == recs[k] && all[k + 1..] == recs[k + 1..] + rest;
    assert recs' + rest == all[..k] + [all[k].(inode := ino)] + all[k + 1..];
    RedirectedNames(all, k, ino);
    NamesFind(all, name);
  }

  lemma DirRecsNone(pages: seq<Block>)
    requires pages == []
    ensures DirRecs(pages) == []
  {
  }

  lemma RedirectedFirst(recs: seq<DirEntry>, k: nat, ino: u64)
    requires FirstBlock(recs) && k < |recs| && ino != 0
    ensures FirstBlock(recs[..k] + [recs[k].(inode := ino)] + recs[k + 1..])
  {
    hide Utf8;
    var up :| 0 <= up < |recs| && recs[up].name == DOTDOT;
    assert (recs[..k] + [recs[k].(inode := ino)] + recs[k + 1..])[up].name == DOTDOT;
  }

  lemma {:induction false} FindInPrefix(p: seq<DirEntry>, q: seq<DirEntry>, name: Name)
    requires FindNamed(p, name) < |p|
    ensures FindNamed(p + q, name) == FindNamed(p, name)
  {
    hide Utf8;
    assert (p + q)[0] == p[0];
    if !(p[0].Live() && p[0].name == name) {
      assert (p + q)[1..] == p[1..] + q;
      FindInPrefix(p[1..], q, name);
    }
  }

  /** A block holds the name exactly when it is one of the directory's names. */
  lemma HolderNames(pages: seq<Block>, name: Name)
    ensures HolderOf(pages, name) < |pages| <==> name in Names(DirRecs(pages))
  {
    hide Walk, Utf8, RecsOf, Names, FindNamed, DirRecs;
    var at := HolderOf(pages, name);
    if at < |pages| {
      var recs, before := RecsOf(pages[at]), DirRecs(pages[..at]);
      var k := FindNamed(recs, name);
      DirRecsAt(pages, at);
      assert (before + recs + DirRecs(pages[at + 1..]))[|before| + k] == recs[k];
      NamesIn(DirRecs(pages), name);
    } else {
      NotInRecs(pages, name);
      NamesFind(DirRecs(pages), name);
    }
  }

  lemma {:induction false} NotInRecs(pages: seq<Block>, name: Name)
    requires forall m :: 0 <= m < |pages| ==> FindNamed(RecsOf(pages[m]), name) == |RecsOf(pages[m])|
    ensures FindNamed(DirRecs(pages), name) == |DirRecs(pages)|
  {
    hide Walk, Utf8, RecsOf, FindNamed;
    if pages == [] {
      FindInNone(name);
    } else {
      NotInRecs(pages[1..], name);
      FindInBoth(RecsOf(pages[0]), DirRecs(pages[1..]), name);
    }
  }

  lemma FindInNone(name: Name)
    ensures FindNamed([], name) == 0
  {
  }

  lemma {:induction false} FindInBoth(p: seq<DirEntry>, q: seq<DirEntry>, name: Name)
    requires FindNamed(p, name) == |p| && FindNamed(q, name) == |q|
    ensures FindNamed(p + q, name) == |p + q|
  {
    hide Utf8;
    if p == [] {
      assert p + q == q;
    } else {
      assert (p + q)[1..] == p[1..] + q;
      FindInBoth(p[1..], q, name);
    }
  }
}
