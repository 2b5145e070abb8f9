/** A run after which a directory cannot be read. */
module HoleRuns {
  import opened Bytes
  import opened Layout
  import opened Wrappers
  import opened Inodes
  import opened Geometry
  import opened Volume
  import opened Space
  import opened Files
  import opened Dirents
  import opened DirBlocks
  import opened Directories
  import opened DirTree
  import opened DirRemoval
  import opened FsTree
  import opened FsOps
  import opened Namespaces
  import Renames
  import FailedRuns
  import opened Album
  import opened Formatting

  const A: Name := [97]
  const B: Name := [98]
  const C: Name := [99]
  const D: Name := [100]

  function Rec(inode: u64, recLen: u16, name: Name): DirEntry {
    DirEntry(inode, recLen, name, FILE_TYPE_FILE)
  }

  // ---------------------------------------------------------------- in one block

  /** One file in a block of its own, a second beside it, a third. */
  function OneRec(a: u64): seq<DirEntry> {
    [Rec(a, 4032, A)]
  }

  function TwoRecs(a: u64, b: u64): seq<DirEntry> {
    [Rec(a, 16, A), Rec(b, 4016, B)]
  }

  function ThreeRecs(a: u64, b: u64, c: u64): seq<DirEntry> {
    [Rec(a, 16, A), Rec(b, 16, B), Rec(c, 4000, C)]
  }

  /** The first one removed, and the second. */
  function OneDead(b: u64, c: u64): seq<DirEntry> {
    [Rec(0, 16, A), Rec(b, 16, B), Rec(c, 4000, C)]
  }

  function TwoDead(c: u64): seq<DirEntry> {
    [Rec(0, 16, A), Rec(0, 16, B), Rec(c, 4000, C)]
  }

  /** A fourth in place of the first: the dead record now stands between two live ones. */
  function WithHole(c: u64, d: u64): seq<DirEntry> {
    [Rec(d, 16, D), Rec(0, 16, B), Rec(c, 4000, C)]
  }

  lemma LetterLen()
    ensures RequiredLen(1) == 16 && RequiredLen(2) == 16
  {
  }

  /** The first record with room takes a new short name. */
  lemma PlacedFirst(p: seq<DirEntry>, e: DirEntry, q: seq<DirEntry>, recs: seq<DirEntry>, inode: u64, name: Name)
    requires 1 <= |name| <= 2 && Fits(e) && HasRoom(e, 16) && NoRoom(p, 16) && recs == p + [e] + q
    requires forall k :: 0 <= k < |recs| ==> Fits(recs[k])
    ensures InsertRecs(recs, inode, name, FILE_TYPE_FILE) == Some(p + Place(e, inode, name, FILE_TYPE_FILE) + q)
    ensures FirstRoom(recs, 16) == |p| && recs[..|p|] == p && recs[|p|] == e
  {
    hide Utf8, InsertRecs, Place, FirstRoom;
    LetterLen();
    FirstFit(p, e, q, inode, name, FILE_TYPE_FILE);
    FirstRoomAt(p, e, q, 16);
  }

  /** What entering `name` in block `b` gives. */
  function Put(b: Block, inode: u64, name: Name): Block
    requires |name| < 0x100
  {
    Or(PutFrom(b, 0, inode, name, FILE_TYPE_FILE), b)
  }

  /** What taking `name` out of it gives. */
  function Take(b: Block, name: Name): Block {
    Or(TakeFrom(b, 0, None, name), b)
  }

  /** Where there is room an entry goes in. */
  lemma PutThere(b: Block, recs: seq<DirEntry>, inode: u64, name: Name, k: nat)
    requires Walk(b, 0) == Ok(recs) && 1 <= |name| <= 2 && k < |recs| && HasRoom(recs[k], 16)
    ensures PutIn(b, Put(b, inode, name), recs, inode, name, FILE_TYPE_FILE)
  {
    hide Utf8, Walk, InsertRecs, PutAt, PutFrom, FirstRoom, HasRoom, Extent;
    LetterLen();
    PutWalked(b, inode, name, FILE_TYPE_FILE);
    assert HasRoom(recs[k], 16);
  }

  /** And a name that is there is taken out. */
  lemma TakenThere(b: Block, recs: seq<DirEntry>, name: Name)
    requires Walk(b, 0) == Ok(recs) && FindNamed(recs, name) < |recs|
    ensures TakenFrom(b, Take(b, name), recs, name)
  {
    hide Utf8, Walk, TakeAt, TakeFrom, FindNamed, TakenFrom;
    TakeWalked(b, name);
  }

  lemma FirstPage(a: u64)
    ensures Walk(NewPage(a, A, FILE_TYPE_FILE), 0) == Ok(OneRec(a)) && (a != 0 ==> HasRoom(OneRec(a)[0], 16))
  {
    hide Utf8, Walk, NewPage;
    LetterLen();
    NewPageWalk(a, A, FILE_TYPE_FILE);
  }

  lemma SecondPlaced(p: Block, a: u64, b: u64)
    requires Walk(p, 0) == Ok(OneRec(a)) && a != 0 && b != 0
    ensures Walk(Put(p, b, B), 0) == Ok(TwoRecs(a, b)) && HasRoom(TwoRecs(a, b)[1], 16)
  {
    hide Utf8, InsertRecs, Walk, PutAt, Extent, Put, FirstRoom;
    LetterLen();
    PutThere(p, OneRec(a), b, B, 0);
    PlacedFirst([], Rec(a, 4032, A), [], OneRec(a), b, B);
    assert [] + Place(Rec(a, 4032, A), b, B, FILE_TYPE_FILE) + [] == TwoRecs(a, b);
  }

  /** The third record is written at byte 32 and stays as it is from there on. */
  lemma ThirdPlaced(p: Block, a: u64, b: u64, c: u64)
    requires Walk(p, 0) == Ok(TwoRecs(a, b)) && a != 0 && b != 0
    ensures Walk(Put(p, c, C), 0) == Ok(ThreeRecs(a, b, c)) && Put(p, c, C)[32..] == EntryBytes(Rec(c, 4000, C))
  {
    hide Utf8, InsertRecs, FirstRoom, Walk, PutAt, Put, EntryBytes, Extent;
    LetterLen();
    assert HasRoom(TwoRecs(a, b)[1], 16);
    PutThere(p, TwoRecs(a, b), c, C, 1);
    PlacedFirst([Rec(a, 16, A)], Rec(b, 4016, B), [], TwoRecs(a, b), c, C);
    ExtentOne(Rec(a, 16, A));
    ThirdBytes(p, Put(p, c, C), b, c);
    assert [Rec(a, 16, A)] + Place(Rec(b, 4016, B), c, C, FILE_TYPE_FILE) + [] == ThreeRecs(a, b, c);
  }

  lemma ThirdBytes(p: Block, p': Block, b: u64, c: u64)
    requires b != 0 && Fits(Rec(b, 4016, B)) && HasRoom(Rec(b, 4016, B), 16)
    requires RequiredLen(1) == 16 && p' == PutAt(p, 16, Rec(b, 4016, B), c, C, FILE_TYPE_FILE)
    ensures p'[32..] == EntryBytes(Rec(c, 4000, C))
  {
    hide Utf8, EntryBytes, ToLe;
    LetterLen();
  }

  /** With no live record before them, `a` and then `b` go dead in place. */
  lemma FirstTaken(p: Block, a: u64, b: u64, c: u64)
    requires Walk(p, 0) == Ok(ThreeRecs(a, b, c)) && a != 0 && b != 0
    ensures Walk(Take(p, A), 0) == Ok(OneDead(b, c)) && Take(p, A)[32..] == p[32..]
  {
    hide Utf8, Walk, TakeAt, Take;
    var recs := ThreeRecs(a, b, c);
    assert recs[0].name == A && FindNamed(recs, A) == 0 && recs[..0] == [];
    TakenThere(p, recs, A);
    assert recs[..0] + [recs[0].(inode := 0)] + recs[1..] == OneDead(b, c);
    DeadBytes(p, Take(p, A), 0, recs[0]);
  }

  lemma SecondTaken(p: Block, b: u64, c: u64)
    requires Walk(p, 0) == Ok(OneDead(b, c)) && b != 0
    ensures Walk(Take(p, B), 0) == Ok(TwoDead(c)) && Take(p, B)[32..] == p[32..]
  {
    hide Utf8, Walk, TakeAt, Take;
    var recs := OneDead(b, c);
    assert recs[1].name == B && FindNamed(recs, B) == 1 && recs[..1] == [Rec(0, 16, A)];
    TakenThere(p, recs, B);
    ExtentOne(Rec(0, 16, A));
    assert recs[..1] + [recs[1].(inode := 0)] + recs[2..] == TwoDead(c);
    DeadBytes(p, Take(p, B), 16, recs[1]);
  }

  lemma DeadBytes(b: Block, b': Block, offset: nat, e: DirEntry)
    requires offset <= 16 && b' == TakeAt(b, offset, e, None)
    ensures b'[32..] == b[32..]
  {
    hide Utf8, ToLe;
  }

  lemma FourthPlaced(p: Block, c: u64, d: u64)
    requires Walk(p, 0) == Ok(TwoDead(c)) && d != 0
    ensures Walk(Put(p, d, D), 0) == Ok(WithHole(c, d)) && Put(p, d, D)[32..] == p[32..]
  {
    hide Utf8, InsertRecs, FirstRoom, Walk, PutAt, Put, Extent;
    LetterLen();
    var q := [Rec(0, 16, B), Rec(c, 4000, C)];
    assert HasRoom(TwoDead(c)[0], 16);
    PutThere(p, TwoDead(c), d, D, 0);
    PlacedFirst([], Rec(0, 16, A), q, TwoDead(c), d, D);
    NoExtent(TwoDead(c));
    assert [] + Place(Rec(0, 16, A), d, D, FILE_TYPE_FILE) + q == WithHole(c, d);
    FourthBytes(p, Put(p, d, D), d);
  }

  lemma NoExtent(recs: seq<DirEntry>)
    ensures Extent(recs[..0]) == 0
  {
  }

  lemma FourthBytes(b: Block, b': Block, d: u64)
    requires Fits(Rec(0, 16, A)) && HasRoom(Rec(0, 16, A), RequiredLen(1))
    requires b' == PutAt(b, 0, Rec(0, 16, A), d, D, FILE_TYPE_FILE)
    ensures b'[32..] == b[32..]
  {
    hide Utf8, EntryBytes;
    assert |EntryBytes(Rec(d, 16, D))| == 16;
  }

  /** Taking `c` out of a block in which a dead record stands before it makes the block unreadable:
      the walk goes on in the zero bytes behind its name. */
  lemma LastTaken(p: Block, c: u64, d: u64)
    requires Walk(p, 0) == Ok(WithHole(c, d)) && p[32..] == EntryBytes(Rec(c, 4000, C)) && c != 0 && d != 0
    ensures Walk(Take(p, C), 0) == Err(Manifest)
  {
    hide Utf8, Walk, Tiles, EntryBytes, TakeAt, Take, RemovedRec, Extent, LastLive;
    var recs := WithHole(c, d);
    WalkTiles(p, 0, recs);
    assert recs[0].name == D && recs[2].name == C && FindNamed(recs, C) == 2;
    TakenThere(p, recs, C);
    HoleShape(recs);
    EntryTail(Rec(c, 4000, C));
    forall i | 45 <= i < 4032
      ensures p[i] == 0
    {
      assert p[i] == p[32..][i - 32];
    }
    RemovalBreaks(p, Take(p, C), recs, 2);
  }

  lemma HoleShape(recs: seq<DirEntry>)
    requires |recs| == 3 && recs[0].Live() && !recs[1].Live() && recs[0].recLen == 16 && recs[1].recLen == 16
    ensures LastLive(recs[..2]) == 1 && Extent(recs[..1]) == 16 && Extent(recs[..2]) == 32
  {
    hide Utf8;
    assert recs[..2][..1] == recs[..1] && recs[..1] == [recs[0]];
    assert recs[..2][1..] == [recs[1]] && [recs[1]][1..] == [] && [recs[0]][1..] == [];
  }

  lemma EntryTail(e: DirEntry)
    requires Fits(e)
    ensures forall i :: 12 + |e.name| <= i < e.recLen ==> EntryBytes(e)[i] == 0
  {
    hide Utf8, ToLe;
  }

  // ---------------------------------------------------------------- in the last block of a directory

  /** Blocks without room for a short name, and the one after them that is looked at. */
  ghost predicate FullFront(front: seq<Block>, name: Name) {
    && 1 <= |name| <= 2 && RoomAt(front, 16) == |front| && HolderOf(front, name) == |front|
  }

  lemma PutLast(front: seq<Block>, p: Block, inode: u64, name: Name)
    requires FullFront(front, name) && !NoRoom(RecsOf(p), 16)
    ensures PagesAdded(front + [p], inode, name, FILE_TYPE_FILE) == front + [Put(p, inode, name)]
  {
    hide Utf8, RecsOf, NoRoom, Put, RoomAt, PutFrom, RequiredLen;
    LetterLen();
    RoomInLast(front, p);
    PutIsOr(p, inode, name);
    assert (front + [p])[|front| := Put(p, inode, name)] == front + [Put(p, inode, name)];
  }

  lemma RoomInLast(front: seq<Block>, p: Block)
    requires RoomAt(front, 16) == |front| && !NoRoom(RecsOf(p), 16)
    ensures RoomAt(front + [p], 16) == |front|
  {
    hide RecsOf, NoRoom, Utf8;
    var pages := front + [p];
    assert forall m :: 0 <= m < |front| ==> pages[m] == front[m];
    assert pages[|front|] == p;
  }

  lemma PutIsOr(p: Block, inode: u64, name: Name)
    requires |name| < 0x100
    ensures Put(p, inode, name) == Or(PutFrom(p, 0, inode, name, FILE_TYPE_FILE), p)
  {
  }

  lemma NewLast(front: seq<Block>, inode: u64, name: Name)
    requires FullFront(front, name)
    ensures PagesAdded(front, inode, name, FILE_TYPE_FILE) == front + [NewPage(inode, name, FILE_TYPE_FILE)]
  {
    hide Utf8, RecsOf, NoRoom;
    LetterLen();
  }

  lemma TakeLast(front: seq<Block>, p: Block, name: Name)
    requires FullFront(front, name) && FindNamed(RecsOf(p), name) < |RecsOf(p)|
    ensures PagesRemoved(front + [p], name) == front + [Take(p, name)]
  {
    hide Utf8, RecsOf, FindNamed;
    var pages := front + [p];
    assert forall m :: 0 <= m < |front| ==> pages[m] == front[m];
    assert pages[|front|] == p;
    assert HolderOf(pages, name) == |front|;
  }

  // ---------------------------------------------------------------- filling the root

  lemma TwoLetters(x: byte, y: byte)
    requires x < 0x80 && y < 0x80
    ensures Utf8([x, y])
  {
    assert [x, y][1..] == [y] && [y][1..] == [];
  }

  /** The names the root is filled with. */
  function FillName(k: nat): (name: Name)
    requires k < 250
    ensures |name| == 2 && name != DOTDOT
  {
    TwoLetters(97 + k / 16, 97 + k % 16);
    [97 + k / 16, 97 + k % 16]
  }

  lemma FillNames(k: nat, m: nat)
    requires k < 250 && m < 250 && FillName(k) == FillName(m)
    ensures k == m
  {
    assert FillName(k)[0] == FillName(m)[0] && FillName(k)[1] == FillName(m)[1];
  }

  /** Record `j` of a full first block. */
  function Nth(j: nat): (e: DirEntry)
    requires j < 252
    ensures e.recLen == 16 && e.Live() && 1 <= |e.name| <= 2
  {
    if j == 0 then DirEntry(1, 16, DOT, FILE_TYPE_DIR)
    else if j == 1 then DirEntry(1, 16, DOTDOT, FILE_TYPE_DIR)
    else DirEntry(j, 16, FillName(j - 2), FILE_TYPE_FILE)
  }

  function Firsts(n: nat): (recs: seq<DirEntry>)
    requires n <= 252
    ensures |recs| == n && forall j :: 0 <= j < n ==> recs[j] == Nth(j)
  {
    if n == 0 then [] else Firsts(n - 1) + [Nth(n - 1)]
  }

  /** The first block of the root with `i` files in it. */
  function Fill(i: nat): (recs: seq<DirEntry>)
    requires i <= 250
    ensures |recs| == i + 2
  {
    Firsts(i + 1) + [Nth(i + 1).(recLen := 4016 - 16 * i)]
  }

  lemma FillStart()
    ensures Fill(0) == InitialEntries(1, 1)
  {
    hide Utf8;
    assert Firsts(1) == [Nth(0)];
  }

  /** Names that are not in it. */
  lemma NotFilled(i: nat, name: Name)
    requires i <= 250 && name != DOT && name != DOTDOT && (forall k :: 0 <= k < i ==> name != FillName(k))
    ensures FindNamed(Fill(i), name) == |Fill(i)|
  {
    hide Utf8, FillName;
    assert forall k :: 0 <= k < |Fill(i)| ==> Fill(i)[k].name == Nth(k).name;
  }

  lemma FillStep(p: Block, i: nat)
    requires i < 250 && Walk(p, 0) == Ok(Fill(i))
    ensures Walk(Put(p, i + 2, FillName(i)), 0) == Ok(Fill(i + 1)) && !NoRoom(Fill(i), 16)
  {
    hide Utf8, Walk, InsertRecs, PutAt, Put, Extent, FirstRoom, FillName, Fill, Fits;
    LetterLen();
    var e := LastFill(i);
    LastFillIs(i);
    PutThere(p, Fill(i), i + 2, FillName(i), i + 1);
    assert Firsts(i + 1) + [e] + [] == Fill(i);
    FrontFull(i + 1);
    PlacedFirst(Firsts(i + 1), e, [], Fill(i), i + 2, FillName(i));
    FillPlaced(i);
  }

  /** The last record of the block. */
  function LastFill(i: nat): (e: DirEntry)
    requires i <= 250
  {
    Nth(i + 1).(recLen := 4016 - 16 * i)
  }

  lemma LastFillIs(i: nat)
    requires i <= 250
    ensures Fill(i) == Firsts(i + 1) + [LastFill(i)] && Fill(i)[i + 1] == LastFill(i)
    ensures LastFill(i).Live() && RequiredLen(|LastFill(i).name|) == 16
    ensures HasRoom(LastFill(i), 16) <==> i < 250
    ensures Fits(LastFill(i))
  {
    hide Utf8, FillName, Firsts, Nth, RequiredLen;
    LetterLen();
  }

  lemma FrontFull(n: nat)
    requires n <= 252
    ensures NoRoom(Firsts(n), 16)
  {
    LetterLen();
  }

  lemma FillPlaced(i: nat)
    requires i < 250
    ensures Fits(LastFill(i))
    ensures Firsts(i + 1) + Place(LastFill(i), i + 2, FillName(i), FILE_TYPE_FILE) + [] == Fill(i + 1)
  {
    hide Utf8, FillName, Firsts, RequiredLen, Fits, Nth;
    LastFillIs(i);
    OneMore(i);
    var e, next := LastFill(i), DirEntry(i + 2, 4000 - 16 * i, FillName(i), FILE_TYPE_FILE);
    assert Place(e, i + 2, FillName(i), FILE_TYPE_FILE) == [Nth(i + 1), next];
    assert Firsts(i + 1) + [Nth(i + 1), next] + [] == Firsts(i + 2) + [next];
  }

  lemma OneMore(i: nat)
    requires i < 250
    ensures Firsts(i + 2) == Firsts(i + 1) + [Nth(i + 1)] && LastFill(i).(recLen := 16) == Nth(i + 1)
    ensures LastFill(i + 1) == DirEntry(i + 2, 4000 - 16 * i, FillName(i), FILE_TYPE_FILE)
  {
    hide Utf8, FillName;
  }

  lemma FullAtLast()
    ensures NoRoom(Fill(250), 16)
  {
    hide FillName, Firsts, Fill;
    var e := LastFill(250);
    LastFillIs(250);
    FrontFull(251);
    forall k | 0 <= k < |Fill(250)|
      ensures !HasRoom(Fill(250)[k], 16)
    {
      if k < 251 {
        assert Fill(250)[k] == Firsts(251)[k];
      }
    }
  }

  // ---------------------------------------------------------------- the run

  /** Inodes 1 to `n` are in use and no others. */
  predicate InUse(v: Vol, n: nat) {
    && n < |v.table|
    && (forall j :: 0 < j <= n ==> v.table[j].Live())
    && forall j :: n < j < |v.table| ==> !v.table[j].Live()
  }

  /** The root has blocks `pages`, which can be read. */
  ghost predicate RootHas(g: Geometry, v: Vol, pages: seq<Block>) {
    && |v.table| == g.inodeCount + 1 && |v.data| == g.total
    && DirInode(v, 1) && Blocks(v, 1) && DirPages(v, 1) == pages
  }

  /** A file with one link. */
  predicate Plain(v: Vol, j: nat) {
    1 < j < |v.table| && v.table[j].Live() && !v.table[j].IsDir() && v.table[j].nlink == 1
  }

  /** Inode `n` is the first free one. */
  predicate FirstFree(v: Vol, n: nat) {
    1 < n < |v.table| && !v.table[n].Live() && forall j :: 0 < j < n ==> v.table[j].Live()
  }

  /** A name that no block holds can be used, if there is an inode and room. */
  lemma CanCreate(g: Geometry, v: Vol, pages: seq<Block>, name: Name, n: nat)
    requires RootHas(g, v, pages) && 1 <= |name| <= 2 && HolderOf(pages, name) == |pages| && FirstFree(v, n)
    requires RoomAt(pages, 16) < |pages|
    ensures CreateResult(v, g.dataStart, 1, name) == Ok(())
  {
    hide Utf8, Blocks, Page, T, LookupName, Names, DirRecs, AddResult, RecsOf, FindNamed, FreeData;
    LetterLen();
    HolderNames(pages, name);
    Renames.RecsArePages(v, 1);
    LookupNames(v, 1, name);
    assert UnusedInode(v, n);
    RoomSuffices(v, |FreeData(v, g.dataStart)|, 1, name);
  }

  /** So it can when there is a block to add and the root has one block so far. */
  lemma CanAppend(g: Geometry, v: Vol, p: Block, name: Name, n: nat)
    requires RootHas(g, v, [p]) && FullFront([p], name) && FirstFree(v, n) && FreeData(v, g.dataStart) != {}
    ensures CreateResult(v, g.dataStart, 1, name) == Ok(())
  {
    hide Utf8, Blocks, Page, T, LookupName, Names, DirRecs, RecsOf, FindNamed, FreeData, AddScan;
    LetterLen();
    HolderNames([p], name);
    Renames.RecsArePages(v, 1);
    LookupNames(v, 1, name);
    assert UnusedInode(v, n);
    BlocksSize(v, 1);
    AddScanTiled(v, 1, 0, 0, name, 0);
    AddScanRoom(v, 1, 0, 1, 0, name, 0);
    assert PathTo(SlotOf(1)) == {Direct(1)};
    SubsetSize(Lacking(v, 1, {Direct(1)}), {Direct(1)});
  }

  /** What a create leaves. */
  lemma CreatedRoot(g: Geometry, v: Vol, v': Vol, pages: seq<Block>, name: Name, c: nat, n: nat)
    requires RootHas(g, v, pages) && FirstFree(v, n) && |v'.data| == g.total
    requires CreateDone(v, v', g.dataStart, 1, name, c) && NewFile(v, v', c, 0x1A4)
    ensures c == n && |name| < 0x100 && n <= MAX_INO
    ensures RootHas(g, v', PagesAdded(pages, n, name, FILE_TYPE_FILE)) && Plain(v', n)
    ensures forall j :: 1 < j < |v.table| && j != n ==> v'.table[j] == v.table[j]
  {
    hide Utf8, Blocks, Page, T, LookupName, PagesAdded, Exact, Aligned, Shaped, Created, TreeOk, SameBlocks,
        DirPages, Kept;
    Renames.KeptLength(v, v', {c, 1});
  }

  /** A lookup of a name that only the second block can hold. */
  lemma FoundInSecond(g: Geometry, v: Vol, p: Block, b: Block, name: Name)
    requires RootHas(g, v, [p, b]) && FindNamed(RecsOf(p), name) == |RecsOf(p)|
    ensures var k := FindNamed(RecsOf(b), name);
            LookupName(v, 1, name) == Ok(if k < |RecsOf(b)| then Some(RecsOf(b)[k].inode as nat) else None)
    ensures name in Names(Recs(v, 1)) <==> FindNamed(RecsOf(b), name) < |RecsOf(b)|
  {
    hide Utf8, Blocks, Page, T, Entries, FindNamed, RecsOf, Walk, Names;
    BlocksSize(v, 1);
    EntriesOk(v, 1, 0);
    assert DirPages(v, 1)[0..] == [p, b] && [p, b][1..] == [b];
    DirRecsOne(b);
    assert DirRecs([p, b]) == RecsOf(p) + RecsOf(b);
    FindConcat(RecsOf(p), RecsOf(b), name);
    NamesFind(Recs(v, 1), name);
  }

  /** It is unlinked. */
  lemma CanUnlink(g: Geometry, v: Vol, p: Block, b: Block, name: Name)
    requires RootHas(g, v, [p, b]) && FindNamed(RecsOf(p), name) == |RecsOf(p)|
    requires var k := FindNamed(RecsOf(b), name); k < |RecsOf(b)| && Plain(v, RecsOf(b)[k].inode)
    ensures LookupName(v, 1, name) == Ok(Some(RecsOf(b)[FindNamed(RecsOf(b), name)].inode as nat))
    ensures UnlinkResult(v, 1, name) == Ok(())
  {
    hide Utf8, Blocks, Page, T, LookupName, FindNamed, RecsOf, Names, Recs, RemoveResult;
    FoundInSecond(g, v, p, b, name);
    RemoveResultTiled(v, 1, name);
  }

  /** What an unlink leaves. */
  lemma UnlinkedRoot(g: Geometry, v: Vol, v': Vol, p: Block, b: Block, name: Name, c: nat)
    requires RootHas(g, v, [p, b]) && FullFront([p], name) && FindNamed(RecsOf(b), name) < |RecsOf(b)|
    requires Plain(v, c) && UnlinkDone(v, v', g.dataStart, 1, name, c) && |v'.data| == g.total
    ensures |v'.table| == |v.table| && DirInode(v', 1) && DirPages(v', 1) == [p, Take(b, name)]
    ensures Blocks(v', 1) <==> Walk(p, 0).Ok? && Walk(Take(b, name), 0).Ok?
    ensures SameBlocks(v, v', 1) && v'.table[1].size == v.table[1].size
    ensures v'.table[c] == FREE_INODE && forall j :: 1 < j < |v.table| && j != c ==> v'.table[j] == v.table[j]
  {
    hide Utf8, Blocks, Page, T, LookupName, PagesRemoved, Exact, Aligned, Shaped, Unlinked, TreeOk, SameBlocks,
        DirPages, Kept, Walk, FindNamed, RecsOf, Owned, Take, SameButTimes, OlderPointers;
    Renames.KeptLength(v, v', {c, 1});
    TakeLast([p], b, name);
    assert [p] + [b] == [p, b] && [p] + [Take(b, name)] == [p, Take(b, name)];
    BothTiled(p, Take(b, name));
  }

  lemma BothTiled(p: Block, b: Block)
    ensures AllTiled([p, b]) <==> Walk(p, 0).Ok? && Walk(b, 0).Ok?
  {
    hide Walk;
    assert [p, b][0] == p && [p, b][1] == b;
  }

  /** A root whose second block cannot be walked cannot be looked up in. */
  lemma Unreadable(v: Vol, p: Block, b: Block, name: Name)
    requires DirInode(v, 1) && DirPages(v, 1) == [p, b] && v.table[1].size == 8064
    requires T(v, 1, SlotOf(0)) != 0 && T(v, 1, SlotOf(1)) != 0
    requires Walk(p, 0).Ok? && Walk(b, 0) == Err(Manifest)
    ensures LookupName(v, 1, name) == Err(Manifest)
  {
    hide Utf8, Page, T, FindNamed, Walk;
    assert DirPages(v, 1)[0] == Page(v, 1, 0) && DirPages(v, 1)[1] == Page(v, 1, 1);
    assert Entries(v, 1, 1, 2) == Err(Manifest);
  }

  // ---------------------------------------------------------------- its stages

  /** The root with `i` files in its first block. */
  ghost predicate Filling(g: Geometry, v: Vol, i: nat, p: Block) {
    && i <= 250 && RootHas(g, v, [p]) && Walk(p, 0) == Ok(Fill(i)) && InUse(v, i + 1)
    && FreeData(v, g.dataStart) != {} && g.inodeCount >= 255
  }

  lemma FillBegins(g: Geometry)
    requires g.Sound() && g.inodeCount >= 255 && g.dataStart + 2 <= g.total
    ensures Filling(g, FreshVol(g), 0, InitialBlock(1, 1))
  {
    hide Utf8, Blocks, T, InitialBlock, Exact, CreateResult, NoRoomIn, Walk, FreeData;
    var v := FreshVol(g);
    FailedRuns.FreshRoot(g);
    FailedRuns.FreshPage(g);
    InitialWalk(1, 1);
    FillStart();
    assert DirPages(v, 1) == [InitialBlock(1, 1)];
  }

  lemma OnePage(p: Block, i: nat, name: Name)
    requires i <= 250 && Walk(p, 0) == Ok(Fill(i)) && FindNamed(Fill(i), name) == |Fill(i)|
    ensures RecsOf(p) == Fill(i) && HolderOf([p], name) == 1
    ensures NoRoom(Fill(i), 16) ==> RoomAt([p], 16) == 1
    ensures !NoRoom(Fill(i), 16) ==> RoomAt([p], 16) == 0
  {
    hide Utf8, Walk, FindNamed, Fill, NoRoom;
    assert [p][0] == p;
  }

  lemma FillReady(g: Geometry, v: Vol, i: nat, p: Block)
    requires Filling(g, v, i, p) && i < 250
    ensures CreateResult(v, g.dataStart, 1, FillName(i)) == Ok(()) && !NoRoomIn(v, 1, 2)
  {
    hide Utf8, Walk, FindNamed, Fill, NoRoom, FillName, CreateResult, Blocks, FreeData;
    FillStep(p, i);
    FreshFillName(i);
    OnePage(p, i, FillName(i));
    CanCreate(g, v, [p], FillName(i), i + 2);
    LetterLen();
  }

  lemma FreshFillName(i: nat)
    requires i < 250
    ensures FindNamed(Fill(i), FillName(i)) == |Fill(i)|
  {
    hide Utf8, FindNamed, Fill, FillName;
    forall k | 0 <= k < i
      ensures FillName(i) != FillName(k)
    {
      if FillName(i) == FillName(k) {
        FillNames(i, k);
      }
    }
    assert |FillName(i)| == 2 && |DOT| == 1;
    NotFilled(i, FillName(i));
  }

  lemma FillDone(g: Geometry, v: Vol, v': Vol, i: nat, p: Block, c: nat)
    requires Filling(g, v, i, p) && i < 250 && |v'.data| == g.total && !NoRoomIn(v, 1, 2)
    requires CreateDone(v, v', g.dataStart, 1, FillName(i), c) && NewFile(v, v', c, 0x1A4)
    ensures Filling(g, v', i + 1, Put(p, i + 2, FillName(i)))
  {
    hide Utf8, Walk, FindNamed, Fill, NoRoom, FillName, NewFile, Blocks, FreeData, Put, NoRoomIn, Kept, Exact, Shaped,
        TreeOk, Aligned, Created, SameBlocks;
    CreatedRoot(g, v, v', [p], FillName(i), c, i + 2);
    FillStep(p, i);
    FreshFillName(i);
    OnePage(p, i, FillName(i));
    PutFirst(p, i + 2, FillName(i));
    SameFree(v, v', g.dataStart);
  }

  lemma PutFirst(p: Block, inode: u64, name: Name)
    requires 1 <= |name| <= 2 && RoomAt([p], 16) == 0
    ensures PagesAdded([p], inode, name, FILE_TYPE_FILE) == [Put(p, inode, name)]
  {
    hide Utf8, PutFrom, RecsOf, NoRoom, RoomAt, RequiredLen;
    LetterLen();
  }

  /** Create files in the root of a freshly formatted pool until its first block is full. */
  method FillRoot(fs: AlbumFs) returns (ghost p: Block)
    requires Formatted(fs, fs.geo) && fs.geo.inodeCount >= 255 && fs.geo.dataStart + 2 <= fs.geo.total
    modifies fs.store, fs.bitmap, fs`vol, fs`saved
    ensures fs.Valid() && Safe(fs.vol, fs.geo.dataStart) && Filling(fs.geo, fs.vol, 250, p)
  {
    hide AlbumFs.Valid, Safe, Filling, CreateDone, CreateResult, NewFile, AlbumFs.Durable, FreshVol, Utf8, FillName,
        CreateLeft, CreateTakes, Put, NoRoomIn, InitialBlock;
    FreshIsGood(fs.geo);
    FillBegins(fs.geo);
    p := InitialBlock(1, 1);
    for i := 0 to 250
      invariant fs.Valid() && Safe(fs.vol, fs.geo.dataStart) && Filling(fs.geo, fs.vol, i, p)
    {
      ghost var v := fs.vol;
      FillReady(fs.geo, v, i, p);
      var created := fs.Create(1, FillName(i), 0x1A4);
      FillDone(fs.geo, v, fs.vol, i, p, created.value);
      p := Put(p, i + 2, FillName(i));
    }
  }

  lemma Names4()
    ensures A != DOT && B != DOT && C != DOT && D != DOT && |A| == |B| == |C| == |D| == 1
    ensures !(A == B) && A != C && A != D && B != C && B != D && C != D
  {
    assert A[0] == 97 && B[0] == 98 && C[0] == 99 && D[0] == 100 && DOT[0] == 46;
  }

  /** The first block is full and has none of the four names. */
  lemma FrontOf(p: Block, name: Name)
    requires Walk(p, 0) == Ok(Fill(250)) && |name| == 1 && name != DOT
    ensures FullFront([p], name) && FindNamed(RecsOf(p), name) == |RecsOf(p)|
  {
    hide Utf8, Walk, FindNamed, Fill, NoRoom, FillName;
    assert |DOTDOT| == 2;
    NotFilled(250, name);
    OnePage(p, 250, name);
    FullAtLast();
  }

  lemma SecondPage(p: Block, b: Block, recs: seq<DirEntry>, name: Name)
    requires Walk(p, 0) == Ok(Fill(250)) && |name| == 1 && name != DOT
    requires Walk(b, 0) == Ok(recs) && !NoRoom(recs, 16) && FindNamed(recs, name) == |recs|
    ensures HolderOf([p, b], name) == 2 && RoomAt([p, b], 16) == 1
  {
    hide Utf8, Walk, FindNamed, Fill, NoRoom, FillName, RecsOf;
    FrontOf(p, name);
    RecsOfWalk(b, recs);
    RoomInLast([p], b);
    assert [p] + [b] == [p, b];
    assert [p, b][0] == [p][0] && [p, b][1] == b;
  }

  /** The root with its first block full and `b` after it, inodes up to `n` in use. */
  ghost predicate Second(g: Geometry, v: Vol, p: Block, b: Block) {
    && RootHas(g, v, [p, b]) && Walk(p, 0) == Ok(Fill(250)) && g.inodeCount >= 255
  }

  /** One more short name goes into that block. */
  lemma SecondReady(g: Geometry, v: Vol, p: Block, b: Block, recs: seq<DirEntry>, name: Name, n: nat)
    requires Second(g, v, p, b) && |name| == 1 && name != DOT && FirstFree(v, n)
    requires Walk(b, 0) == Ok(recs) && !NoRoom(recs, 16) && FindNamed(recs, name) == |recs|
    ensures CreateResult(v, g.dataStart, 1, name) == Ok(())
  {
    hide Utf8, Walk, FindNamed, Fill, NoRoom, FillName, RecsOf, CreateResult;
    SecondPage(p, b, recs, name);
    CanCreate(g, v, [p, b], name, n);
  }

  lemma SecondDone(g: Geometry, v: Vol, v': Vol, p: Block, b: Block, recs: seq<DirEntry>, name: Name, c: nat, n: nat)
    requires Second(g, v, p, b) && |name| == 1 && name != DOT && FirstFree(v, n) && |v'.data| == g.total
    requires Walk(b, 0) == Ok(recs) && !NoRoom(recs, 16)
    requires CreateDone(v, v', g.dataStart, 1, name, c) && NewFile(v, v', c, 0x1A4)
    ensures c == n <= MAX_INO && Second(g, v', p, Put(b, n, name)) && Plain(v', n)
    ensures InUse(v, n - 1) ==> InUse(v', n)
    ensures forall j :: 1 < j < |v.table| && j != n ==> v'.table[j] == v.table[j]
  {
    hide Utf8, Walk, FindNamed, Fill, NoRoom, FillName, RecsOf, CreateDone, NewFile, PagesAdded, Put;
    FrontOf(p, name);
    RecsOfWalk(b, recs);
    CreatedRoot(g, v, v', [p, b], name, c, n);
    PutLast([p], b, n, name);
    assert [p] + [b] == [p, b] && [p] + [Put(b, n, name)] == [p, Put(b, n, name)];
  }

  /** A name that is there is taken out of that block. */
  lemma TakeReady(g: Geometry, v: Vol, p: Block, b: Block, recs: seq<DirEntry>, name: Name, k: nat)
    requires Second(g, v, p, b) && |name| == 1 && name != DOT && Walk(b, 0) == Ok(recs)
    requires FindNamed(recs, name) == k < |recs| && Plain(v, recs[k].inode)
    ensures UnlinkResult(v, 1, name) == Ok(()) && LookupName(v, 1, name) == Ok(Some(recs[k].inode as nat))
  {
    hide Utf8, Walk, FindNamed, Fill, RecsOf, UnlinkResult, LookupName;
    FrontOf(p, name);
    RecsOfWalk(b, recs);
    CanUnlink(g, v, p, b, name);
  }

  lemma TakeDone(g: Geometry, v: Vol, v': Vol, p: Block, b: Block, recs: seq<DirEntry>, name: Name, c: nat)
    requires Second(g, v, p, b) && |name| == 1 && name != DOT && Walk(b, 0) == Ok(recs)
    requires FindNamed(recs, name) < |recs|
    requires Plain(v, c) && UnlinkDone(v, v', g.dataStart, 1, name, c) && |v'.data| == g.total
    ensures |v'.table| == |v.table| && v'.table[c] == FREE_INODE
    ensures forall j :: 1 < j < |v.table| && j != c ==> v'.table[j] == v.table[j]
    ensures InUse(v, 254) && c == 252 ==> FirstFree(v', 252)
    ensures FirstFree(v, 252) && c == 253 ==> FirstFree(v', 252)
    ensures Walk(Take(b, name), 0).Ok? ==> Second(g, v', p, Take(b, name))
    ensures Walk(Take(b, name), 0) == Err(Manifest) ==> forall nm: Name :: LookupName(v', 1, nm) == Err(Manifest)
  {
    hide Utf8, Walk, FindNamed, Fill, RecsOf, UnlinkDone, LookupName, Take, Blocks, SameBlocks;
    FrontOf(p, name);
    RecsOfWalk(b, recs);
    UnlinkedRoot(g, v, v', p, b, name, c);
    if Walk(Take(b, name), 0) == Err(Manifest) {
      BlocksSize(v, 1);
      BothMapped(v, v', p, b);
      forall nm: Name
        ensures LookupName(v', 1, nm) == Err(Manifest)
      {
        Unreadable(v', p, Take(b, name), nm);
      }
    }
  }

  lemma BothMapped(v: Vol, v': Vol, p: Block, b: Block)
    requires Blocks(v, 1) && DirPages(v, 1) == [p, b] && SameBlocks(v, v', 1)
    ensures T(v', 1, SlotOf(0)) != 0 && T(v', 1, SlotOf(1)) != 0
  {
    hide T, Page, Walk, Utf8, SlotOf;
    assert T(v, 1, SlotOf(0)) != 0 && T(v, 1, SlotOf(1)) != 0;
  }

  /** Where the names stand, and where there is room. */
  lemma Stages(a: u64, b: u64, c: u64, d: u64)
    requires a != 0 && b != 0 && c != 0 && d != 0
    ensures FindNamed(OneRec(a), B) == |OneRec(a)| && !NoRoom(OneRec(a), 16)
    ensures FindNamed(TwoRecs(a, b), C) == |TwoRecs(a, b)| && !NoRoom(TwoRecs(a, b), 16)
    ensures FindNamed(ThreeRecs(a, b, c), A) == 0 && FindNamed(OneDead(b, c), B) == 1
    ensures FindNamed(TwoDead(c), D) == |TwoDead(c)| && !NoRoom(TwoDead(c), 16)
    ensures FindNamed(WithHole(c, d), C) == 2
  {
    hide Utf8;
    Names4();
    LetterLen();
    assert HasRoom(OneRec(a)[0], 16) && HasRoom(TwoRecs(a, b)[1], 16) && HasRoom(TwoDead(c)[0], 16);
    assert OneRec(a)[0].name == A && TwoRecs(a, b)[0].name == A && TwoRecs(a, b)[1].name == B;
    assert ThreeRecs(a, b, c)[0].name == A && OneDead(b, c)[1].name == B;
    assert TwoDead(c)[2].name == C && WithHole(c, d)[0].name == D && WithHole(c, d)[2].name == C;
  }

  lemma FillFull(g: Geometry, v: Vol, p: Block)
    requires Filling(g, v, 250, p)
    ensures CreateResult(v, g.dataStart, 1, A) == Ok(()) && FirstFree(v, 252) && InUse(v, 251)
  {
    hide Utf8, Walk, FindNamed, Fill, RecsOf, CreateResult, Blocks, FreeData;
    Names4();
    FrontOf(p, A);
    CanAppend(g, v, p, A, 252);
  }

  /** The first of the three files brings a block of its own. */
  lemma FirstDone(g: Geometry, v: Vol, v': Vol, p: Block, c: nat)
    requires Filling(g, v, 250, p) && |v'.data| == g.total && CreateDone(v, v', g.dataStart, 1, A, c)
    requires NewFile(v, v', c, 0x1A4)
    ensures c == 252 && Second(g, v', p, NewPage(252, A, FILE_TYPE_FILE)) && Plain(v', 252) && InUse(v', 252)
    ensures Walk(NewPage(252, A, FILE_TYPE_FILE), 0) == Ok(OneRec(252))
  {
    hide Utf8, Walk, FindNamed, Fill, RecsOf, CreateDone, NewFile, PagesAdded, NewPage, Blocks, FreeData, CreateResult;
    Names4();
    FillFull(g, v, p);
    FrontOf(p, A);
    CreatedRoot(g, v, v', [p], A, c, 252);
    NewLast([p], 252, A);
    FirstPage(252);
    assert [p] + [NewPage(252, A, FILE_TYPE_FILE)] == [p, NewPage(252, A, FILE_TYPE_FILE)];
  }

  /** In the second block `a` is followed by `b` and `c`. */
  ghost predicate Three(g: Geometry, v: Vol, p: Block, q: Block) {
    && Second(g, v, p, q) && InUse(v, 254) && Plain(v, 252) && Plain(v, 253) && Plain(v, 254)
    && Walk(q, 0) == Ok(ThreeRecs(252, 253, 254)) && LastIs(q, 254)
  }

  /** And `d` by a dead record and `c`. */
  ghost predicate Hole(g: Geometry, v: Vol, p: Block, q: Block) {
    && Second(g, v, p, q) && Plain(v, 252) && Plain(v, 254)
    && Walk(q, 0) == Ok(WithHole(254, 252)) && LastIs(q, 254)
  }

  /** The bytes from 32 on are those of the record of `c`. */
  ghost predicate LastIs(q: Block, c: u64) {
    LetterLen();
    q[32..] == EntryBytes(Rec(c, 4000, C))
  }

  /** Create `a`, `b` and `c`, one after the other, in a second block of the root. */
  method ThreeInARow(fs: AlbumFs) returns (ghost p: Block, ghost q: Block)
    requires Formatted(fs, fs.geo) && fs.geo.inodeCount >= 255 && fs.geo.dataStart + 2 <= fs.geo.total
    modifies fs.store, fs.bitmap, fs`vol, fs`saved
    ensures fs.Valid() && Safe(fs.vol, fs.geo.dataStart)
    ensures Three(fs.geo, fs.vol, p, q)
  {
    hide AlbumFs.Valid, Safe, Filling, CreateDone, CreateResult, NewFile, AlbumFs.Durable, FreshVol, Utf8, CreateLeft,
        CreateTakes, Put, Second, Walk, NewPage, EntryBytes, OneRec, TwoRecs, ThreeRecs, FindNamed, NoRoom, A, B, C,
        InUse, FirstFree;
    Names4();
    Stages(252, 253, 254, 252);
    p := FillRoot(fs);
    ghost var v := fs.vol;
    FillFull(fs.geo, v, p);
    var created := fs.Create(1, A, 0x1A4);
    FirstDone(fs.geo, v, fs.vol, p, created.value);
    q := NewPage(252, A, FILE_TYPE_FILE);
    v := fs.vol;
    InUseFree(v, 252);
    SecondReady(fs.geo, v, p, q, OneRec(252), B, 253);
    created := fs.Create(1, B, 0x1A4);
    SecondDone(fs.geo, v, fs.vol, p, q, OneRec(252), B, created.value, 253);
    SecondPlaced(q, 252, 253);
    q := Put(q, 253, B);
    v := fs.vol;
    InUseFree(v, 253);
    SecondReady(fs.geo, v, p, q, TwoRecs(252, 253), C, 254);
    created := fs.Create(1, C, 0x1A4);
    SecondDone(fs.geo, v, fs.vol, p, q, TwoRecs(252, 253), C, created.value, 254);
    ThirdPlaced(q, 252, 253, 254);
    q := Put(q, 254, C);
  }

  lemma InUseFree(v: Vol, n: nat)
    requires InUse(v, n) && 0 < n && n + 1 < |v.table|
    ensures FirstFree(v, n + 1)
  {
  }

  /** Unlink `a` and `b`, and create `d`, which takes the place of `a`: a dead record now stands between
      two live ones. */
  method HoleArises(fs: AlbumFs) returns (ghost p: Block, ghost q: Block)
    requires Formatted(fs, fs.geo) && fs.geo.inodeCount >= 255 && fs.geo.dataStart + 2 <= fs.geo.total
    modifies fs.store, fs.bitmap, fs`vol, fs`saved
    ensures fs.Valid() && Safe(fs.vol, fs.geo.dataStart)
    ensures Hole(fs.geo, fs.vol, p, q)
  {
    hide AlbumFs.Valid, Safe, CreateDone, CreateResult, NewFile, AlbumFs.Durable, FreshVol, Utf8, CreateLeft,
        CreateTakes, Put, Take, Second, Walk, EntryBytes, FindNamed, NoRoom, A, B, C, D, UnlinkDone, UnlinkResult,
        LookupName;
    Names4();
    Stages(252, 253, 254, 252);
    p, q := ThreeInARow(fs);
    ghost var v := fs.vol;
    TakeReady(fs.geo, v, p, q, ThreeRecs(252, 253, 254), A, 0);
    var gone := fs.Unlink(1, A);
    TakeDone(fs.geo, v, fs.vol, p, q, ThreeRecs(252, 253, 254), A, 252);
    FirstTaken(q, 252, 253, 254);
    q := Take(q, A);
    v := fs.vol;
    TakeReady(fs.geo, v, p, q, OneDead(253, 254), B, 1);
    gone := fs.Unlink(1, B);
    TakeDone(fs.geo, v, fs.vol, p, q, OneDead(253, 254), B, 253);
    SecondTaken(q, 253, 254);
    q := Take(q, B);
    v := fs.vol;
    SecondReady(fs.geo, v, p, q, TwoDead(254), D, 252);
    var created := fs.Create(1, D, 0x1A4);
    SecondDone(fs.geo, v, fs.vol, p, q, TwoDead(254), D, created.value, 252);
    FourthPlaced(q, 254, 252);
    q := Put(q, 252, D);
  }

  /** The failing run: in a freshly formatted pool the root gets a second block with `a`, `b` and `c`;
      `a` and `b` are unlinked, `d` is created and `c` is unlinked.  Every call succeeds, and then no
      name can be looked up in the root any more. */
  method HoleBreaks(fs: AlbumFs) returns (before: Result<Option<nat>>, gone: Result<()>, after: Result<Option<nat>>)
    requires Formatted(fs, fs.geo) && fs.geo.inodeCount >= 255 && fs.geo.dataStart + 2 <= fs.geo.total
    modifies fs.store, fs.bitmap, fs`vol, fs`saved
    ensures fs.Valid() && Safe(fs.vol, fs.geo.dataStart)
    ensures before == Ok(Some(252)) && gone == Ok(()) && after == Err(Manifest)
    ensures forall name: Name :: LookupName(fs.vol, 1, name) == Err(Manifest)
  {
    hide AlbumFs.Valid, Safe, AlbumFs.Durable, FreshVol, Utf8, Take, Second, Walk, EntryBytes, FindNamed, NoRoom, A, B,
        C, D, UnlinkDone, UnlinkResult, LookupName;
    Names4();
    Stages(252, 253, 254, 252);
    ghost var p, q := HoleArises(fs);
    ghost var v := fs.vol;
    HoleNames(fs.geo, v, p, q);
    before := fs.Lookup(1, D);
    gone := fs.Unlink(1, C);
    TakeDone(fs.geo, v, fs.vol, p, q, WithHole(254, 252), C, 254);
    LastTaken(q, 254, 252);
    after := fs.Lookup(1, D);
  }

  lemma HoleNames(g: Geometry, v: Vol, p: Block, q: Block)
    requires Second(g, v, p, q) && Walk(q, 0) == Ok(WithHole(254, 252)) && Plain(v, 254)
    ensures LookupName(v, 1, D) == Ok(Some(252)) && LookupName(v, 1, C) == Ok(Some(254))
    ensures UnlinkResult(v, 1, C) == Ok(())
  {
    hide Utf8, Walk, FindNamed, RecsOf, LookupName, UnlinkResult, Fill;
    Names4();
    Stages(252, 253, 254, 252);
    TakeReady(g, v, p, q, WithHole(254, 252), C, 2);
    FrontOf(p, D);
    RecsOfWalk(q, WithHole(254, 252));
    FoundInSecond(g, v, p, q, D);
    assert WithHole(254, 252)[0].name == D;
    FoundFirst(WithHole(254, 252), D);
  }

  lemma FoundFirst(recs: seq<DirEntry>, name: Name)
    requires recs != [] && recs[0].Live() && recs[0].name == name
    ensures FindNamed(recs, name) == 0
  {
  }
}
