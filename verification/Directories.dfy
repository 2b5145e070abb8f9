/** Directories as lists of records over several blocks, and as maps from names to inodes. */
module Directories {
  import opened Bytes
  import opened Layout
  import opened Wrappers
  import opened Dirents
  import opened DirBlocks

  /** What a name stands for. */
  datatype Target = Target(ino: u64, fileType: byte)

  /** The names of a directory; of several live records with one name, lookups find the first. */
  function Names(recs: seq<DirEntry>): map<Name, Target> {
    if recs == [] then map[]
    else
      var rest := Names(recs[1..]);
      if recs[0].Live() then rest[recs[0].name := Target(recs[0].inode, recs[0].fileType)] else rest
  }

  /** No two live records have the same name. */
  predicate Unique(recs: seq<DirEntry>) {
    forall i, j :: 0 <= i < j < |recs| && recs[i].Live() && recs[j].Live() ==> recs[i].name != recs[j].name
  }

  lemma {:induction false} NamesConcat(p: seq<DirEntry>, q: seq<DirEntry>)
    ensures Names(p + q) == Names(q) + Names(p)
  {
    hide Utf8;
    if p == [] {
      assert p + q == q;
    } else {
      assert (p + q)[1..] == p[1..] + q;
      NamesConcat(p[1..], q);
    }
  }

  lemma {:induction false} NamesIn(recs: seq<DirEntry>, name: Name)
    ensures name in Names(recs) <==> exists k :: 0 <= k < |recs| && recs[k].Live() && recs[k].name == name
  {
    hide Utf8;
    if recs != [] {
      NamesIn(recs[1..], name);
      if exists k :: 0 <= k < |recs| && recs[k].Live() && recs[k].name == name {
        var k :| 0 <= k < |recs| && recs[k].Live() && recs[k].name == name;
        assert k > 0 ==> recs[1..][k - 1].Live() && recs[1..][k - 1].name == name;
      }
    }
  }

  /** The lookup of a name finds the first record that has it. */
  lemma {:induction false} NamesFind(recs: seq<DirEntry>, name: Name)
    ensures var k := FindNamed(recs, name);
            if k < |recs| then name in Names(recs) && Names(recs)[name] == Target(recs[k].inode, recs[k].fileType)
            else name !in Names(recs)
  {
    hide Utf8;
    if recs != [] {
      NamesFind(recs[1..], name);
    }
  }

  lemma NamesOne(e: DirEntry)
    ensures Names([e]) == if e.Live() then map[e.name := Target(e.inode, e.fileType)] else map[]
  {
    hide Utf8;
    assert [e][1..] == [];
  }

  /** Replacing record `e` by records with the same names changes no name. */
  lemma NamesMiddle(p: seq<DirEntry>, m: seq<DirEntry>, q: seq<DirEntry>)
    ensures Names(p + m + q) == Names(q) + Names(m) + Names(p)
  {
    NamesConcat(p + m, q);
    NamesConcat(p, m);
  }

  // ---------------------------------------------------------------- adding

  /** `recs'` is `recs` with one new live record for `name`, carved out of a record with room
      or standing in a block of its own at the end. */
  ghost predicate EntryAdded(recs: seq<DirEntry>, recs': seq<DirEntry>, ino: u64, name: Name, fileType: byte) {
    || recs' == recs + [DirEntry(ino, 4032, name, fileType)]
    || (exists p, e, q :: PlacedAt(recs, recs', p, e, q, ino, name, fileType))
  }

  ghost predicate PlacedAt(recs: seq<DirEntry>, recs': seq<DirEntry>, p: seq<DirEntry>, e: DirEntry,
      q: seq<DirEntry>, ino: u64, name: Name, fileType: byte) {
    && Fits(e) && HasRoom(e, RequiredLen(|name|))
    && recs == p + [e] + q && recs' == p + Place(e, ino, name, fileType) + q
  }

  /** Adding a fresh name adds exactly that name. */
  lemma AddedNames(recs: seq<DirEntry>, recs': seq<DirEntry>, ino: u64, name: Name, fileType: byte)
    requires EntryAdded(recs, recs', ino, name, fileType) && ino != 0 && name !in Names(recs)
    ensures Names(recs') == Names(recs)[name := Target(ino, fileType)]
    ensures Unique(recs) ==> Unique(recs')
  {
    hide Utf8, Names, Unique;
    if recs' == recs + [DirEntry(ino, 4032, name, fileType)] {
      AppendedNames(recs, DirEntry(ino, 4032, name, fileType));
    } else {
      var p, e, q :| PlacedAt(recs, recs', p, e, q, ino, name, fileType);
      PlacedNames(p, e, q, ino, name, fileType);
    }
  }

  lemma AppendedNames(recs: seq<DirEntry>, e: DirEntry)
    requires e.Live() && e.name !in Names(recs)
    ensures Names(recs + [e]) == Names(recs)[e.name := Target(e.inode, e.fileType)]
    ensures Unique(recs) ==> Unique(recs + [e])
  {
    hide Utf8, Names;
    NamesConcat(recs, [e]);
    NamesOne(e);
    NamesIn(recs, e.name);
  }

  lemma PlacedNames(p: seq<DirEntry>, e: DirEntry, q: seq<DirEntry>, ino: u64, name: Name, fileType: byte)
    requires Fits(e) && HasRoom(e, RequiredLen(|name|)) && ino != 0 && name !in Names(p + [e] + q)
    ensures Names(p + Place(e, ino, name, fileType) + q) == Names(p + [e] + q)[name := Target(ino, fileType)]
    ensures Unique(p + [e] + q) ==> Unique(p + Place(e, ino, name, fileType) + q)
  {
    hide Utf8, Names, Unique;
    var placed := Place(e, ino, name, fileType);
    NamesMiddle(p, [e], q);
    NamesMiddle(p, placed, q);
    NamesOne(e);
    var new_ := placed[|placed| - 1];
    NamesOne(new_);
    if e.Live() {
      assert placed == [placed[0]] + [placed[1]];
      NamesConcat([placed[0]], [placed[1]]);
      NamesOne(placed[0]);
    } else {
      assert placed == [new_];
    }
    if Unique(p + [e] + q) {
      PlacedUnique(p, e, q, ino, name, fileType);
    }
  }

  lemma PlacedUnique(p: seq<DirEntry>, e: DirEntry, q: seq<DirEntry>, ino: u64, name: Name, fileType: byte)
    requires Fits(e) && HasRoom(e, RequiredLen(|name|)) && ino != 0 && name !in Names(p + [e] + q)
    requires Unique(p + [e] + q)
    ensures Unique(p + Place(e, ino, name, fileType) + q)
  {
    hide Utf8, Names;
    NamesIn(p + [e] + q, name);
    var recs, recs' := p + [e] + q, p + Place(e, ino, name, fileType) + q;
    var at := if e.Live() then |p| + 1 else |p|;
    var shift := |recs'| - |recs|;
    forall k | 0 <= k < |recs'| && k != at && recs'[k].Live()
      ensures recs'[k].name == recs[if k < at then k else k - shift].name
      ensures recs[if k < at then k else k - shift].Live()
    {
    }
    forall i, j | 0 <= i < j < |recs'| && recs'[i].Live() && recs'[j].Live()
      ensures recs'[i].name != recs'[j].name
    {
    }
  }

  // ---------------------------------------------------------------- removing and redirecting

  /** `recs'` is `recs` with its first live record for `name` taken out: gone dead, or folded
      into the live record right before it. */
  ghost predicate EntryRemoved(recs: seq<DirEntry>, recs': seq<DirEntry>, name: Name) {
    exists p, e, q, m :: RemovedAt(recs, recs', p, e, q, m, name)
  }

  ghost predicate RemovedAt(recs: seq<DirEntry>, recs': seq<DirEntry>, p: seq<DirEntry>, e: DirEntry,
      q: seq<DirEntry>, m: seq<DirEntry>, name: Name) {
    && recs == p + [e] + q && e.Live() && e.name == name
    && recs' == m + q
    && Names(m) == Names(p)
    && (Unique(p) ==> Unique(m))
    && (forall k :: 0 <= k < |m| && m[k].Live() ==> exists i :: 0 <= i < |p| && p[i].Live() && p[i].name == m[k].name)
  }

  /** Removing a name from a directory without duplicates removes exactly that name. */
  lemma RemovedNames(recs: seq<DirEntry>, recs': seq<DirEntry>, name: Name)
    requires EntryRemoved(recs, recs', name) && Unique(recs)
    ensures name in Names(recs) && Names(recs') == Names(recs) - {name}
    ensures Unique(recs')
  {
    var p, e, q, m :| RemovedAt(recs, recs', p, e, q, m, name);
    RemovedNamesAt(recs, recs', p, e, q, m, name);
    RemovedUnique(recs, recs', p, e, q, m, name);
  }

  lemma RemovedNamesAt(recs: seq<DirEntry>, recs': seq<DirEntry>, p: seq<DirEntry>, e: DirEntry, q: seq<DirEntry>,
      m: seq<DirEntry>, name: Name)
    requires RemovedAt(recs, recs', p, e, q, m, name) && Unique(recs)
    ensures name in Names(recs) && Names(recs') == Names(recs) - {name}
  {
    hide Utf8, Names;
    NamesMiddle(p, [e], q);
    NamesOne(e);
    NamesConcat(m, q);
    NamesIn(p, name);
    NamesIn(q, name);
    assert recs[|p|] == e;
    assert forall k :: 0 <= k < |p| ==> recs[k] == p[k];
    assert forall k :: 0 <= k < |q| ==> recs[|p| + 1 + k] == q[k];
    assert name !in Names(p) && name !in Names(q);
  }

  lemma RemovedUnique(recs: seq<DirEntry>, recs': seq<DirEntry>, p: seq<DirEntry>, e: DirEntry, q: seq<DirEntry>,
      m: seq<DirEntry>, name: Name)
    requires RemovedAt(recs, recs', p, e, q, m, name) && Unique(recs)
    ensures Unique(recs')
  {
    hide Utf8, Names;
    assert forall k :: 0 <= k < |p| ==> recs[k] == p[k];
    assert forall k :: 0 <= k < |q| ==> recs[|p| + 1 + k] == q[k];
    assert Unique(p);
    forall i, j | 0 <= i < j < |recs'| && recs'[i].Live() && recs'[j].Live()
      ensures recs'[i].name != recs'[j].name
    {
      if i < |m| <= j {
        var k :| 0 <= k < |p| && p[k].Live() && p[k].name == m[i].name;
        assert recs[k] == p[k] && recs[|p| + 1 + (j - |m|)] == q[j - |m|] == recs'[j];
      } else if j < |m| {
        assert m[i] == recs'[i] && m[j] == recs'[j];
      } else {
        assert recs[|p| + 1 + (i - |m|)] == recs'[i] && recs[|p| + 1 + (j - |m|)] == recs'[j];
      }
    }
  }

  /** The victim goes dead. */
  lemma DeadRecord(p: seq<DirEntry>, e: DirEntry, q: seq<DirEntry>)
    requires e.Live()
    ensures EntryRemoved(p + [e] + q, p + [e.(inode := 0)] + q, e.name)
  {
    hide Utf8, Names, Unique;
    var m := p + [e.(inode := 0)];
    NamesConcat(p, [e.(inode := 0)]);
    NamesOne(e.(inode := 0));
    DeadUnique(p, e);
    assert RemovedAt(p + [e] + q, m + q, p, e, q, m, e.name);
  }

  lemma DeadUnique(p: seq<DirEntry>, e: DirEntry)
    ensures Unique(p) ==> Unique(p + [e.(inode := 0)])
  {
    hide Utf8;
  }

  /** The victim is folded into the live record before it. */
  lemma FoldedRecord(p: seq<DirEntry>, last: DirEntry, e: DirEntry, q: seq<DirEntry>, recLen: u16)
    requires e.Live() && last.Live()
    ensures EntryRemoved(p + [last] + [e] + q, p + [last.(recLen := recLen)] + q, e.name)
  {
    hide Utf8, Names, Unique;
    var m, p' := p + [last.(recLen := recLen)], p + [last];
    NamesConcat(p, [last]);
    NamesConcat(p, [last.(recLen := recLen)]);
    NamesOne(last);
    NamesOne(last.(recLen := recLen));
    FoldedUnique(p, last, recLen);
    assert forall k :: 0 <= k < |m| ==> m[k].name == p'[k].name && (m[k].Live() ==> p'[k].Live());
    assert RemovedAt(p' + [e] + q, m + q, p', e, q, m, e.name);
  }

  lemma FoldedUnique(p: seq<DirEntry>, last: DirEntry, recLen: u16)
    ensures Unique(p + [last]) ==> Unique(p + [last.(recLen := recLen)])
  {
    hide Utf8;
    var m, p' := p + [last.(recLen := recLen)], p + [last];
    assert forall k :: 0 <= k < |m| ==> m[k].name == p'[k].name && (m[k].Live() ==> p'[k].Live());
  }

  /** The records that are left when record `k`, with no dead one before it, is removed. */
  function Without(recs: seq<DirEntry>, k: nat): seq<DirEntry>
    requires k < |recs|
  {
    if LastLive(recs[..k]) == 0 then recs[..k] + [recs[k].(inode := 0)] + recs[k + 1..]
    else recs[..k - 1] + [Merged(recs, k)] + recs[k + 1..]
  }

  /** A block that passes the adjacency condition loses exactly the record asked for. */
  lemma RemovedRecs(b: Block, b': Block, recs: seq<DirEntry>, k: nat)
    requires k < |recs| && recs[k].Live() && Tiles(b, 0, recs, UB) && RemovedRec(b, b', recs, k) && Adjacent(recs, k)
    ensures Walk(b', 0) == Ok(Without(recs, k)) && EntryRemoved(recs, Without(recs, k), recs[k].name)
  {
    hide Utf8, Decode, EntryRemoved, Walk, Tiles;
    var p, e, q := recs[..k], recs[k], recs[k + 1..];
    assert recs == p + [e] + q;
    if LastLive(p) == 0 {
      DeadRecord(p, e, q);
    } else {
      MergedWalk(b, b', recs, k);
      var last := recs[k - 1];
      assert p == recs[..k - 1] + [last];
      FoldedRecord(recs[..k - 1], last, e, q, Merged(recs, k).recLen);
    }
  }

  lemma MergedWalk(b: Block, b': Block, recs: seq<DirEntry>, k: nat)
    requires k < |recs| && Tiles(b, 0, recs, UB) && RemovedRec(b, b', recs, k) && LastLive(recs[..k]) == k > 0
    ensures Walk(b', 0) == Ok(recs[..k - 1] + [Merged(recs, k)] + recs[k + 1..])
  {
    hide Utf8, Decode, Extent, LastLive, Walk;
    var p := recs[..k - 1] + [Merged(recs, k)];
    var at := Extent(recs[..k]) + recs[k].recLen;
    ExtentStep(recs, k);
    assert recs == recs[..k + 1] + recs[k + 1..];
    TilesConcat(b, 0, recs[..k + 1], recs[k + 1..], UB);
    forall i | at <= i < UB
      ensures b'[i] == b[i]
    {
      assert b'[i] == b'[at..][i - at] == b[at..][i - at] == b[i];
    }
    TilesFrame(b, b', at, recs[k + 1..], UB);
    TilesExtent(b', 0, p, at);
    TilesConcat(b', 0, p, recs[k + 1..], UB);
    WalkTiles(b', 0, p + recs[k + 1..]);
  }

  /** Pointing the first record for a name elsewhere changes what that name stands for. */
  lemma RedirectedNames(recs: seq<DirEntry>, k: nat, inode: u64)
    requires k < |recs| && recs[k].Live() && FindNamed(recs, recs[k].name) == k && inode != 0
    ensures var recs' := recs[..k] + [recs[k].(inode := inode)] + recs[k + 1..];
            && Names(recs') == Names(recs)[recs[k].name := Target(inode, recs[k].fileType)]
            && (Unique(recs) ==> Unique(recs'))
  {
    hide Utf8, Names, FindNamed, Unique;
    var p, e, q := recs[..k], recs[k], recs[k + 1..];
    assert recs == p + [e] + q;
    NamesMiddle(p, [e], q);
    NamesMiddle(p, [e.(inode := inode)], q);
    NamesOne(e);
    NamesOne(e.(inode := inode));
    NamesIn(p, e.name);
    assert forall m :: 0 <= m < k ==> p[m] == recs[m];
    RedirectedUnique(recs, k, inode);
  }

  lemma RedirectedUnique(recs: seq<DirEntry>, k: nat, inode: u64)
    requires k < |recs| && recs[k].Live()
    ensures Unique(recs) ==> Unique(recs[..k] + [recs[k].(inode := inode)] + recs[k + 1..])
  {
    hide Utf8;
    var recs' := recs[..k] + [recs[k].(inode := inode)] + recs[k + 1..];
    assert forall m :: 0 <= m < |recs| ==> recs'[m].name == recs[m].name && (recs'[m].Live() ==> recs[m].Live());
  }

  // ---------------------------------------------------------------- several blocks

  function RecsOf(b: Block): seq<DirEntry> {
    match Walk(b, 0)
    case Ok(recs) => recs
    case Err(_) => []
  }

  /** All records of a directory, block after block. */
  function DirRecs(pages: seq<Block>): seq<DirEntry> {
    if pages == [] then [] else RecsOf(pages[0]) + DirRecs(pages[1..])
  }

  lemma {:induction false} DirRecsConcat(p: seq<Block>, q: seq<Block>)
    ensures DirRecs(p + q) == DirRecs(p) + DirRecs(q)
  {
    hide Walk, Utf8, RecsOf;
    if p == [] {
      assert p + q == q;
    } else {
      assert (p + q)[1..] == p[1..] + q;
      DirRecsConcat(p[1..], q);
    }
  }

  lemma DirRecsAt(pages: seq<Block>, at: nat)
    requires at < |pages|
    ensures DirRecs(pages) == DirRecs(pages[..at]) + RecsOf(pages[at]) + DirRecs(pages[at + 1..])
  {
    hide Walk, Utf8, RecsOf, DirRecs;
    Around(pages, at);
    DirRecsConcat(pages[..at], [pages[at]] + pages[at + 1..]);
    DirRecsConcat([pages[at]], pages[at + 1..]);
    DirRecsOne(pages[at]);
    Associative(DirRecs(pages[..at]), RecsOf(pages[at]), DirRecs(pages[at + 1..]));
  }

  lemma DirRecsOne(b: Block)
    ensures DirRecs([b]) == RecsOf(b)
  {
    hide Walk, Utf8, RecsOf;
    assert [b][1..] == [];
  }

  lemma DirRecsUpdate(pages: seq<Block>, at: nat, b': Block)
    requires at < |pages|
    ensures DirRecs(pages[at := b']) == DirRecs(pages[..at]) + RecsOf(b') + DirRecs(pages[at + 1..])
  {
    hide Walk, Utf8, RecsOf, DirRecs;
    var pages' := pages[at := b'];
    DirRecsAt(pages', at);
    assert pages'[..at] == pages[..at] && pages'[at + 1..] == pages[at + 1..];
  }

  /** The block made for an entry no other block has room for. */
  function NewPage(ino: u64, name: Name, fileType: byte): Block
    requires |name| < 0x100
  {
    EntryBytes(DirEntry(ino, 4032, name, fileType))
  }

  lemma NewPageWalk(ino: u64, name: Name, fileType: byte)
    requires |name| < 0x100
    ensures Walk(NewPage(ino, name, fileType), 0) == Ok([DirEntry(ino, 4032, name, fileType)])
  {
    hide EntryBytes, Utf8, Decode;
    var e := DirEntry(ino, 4032, name, fileType);
    var b := NewPage(ino, name, fileType);
    assert Patch(b, 0, EntryBytes(e)) == b;
    DecodeWritten(b, 0, e);
    TilesOne(b, 0, e);
    WalkTiles(b, 0, [e]);
  }

  /** Every block is tiled by records. */
  ghost predicate AllTiled(pages: seq<Block>) {
    forall m :: 0 <= m < |pages| ==> Walk(pages[m], 0).Ok?
  }

  /** The first block with room for `needed` bytes, or past the end. */
  function RoomAt(pages: seq<Block>, needed: nat): (at: nat)
    ensures at <= |pages|
    ensures at < |pages| ==> !NoRoom(RecsOf(pages[at]), needed)
    ensures forall m :: 0 <= m < at ==> NoRoom(RecsOf(pages[m]), needed)
  {
    if pages == [] || !NoRoom(RecsOf(pages[0]), needed) then 0 else 1 + RoomAt(pages[1..], needed)
  }

  /** The first block that has a live record for `name`, or past the end. */
  function HolderOf(pages: seq<Block>, name: Name): (at: nat)
    ensures at <= |pages|
    ensures at < |pages| ==> FindNamed(RecsOf(pages[at]), name) < |RecsOf(pages[at])|
    ensures forall m :: 0 <= m < at ==> FindNamed(RecsOf(pages[m]), name) == |RecsOf(pages[m])|
  {
    if pages == [] || FindNamed(RecsOf(pages[0]), name) < |RecsOf(pages[0])| then 0
    else 1 + HolderOf(pages[1..], name)
  }

  function Or(r: Result<Option<Block>>, b: Block): Block {
    if r.Ok? && r.value.Some? then r.value.value else b
  }

  /** The blocks of a directory with one entry more: in the first block with room, or in a block
      of its own. */
  function PagesAdded(pages: seq<Block>, ino: u64, name: Name, fileType: byte): seq<Block>
    requires |name| < 0x100
  {
    var at := RoomAt(pages, RequiredLen(|name|));
    if at == |pages| then pages + [NewPage(ino, name, fileType)]
    else pages[at := Or(PutFrom(pages[at], 0, ino, name, fileType), pages[at])]
  }

  /** The blocks of a directory with one entry less: taken out of the first block that has it. */
  function PagesRemoved(pages: seq<Block>, name: Name): (r: seq<Block>)
    ensures |r| == |pages|
  {
    var at := HolderOf(pages, name);
    if at == |pages| then pages else pages[at := Or(TakeFrom(pages[at], 0, None, name), pages[at])]
  }

  /** The removal of `name` folds it into the record right before it, not across dead ones. */
  ghost predicate PagesRemovable(pages: seq<Block>, name: Name) {
    var at := HolderOf(pages, name);
    at < |pages| ==> Adjacent(RecsOf(pages[at]), FindNamed(RecsOf(pages[at]), name))
  }

  /** A removal changes the block that holds the name and no other. */
  lemma PagesRemovedAt(pages: seq<Block>, name: Name)
    requires AllTiled(pages) && HolderOf(pages, name) < |pages|
    ensures var at := HolderOf(pages, name);
            && PagesRemoved(pages, name) == pages[at := PagesRemoved(pages, name)[at]]
            && TakenFrom(pages[at], PagesRemoved(pages, name)[at], RecsOf(pages[at]), name)
  {
    hide Utf8, Walk, TakeFrom, TakenFrom, FindNamed;
    TakeWalked(pages[HolderOf(pages, name)], name);
  }

  /** An addition changes the first block with room and no other, or adds a block. */
  lemma PagesAddedAt(pages: seq<Block>, ino: u64, name: Name, fileType: byte)
    requires AllTiled(pages) && |name| < 0x100
    ensures var at := RoomAt(pages, RequiredLen(|name|));
            if at == |pages| then PagesAdded(pages, ino, name, fileType) == pages + [NewPage(ino, name, fileType)]
            else
              && PagesAdded(pages, ino, name, fileType) == pages[at := PagesAdded(pages, ino, name, fileType)[at]]
              && PutIn(pages[at], PagesAdded(pages, ino, name, fileType)[at], RecsOf(pages[at]), ino, name, fileType)
  {
    hide Utf8, Walk, PutFrom, PutIn, NoRoom, NewPage, RequiredLen;
    var at := RoomAt(pages, RequiredLen(|name|));
    if at < |pages| {
      PutWalked(pages[at], ino, name, fileType);
    }
  }

  /** An entry added to one block is added to the directory. */
  lemma AddedInContext(x: seq<DirEntry>, recs: seq<DirEntry>, recs': seq<DirEntry>, y: seq<DirEntry>,
      p: seq<DirEntry>, e: DirEntry, q: seq<DirEntry>, ino: u64, name: Name, fileType: byte)
    requires PlacedAt(recs, recs', p, e, q, ino, name, fileType)
    ensures EntryAdded(x + recs + y, x + recs' + y, ino, name, fileType)
  {
    hide Utf8, Fits, HasRoom;
    var placed := Place(e, ino, name, fileType);
    assert x + (p + [e] + q) + y == x + p + [e] + (q + y);
    assert x + (p + placed + q) + y == x + p + placed + (q + y);
    assert PlacedAt(x + recs + y, x + recs' + y, x + p, e, q + y, ino, name, fileType);
  }

  /** The list form of first fit puts the entry somewhere. */
  lemma {:induction false} InsertedSomewhere(recs: seq<DirEntry>, ino: u64, name: Name, fileType: byte)
    returns (p: seq<DirEntry>, e: DirEntry, q: seq<DirEntry>)
    requires forall k :: 0 <= k < |recs| ==> Fits(recs[k])
    requires InsertRecs(recs, ino, name, fileType).Some?
    ensures PlacedAt(recs, InsertRecs(recs, ino, name, fileType).value, p, e, q, ino, name, fileType)
  {
    hide Utf8, RequiredLen, HasRoom, Place;
    if HasRoom(recs[0], RequiredLen(|name|)) {
      p, e, q := [], recs[0], recs[1..];
      assert recs == [] + [e] + q;
    } else {
      p, e, q := InsertedSomewhere(recs[1..], ino, name, fileType);
      assert recs == [recs[0]] + recs[1..];
      assert [recs[0]] + (p + [e] + q) == [recs[0]] + p + [e] + q;
      var placed := Place(e, ino, name, fileType);
      assert [recs[0]] + (p + placed + q) == [recs[0]] + p + placed + q;
      p := [recs[0]] + p;
    }
  }

  /** An entry removed from the first block that has it is removed from the directory. */
  lemma RemovedInContext(x: seq<DirEntry>, recs: seq<DirEntry>, recs': seq<DirEntry>, y: seq<DirEntry>, name: Name)
    requires EntryRemoved(recs, recs', name)
    ensures EntryRemoved(x + recs + y, x + recs' + y, name)
  {
    hide Utf8, Names, Unique;
    var p: seq<DirEntry>, e: DirEntry, q: seq<DirEntry>, m: seq<DirEntry> :| RemovedAt(recs, recs', p, e, q, m, name);
    NamesConcat(x, p);
    NamesConcat(x, m);
    ContextUnique(x, p, m);
    assert x + (p + [e] + q) + y == x + p + [e] + (q + y);
    assert x + (m + q) + y == x + m + (q + y);
    forall k | 0 <= k < |x + m| && (x + m)[k].Live()
      ensures exists i :: 0 <= i < |x + p| && (x + p)[i].Live() && (x + p)[i].name == (x + m)[k].name
    {
      if k < |x| {
        assert (x + p)[k] == (x + m)[k];
      } else {
        var i :| 0 <= i < |p| && p[i].Live() && p[i].name == m[k - |x|].name;
        assert (x + p)[|x| + i] == p[i];
      }
    }
    assert RemovedAt(x + recs + y, x + recs' + y, x + p, e, q + y, x + m, name);
  }

  lemma ContextUnique(x: seq<DirEntry>, p: seq<DirEntry>, m: seq<DirEntry>)
    requires Unique(p) ==> Unique(m)
    requires forall k :: 0 <= k < |m| && m[k].Live() ==>
      exists i :: 0 <= i < |p| && p[i].Live() && p[i].name == m[k].name
    ensures Unique(x + p) ==> Unique(x + m)
  {
    hide Utf8, Names;
    if Unique(x + p) {
      assert forall k :: 0 <= k < |p| ==> (x + p)[|x| + k] == p[k];
      assert forall k :: 0 <= k < |x| ==> (x + p)[k] == x[k];
      assert Unique(p);
      forall i, j | 0 <= i < j < |x + m| && (x + m)[i].Live() && (x + m)[j].Live()
        ensures (x + m)[i].name != (x + m)[j].name
      {
        if i < |x| <= j {
          var k :| 0 <= k < |p| && p[k].Live() && p[k].name == m[j - |x|].name;
          assert (x + p)[i] == x[i] && (x + p)[|x| + k] == p[k];
        } else if j < |x| {
          assert (x + p)[i] == x[i] && (x + p)[j] == x[j];
        } else {
          assert (x + m)[i] == m[i - |x|] && (x + m)[j] == m[j - |x|];
        }
      }
    }
  }
}
