/** What the operations answer, case by case, said of the records, names and blocks of a volume
    rather than of the searches that find them. */
module Answers {
  import opened Bytes
  import opened Layout
  import opened Wrappers
  import opened Geometry
  import opened Inodes
  import opened Volume
  import opened Space
  import opened Files
  import opened FileOps
  import opened Dirents
  import opened DirBlocks
  import opened Directories
  import opened DirTree
  import opened Namespaces
  import opened FsTree
  import opened FsOps
  import opened Renames

  // ---------------------------------------------------------------- room for an entry

  /** The bytes of a record that its own entry leaves over. */
  function Spare(e: DirEntry): int {
    e.recLen - if e.inode == 0 then 0 else (12 + |e.name| + 3) / 4 * 4
  }

  /** One of the records has the bytes left over that an entry with a name of `len` bytes takes. */
  predicate Room(recs: seq<DirEntry>, len: nat) {
    exists k :: 0 <= k < |recs| && Spare(recs[k]) >= (12 + len + 3) / 4 * 4
  }

  lemma SpareIsRoom(e: DirEntry, len: nat)
    ensures HasRoom(e, RequiredLen(len)) <==> Spare(e) >= (12 + len + 3) / 4 * 4
  {
    hide Utf8;
  }

  lemma RoomIn(recs: seq<DirEntry>, len: nat)
    ensures Room(recs, len) <==> !NoRoom(recs, RequiredLen(len))
  {
    hide Utf8, RequiredLen, HasRoom, Spare;
    forall k | 0 <= k < |recs|
      ensures HasRoom(recs[k], RequiredLen(len)) <==> Spare(recs[k]) >= (12 + len + 3) / 4 * 4
    {
      SpareIsRoom(recs[k], len);
    }
  }

  lemma RoomConcat(p: seq<DirEntry>, q: seq<DirEntry>, len: nat)
    ensures Room(p + q, len) <==> Room(p, len) || Room(q, len)
  {
    hide Utf8, Spare;
    var recs := p + q;
    if Room(p, len) {
      var k :| 0 <= k < |p| && Spare(p[k]) >= (12 + len + 3) / 4 * 4;
      assert recs[k] == p[k];
    }
    if Room(q, len) {
      var k :| 0 <= k < |q| && Spare(q[k]) >= (12 + len + 3) / 4 * 4;
      assert recs[|p| + k] == q[k];
    }
  }

  /** A block has room exactly when one of its records has, whichever block it is in. */
  lemma {:induction false} RoomInPages(pages: seq<Block>, len: nat)
    ensures Room(DirRecs(pages), len) <==> RoomAt(pages, RequiredLen(len)) < |pages|
  {
    hide Utf8, Walk, RecsOf, Room, NoRoom, RequiredLen;
    if pages != [] {
      RoomIn(RecsOf(pages[0]), len);
      RoomInPages(pages[1..], len);
      RoomConcat(RecsOf(pages[0]), DirRecs(pages[1..]), len);
    } else {
      RoomIn([], len);
      assert NoRoom([], RequiredLen(len)) by {
        NothingNoRoom(RequiredLen(len));
      }
    }
  }

  lemma NothingNoRoom(needed: nat)
    ensures NoRoom([], needed)
  {
  }

  // ---------------------------------------------------------------- adding an entry

  /** In a directory that can be read: an entry goes in unless its name is too long, or no record
      has room and the directory cannot get another block, because a file cannot have more or
      because there are fewer free blocks than the way to that block lacks. */
  lemma AddAnswer(v: Vol, free: int, d: nat, name: Name)
    requires 0 < d && DirInode(v, d) && Blocks(v, d)
    ensures var n := v.table[d].size / 4032;
            AddResult(v, free, d, name) ==
              if |name| > 255 then Err(NoSpace)
              else if Room(Recs(v, d), |name|) then Ok(())
              else if n >= 12 + 504 + 504 * 504 then Err(BadBlock(n))
              else if |Lacking(v, d, PathTo(SlotOf(n)))| > free then Err(NoSpace)
              else Ok(())
  {
    hide T, Page, Utf8, Walk, RequiredLen, SlotOf, AddScan, PathTo, DirRecs, Room;
    if |name| <= 255 {
      AddScanTiled(v, d, 0, 0, name, 0);
      RoomInPages(DirPages(v, d), |name|);
    }
  }

  /** The records of an entry that goes into record `e`: behind a live one that keeps what its own
      entry takes, or instead of a dead one. */
  function Split(e: DirEntry, ino: u64, name: Name, fileType: byte): seq<DirEntry>
    requires Fits(e)
  {
    var own := (12 + |e.name| + 3) / 4 * 4;
    if e.inode != 0 then
      [DirEntry(e.inode, own, e.name, e.fileType), DirEntry(ino, e.recLen - own, name, fileType)]
    else [DirEntry(ino, e.recLen, name, fileType)]
  }

  /** What an addition leaves: the first record with room, wherever it is, has taken the entry in, and
      without any there is one more block that holds nothing else. */
  lemma AddedRecords(v: Vol, v': Vol, lo: nat, d: nat, ino: u64, name: Name, fileType: byte, p: seq<DirEntry>,
      e: DirEntry, q: seq<DirEntry>)
    requires Blocks(v, d) && DirAdded(v, v', lo, d, ino, name, fileType)
    ensures d < |v'.table| && Blocks(v', d)
    ensures !Room(Recs(v, d), |name|) ==> Recs(v', d) == Recs(v, d) + [DirEntry(ino, 4032, name, fileType)]
    ensures Recs(v, d) == p + [e] + q && !Room(p, |name|) && Room([e], |name|) ==>
      Fits(e) && Recs(v', d) == p + Split(e, ino, name, fileType) + q
  {
    hide T, Page, Utf8, Walk, RequiredLen, SlotOf, AddScan, DirRecs, Room, DirAdded, NewPage, PagesAdded, RecsOf;
    var pages := DirPages(v, d);
    AddedPages(v, v', lo, d, ino, name, fileType);
    AllTiledBlocks(v, d);
    RoomInPages(pages, |name|);
    if Room(Recs(v, d), |name|) {
      var p', e', q' := AddedAmong(pages, ino, name, fileType);
      if Recs(v, d) == p + [e] + q && !Room(p, |name|) && Room([e], |name|) {
        SameSplit(p, e, q, p', e', q', |name|);
      }
    } else {
      PagesAddedAt(pages, ino, name, fileType);
      NewPageRecs(ino, name, fileType);
      DirRecsConcat(pages, [NewPage(ino, name, fileType)]);
      DirRecsOne(NewPage(ino, name, fileType));
      if Recs(v, d) == p + [e] + q && !Room(p, |name|) && Room([e], |name|) {
        RoomConcat(p, [e], |name|);
        RoomConcat(p + [e], q, |name|);
      }
    }
  }

  /** The first record with room is one only. */
  lemma SameSplit(p: seq<DirEntry>, e: DirEntry, q: seq<DirEntry>, p': seq<DirEntry>, e': DirEntry, q': seq<DirEntry>,
      len: nat)
    requires p + [e] + q == p' + [e'] + q' && !Room(p, len) && !Room(p', len) && Room([e], len) && Room([e'], len)
    ensures p == p' && e == e' && q == q'
  {
    hide Utf8, Spare;
    var recs := p + [e] + q;
    assert recs[|p|] == e && recs[|p'|] == e';
    assert Spare([e][0]) >= (12 + len + 3) / 4 * 4 && Spare([e'][0]) >= (12 + len + 3) / 4 * 4;
    forall k | 0 <= k < |p|
      ensures Spare(recs[k]) < (12 + len + 3) / 4 * 4
    {
      assert recs[k] == p[k];
    }
    forall k | 0 <= k < |p'|
      ensures Spare(recs[k]) < (12 + len + 3) / 4 * 4
    {
      assert recs[k] == p'[k];
    }
    assert |p| == |p'|;
    assert p == recs[..|p|] == p' && q == recs[|p| + 1..] == q';
  }

  /** Where the entry went, among all records of the directory. */
  lemma AddedAmong(pages: seq<Block>, ino: u64, name: Name, fileType: byte)
      returns (p: seq<DirEntry>, e: DirEntry, q: seq<DirEntry>)
    requires AllTiled(pages) && |name| < 0x100 && Room(DirRecs(pages), |name|)
    ensures DirRecs(pages) == p + [e] + q && !Room(p, |name|) && Room([e], |name|) && Fits(e)
    ensures DirRecs(PagesAdded(pages, ino, name, fileType)) == p + Split(e, ino, name, fileType) + q
  {
    hide Utf8, Walk, RecsOf, DirRecs, Room, RequiredLen, NoRoom, PutIn, InsertRecs, PagesAdded, HasRoom, Place, Split,
        Fits;
    RoomInPages(pages, |name|);
    PagesAddedAt(pages, ino, name, fileType);
    var at, pages' := RoomAt(pages, RequiredLen(|name|)), PagesAdded(pages, ino, name, fileType);
    var recs := RecsOf(pages[at]);
    PutInRecs(pages[at], pages'[at], ino, name, fileType);
    RoomIn(recs, |name|);
    var k := FirstRoom(recs, RequiredLen(|name|));
    FirstOfMany(recs, |name|);
    e := recs[k];
    p, q := DirRecs(pages[..at]) + recs[..k], recs[k + 1..] + DirRecs(pages[at + 1..]);
    assert recs == recs[..k] + [e] + recs[k + 1..];
    FirstFit(recs[..k], e, recs[k + 1..], ino, name, fileType);
    PlaceIsSplit(e, ino, name, fileType);
    DirRecsAt(pages, at);
    DirRecsUpdate(pages, at, pages'[at]);
    RoomOne(e, |name|);
    RoomIn(recs[..k], |name|);
    RoomConcat(DirRecs(pages[..at]), recs[..k], |name|);
    FullBefore(pages, at, |name|);
    Regroup(DirRecs(pages[..at]), recs[..k], [e], recs[k + 1..], DirRecs(pages[at + 1..]));
    Regroup(DirRecs(pages[..at]), recs[..k], Split(e, ino, name, fileType), recs[k + 1..], DirRecs(pages[at + 1..]));
  }

  lemma Regroup(a: seq<DirEntry>, b: seq<DirEntry>, c: seq<DirEntry>, d: seq<DirEntry>, e: seq<DirEntry>)
    ensures a + (b + c + d) + e == (a + b) + c + (d + e)
  {
  }

  lemma FirstOfMany(recs: seq<DirEntry>, len: nat)
    requires !NoRoom(recs, RequiredLen(len))
    ensures FirstRoom(recs, RequiredLen(len)) < |recs|
  {
    hide Utf8, RequiredLen, HasRoom;
    var k := FirstRoom(recs, RequiredLen(len));
    assert recs[..|recs|] == recs;
  }

  lemma PlaceIsSplit(e: DirEntry, ino: u64, name: Name, fileType: byte)
    requires Fits(e)
    ensures Place(e, ino, name, fileType) == Split(e, ino, name, fileType)
  {
    hide Utf8;
  }

  lemma {:induction false} FullBefore(pages: seq<Block>, at: nat, len: nat)
    requires at <= RoomAt(pages, RequiredLen(len))
    ensures !Room(DirRecs(pages[..at]), len)
  {
    hide Utf8, Walk, RecsOf, DirRecs, Room, RequiredLen, NoRoom;
    RoomInPages(pages[..at], len);
    forall m | 0 <= m < at
      ensures NoRoom(RecsOf(pages[..at][m]), RequiredLen(len))
    {
      assert pages[..at][m] == pages[m];
    }
  }

  // ---------------------------------------------------------------- directories that cannot be read

  /** The search for room passes block `m` of inode `d`: it is mapped, records tile it, and none of
      them has room. */
  ghost predicate FullBlock(v: Vol, d: nat, m: nat, len: nat) {
    && m < 12 + 504 + 504 * 504 && T(v, d, SlotOf(m)) != 0
    && Walk(Page(v, d, m), 0).Ok? && !Room(RecsOf(Page(v, d, m)), len)
  }

  /** Block `m` of inode `d` is mapped, and `done` are the records before byte `at` of it. */
  ghost predicate Reached(v: Vol, d: nat, m: nat, done: seq<DirEntry>, at: nat) {
    && m < 12 + 504 + 504 * 504 && T(v, d, SlotOf(m)) != 0
    && at < 4032 && Tiles(Page(v, d, m), 0, done, at)
  }

  /** Records without room are passed. */
  lemma {:induction false} PutPasses(b: Block, from: nat, done: seq<DirEntry>, at: nat, inode: u64, name: Name,
      fileType: byte)
    requires |name| < 0x100 && Tiles(b, from, done, at) && !Room(done, |name|) && from <= UB
    ensures PutFrom(b, from, inode, name, fileType) == PutFrom(b, at, inode, name, fileType)
    decreases |done|
  {
    hide Utf8, Decode, RequiredLen, PutAt, HasRoom, Spare;
    if done != [] {
      assert done == [done[0]] + done[1..];
      RoomConcat([done[0]], done[1..], |name|);
      assert Spare([done[0]][0]) < (12 + |name| + 3) / 4 * 4;
      SpareIsRoom(done[0], |name|);
      RecordInside(b, from);
      PutPasses(b, from + done[0].recLen, done[1..], at, inode, name, fileType);
    }
  }

  lemma RecordInside(b: Block, from: nat)
    requires Decode(b, from).Ok?
    ensures from + 12 <= UB && from + Decode(b, from).value.recLen <= UB
  {
  }

  lemma {:induction false} ScanPasses(v: Vol, d: nat, from: nat, m: nat, end: nat, name: Name)
    requires |name| < 0x100 && from <= m <= end && forall k :: from <= k < m ==> FullBlock(v, d, k, |name|)
    ensures AddScan(v, d, from, end, 0, name, 0) == AddScan(v, d, m, end, 0, name, 0)
    decreases m - from
  {
    hide T, Page, Utf8, Walk, SlotOf, PutFrom, Room, RecsOf, RequiredLen, NoRoom;
    if from < m {
      assert FullBlock(v, d, from, |name|);
      PutWalked(Page(v, d, from), 0, name, 0);
      RoomIn(RecsOf(Page(v, d, from)), |name|);
      PutInRoom(Page(v, d, from), PutFrom(Page(v, d, from), 0, 0, name, 0), 0, name, 0);
      ScanPasses(v, d, from + 1, m, end, name);
    }
  }

  /** When the blocks before `m` are full, block `m` decides: one that cannot be mapped or is not
      mapped is an error, otherwise the records up to the first with room, or to the first that
      cannot be decoded. */
  lemma AddStops(v: Vol, free: int, d: nat, name: Name, m: nat, done: seq<DirEntry>, at: nat)
    requires 0 < d && DirInode(v, d) && |name| <= 255 && m * 4032 < v.table[d].size
    requires forall k :: 0 <= k < m ==> FullBlock(v, d, k, |name|)
    ensures m >= 12 + 504 + 504 * 504 ==> AddResult(v, free, d, name) == Err(BadBlock(m))
    ensures m < 12 + 504 + 504 * 504 && T(v, d, SlotOf(m)) == 0 ==> AddResult(v, free, d, name) == Err(Manifest)
    ensures Reached(v, d, m, done, at) && !Room(done, |name|) ==>
      match Decode(Page(v, d, m), at)
      case Err(_) => AddResult(v, free, d, name) == Err(Manifest)
      case Ok(e) => Room([e], |name|) ==> AddResult(v, free, d, name) == Ok(())
  {
    hide T, Page, Utf8, Walk, RequiredLen, SlotOf, PathTo, Room, PutFrom, Decode, HasRoom, PutAt;
    var n := DivCeil(v.table[d].size, 4032);
    ScanPasses(v, d, 0, m, n, name);
    var b := Page(v, d, m);
    if Reached(v, d, m, done, at) && !Room(done, |name|) {
      PutPasses(b, 0, done, at, 0, name, 0);
      PutStep(b, at, 0, name, 0);
      DecodeError(b, at);
      if Decode(b, at).Ok? {
        RoomOne(Decode(b, at).value, |name|);
      }
    }
  }

  lemma DecodeError(b: Block, at: nat)
    ensures Decode(b, at).Err? ==> Decode(b, at) == Err(Manifest)
  {
    hide Utf8;
  }

  lemma RoomOne(e: DirEntry, len: nat)
    ensures Room([e], len) <==> HasRoom(e, RequiredLen(len))
  {
    hide Utf8, HasRoom, RequiredLen, Spare;
    SpareIsRoom(e, len);
    assert [e][0] == e;
  }

  /** When all its blocks are full, a directory needs another one. */
  lemma AddGrows(v: Vol, free: int, d: nat, name: Name)
    requires 0 < d && DirInode(v, d) && |name| <= 255
    requires forall k: nat {:trigger FullBlock(v, d, k, |name|)} ::
      k * 4032 < v.table[d].size ==> FullBlock(v, d, k, |name|)
    ensures var n := DivCeil(v.table[d].size, 4032);
            AddResult(v, free, d, name) ==
              if n >= 12 + 504 + 504 * 504 then Err(BadBlock(n))
              else if |Lacking(v, d, PathTo(SlotOf(n)))| > free then Err(NoSpace)
              else Ok(())
  {
    hide T, Page, Utf8, Walk, RequiredLen, SlotOf, PathTo, FullBlock;
    var n := DivCeil(v.table[d].size, 4032);
    ScanPasses(v, d, 0, n, n, name);
  }

  // ---------------------------------------------------------------- removing and redirecting

  /** One of the records is live and called `name`. */
  predicate Called(recs: seq<DirEntry>, name: Name) {
    exists k :: 0 <= k < |recs| && recs[k].inode != 0 && recs[k].name == name
  }

  lemma CalledFound(recs: seq<DirEntry>, name: Name)
    ensures Called(recs, name) <==> FindNamed(recs, name) < |recs|
    ensures Called(recs, name) <==> name in Names(recs)
  {
    hide Utf8, Names, FindNamed;
    NamesFind(recs, name);
    if FindNamed(recs, name) < |recs| {
      assert recs[FindNamed(recs, name)].name == name;
    }
  }

  /** The search for a name passes block `m` of inode `d`: it is mapped, records tile it, and none
      of them is a live one with the name. */
  ghost predicate OtherBlock(v: Vol, d: nat, m: nat, name: Name) {
    && m < 12 + 504 + 504 * 504 && T(v, d, SlotOf(m)) != 0
    && Walk(Page(v, d, m), 0).Ok? && !Called(RecsOf(Page(v, d, m)), name)
  }

  lemma CalledRest(recs: seq<DirEntry>, name: Name)
    requires recs != [] && !Called(recs, name)
    ensures !(recs[0].Live() && recs[0].name == name) && !Called(recs[1..], name)
  {
    hide Utf8;
    forall k | 0 <= k < |recs[1..]|
      ensures !(recs[1..][k].inode != 0 && recs[1..][k].name == name)
    {
      assert recs[1..][k] == recs[k + 1];
    }
  }

  /** Records of other names are passed. */
  lemma {:induction false} TakePasses(b: Block, from: nat, previous: Option<nat>, done: seq<DirEntry>, at: nat,
      name: Name) returns (last: Option<nat>)
    requires Tiles(b, from, done, at) && !Called(done, name) && from <= UB
    requires previous.Some? ==> previous.value + 12 <= UB
    ensures last.Some? ==> last.value + 12 <= UB
    ensures TakeFrom(b, from, previous, name) == TakeFrom(b, at, last, name)
    decreases |done|
  {
    hide Utf8, Decode, TakeAt, Called;
    last := previous;
    if done != [] {
      CalledRest(done, name);
      RecordInside(b, from);
      last := TakePasses(b, from + done[0].recLen, if done[0].Live() then Some(from) else previous, done[1..], at,
          name);
    }
  }

  lemma {:induction false} TurnPasses(b: Block, from: nat, done: seq<DirEntry>, at: nat, name: Name, ino: u64)
    requires Tiles(b, from, done, at) && !Called(done, name) && from <= UB
    ensures TurnFrom(b, from, name, ino) == TurnFrom(b, at, name, ino)
    decreases |done|
  {
    hide Utf8, Decode, SetInode, Called;
    if done != [] {
      CalledRest(done, name);
      RecordInside(b, from);
      TurnPasses(b, from + done[0].recLen, done[1..], at, name, ino);
    }
  }

  lemma {:induction false} RemovePasses(v: Vol, d: nat, from: nat, m: nat, end: nat, name: Name)
    requires from <= m <= end && forall k :: from <= k < m ==> OtherBlock(v, d, k, name)
    ensures RemoveScan(v, d, from, end, name) == RemoveScan(v, d, m, end, name)
    decreases m - from
  {
    hide T, Page, Utf8, Walk, SlotOf, TakeFrom, Called, RecsOf, FindNamed, TakenFrom;
    if from < m {
      assert OtherBlock(v, d, from, name);
      TakeWalked(Page(v, d, from), name);
      TakenIfThere(Page(v, d, from), TakeFrom(Page(v, d, from), 0, None, name), name);
      CalledFound(RecsOf(Page(v, d, from)), name);
      RemovePasses(v, d, from + 1, m, end, name);
    }
  }

  /** When the blocks before `m` do not have the name, block `m` decides in the same way. */
  lemma RemoveStops(v: Vol, d: nat, name: Name, m: nat, done: seq<DirEntry>, at: nat)
    requires 0 < d && DirInode(v, d) && m * 4032 < v.table[d].size
    requires forall k :: 0 <= k < m ==> OtherBlock(v, d, k, name)
    ensures m >= 12 + 504 + 504 * 504 ==> RemoveResult(v, d, name) == Err(BadBlock(m))
    ensures m < 12 + 504 + 504 * 504 && T(v, d, SlotOf(m)) == 0 ==> RemoveResult(v, d, name) == Err(Manifest)
    ensures Reached(v, d, m, done, at) && !Called(done, name) ==>
      match Decode(Page(v, d, m), at)
      case Err(_) => RemoveResult(v, d, name) == Err(Manifest)
      case Ok(e) => e.inode != 0 && e.name == name ==> RemoveResult(v, d, name) == Ok(())
  {
    hide T, Page, Utf8, Walk, SlotOf, Called, TakeFrom, Decode, TakeAt;
    RemovePasses(v, d, 0, m, DivCeil(v.table[d].size, 4032), name);
    var b := Page(v, d, m);
    if Reached(v, d, m, done, at) && !Called(done, name) {
      var last := TakePasses(b, 0, None, done, at, name);
      TakeStep(b, at, last, name);
      DecodeError(b, at);
    }
  }

  lemma TakeStep(b: Block, at: nat, previous: Option<nat>, name: Name)
    requires at < UB && (previous.Some? ==> previous.value + 12 <= UB)
    ensures match Decode(b, at)
            case Err(e) => TakeFrom(b, at, previous, name) == Err(e)
            case Ok(e) => e.Live() && e.name == name ==>
              TakeFrom(b, at, previous, name).Ok? && TakeFrom(b, at, previous, name).value.Some?
  {
    hide Utf8, Decode, TakeAt;
  }

  /** A name that no block has is not found. */
  lemma RemoveMisses(v: Vol, d: nat, name: Name)
    requires 0 < d && DirInode(v, d)
    requires forall k: nat {:trigger OtherBlock(v, d, k, name)} ::
      k * 4032 < v.table[d].size ==> OtherBlock(v, d, k, name)
    ensures RemoveResult(v, d, name) == Err(NotFound)
  {
    hide OtherBlock, Utf8;
    var n := DivCeil(v.table[d].size, 4032);
    RemovePasses(v, d, 0, n, n, name);
  }

  /** What pointing `..` elsewhere comes to: it has to be in the first block, the records before it
      have to be readable, and the block has to be there. */
  lemma TurnAnswer(v: Vol, n: Inode, d: nat, ino: u64, done: seq<DirEntry>, at: nat)
    requires Tiles(Page(v, d, 0), 0, done, at) && !Called(done, [46, 46])
    ensures n.direct[0] == 0 ==> TurnResult(v, n, d, ino) == Err(Manifest)
    ensures n.direct[0] != 0 && at < 4032 ==>
      match Decode(Page(v, d, 0), at)
      case Err(_) => TurnResult(v, n, d, ino) == Err(Manifest)
      case Ok(e) => e.inode != 0 && e.name == [46, 46] ==> TurnResult(v, n, d, ino) == Ok(())
    ensures n.direct[0] != 0 && at >= 4032 ==> TurnResult(v, n, d, ino) == Err(Manifest)
  {
    hide T, Page, Utf8, Walk, Called, TurnFrom, Decode, SetInode;
    var b := Page(v, d, 0);
    TurnPasses(b, 0, done, at, DOTDOT, ino);
    TurnStep(b, at, ino);
    DecodeError(b, at);
  }

  lemma TurnStep(b: Block, at: nat, ino: u64)
    ensures at >= UB ==> TurnFrom(b, at, DOTDOT, ino) == Ok(None)
    ensures at < UB ==>
      match Decode(b, at)
      case Err(e) => TurnFrom(b, at, DOTDOT, ino) == Err(e)
      case Ok(e) => e.Live() && e.name == DOTDOT ==>
        TurnFrom(b, at, DOTDOT, ino).Ok? && TurnFrom(b, at, DOTDOT, ino).value.Some?
  {
    hide Utf8, Decode, SetInode;
  }

  /** What a removal does to the first record of the name in its block: with no live record before it,
      it goes dead where it stands; behind a live one, that gets its length. */
  lemma TakenRecords(b: Block, p: seq<DirEntry>, e: DirEntry, q: seq<DirEntry>, name: Name)
    requires Walk(b, 0) == Ok(p + [e] + q) && !Called(p, name) && e.inode != 0 && e.name == name
    ensures TakeFrom(b, 0, None, name).Ok? && TakeFrom(b, 0, None, name).value.Some?
    ensures (forall k :: 0 <= k < |p| ==> p[k].inode == 0) ==>
      Walk(TakeFrom(b, 0, None, name).value.value, 0) == Ok(p + [DirEntry(0, e.recLen, e.name, e.fileType)] + q)
    ensures p != [] && p[|p| - 1].inode != 0 ==>
      var last := p[|p| - 1];
      && last.recLen + e.recLen <= 4032
      && Walk(TakeFrom(b, 0, None, name).value.value, 0) ==
        Ok(p[..|p| - 1] + [DirEntry(last.inode, last.recLen + e.recLen, last.name, last.fileType)] + q)
  {
    hide Utf8, Decode, Walk, Tiles, TakeFrom, TakeAt, Called, FindNamed, RemovedRec, LastLive;
    var recs, k := p + [e] + q, |p|;
    TakeWalked(b, name);
    assert recs[k] == e && recs[..k] == p && recs[k + 1..] == q;
    FirstCalled(recs, name, k);
    WalkTiles(b, 0, recs);
    AfterTaking(b, TakeFrom(b, 0, None, name), recs, name);
    var b' := TakeFrom(b, 0, None, name).value.value;
    if p != [] && p[k - 1].inode != 0 {
      TakenFolded(b, b', p, e, q);
    }
    if forall m :: 0 <= m < |p| ==> p[m].inode == 0 {
      TakenDead(b, b', p, e, q);
    }
  }

  lemma TakenDead(b: Block, b': Block, p: seq<DirEntry>, e: DirEntry, q: seq<DirEntry>)
    requires Tiles(b, 0, p + [e] + q, UB) && RemovedRec(b, b', p + [e] + q, |p|) && e.inode != 0
    requires forall k :: 0 <= k < |p| ==> p[k].inode == 0
    ensures Walk(b', 0) == Ok(p + [DirEntry(0, e.recLen, e.name, e.fileType)] + q)
  {
    hide Utf8, Decode, Walk, Tiles, RemovedRec, LastLive;
    var recs, k := p + [e] + q, |p|;
    assert recs[k] == e && recs[..k] == p && recs[k + 1..] == q;
    NoneLive(p);
    RemovedRecs(b, b', recs, k);
    assert e.(inode := 0) == DirEntry(0, e.recLen, e.name, e.fileType);
  }

  lemma TakenFolded(b: Block, b': Block, p: seq<DirEntry>, e: DirEntry, q: seq<DirEntry>)
    requires Tiles(b, 0, p + [e] + q, UB) && RemovedRec(b, b', p + [e] + q, |p|) && e.inode != 0
    requires p != [] && p[|p| - 1].inode != 0
    ensures var last := p[|p| - 1];
            && last.recLen + e.recLen <= 4032
            && Walk(b', 0) ==
              Ok(p[..|p| - 1] + [DirEntry(last.inode, last.recLen + e.recLen, last.name, last.fileType)] + q)
  {
    hide Utf8, Decode, Walk, Tiles, RemovedRec, LastLive;
    var recs, k := p + [e] + q, |p|;
    assert recs[k] == e && recs[..k] == p && recs[k + 1..] == q;
    LastIsLive(p);
    RemovedRecs(b, b', recs, k);
    ExtentUpTo(b, recs, k, k);
    assert recs[..k - 1] == p[..k - 1] && recs[k - 1] == p[k - 1];
    assert Merged(recs, k) == p[k - 1].(recLen := p[k - 1].recLen + e.recLen);
  }

  lemma AfterTaking(b: Block, r: Result<Option<Block>>, recs: seq<DirEntry>, name: Name)
    requires Taken(b, r, name) && Walk(b, 0) == Ok(recs) && FindNamed(recs, name) < |recs|
    ensures r.Ok? && r.value.Some? && RemovedRec(b, r.value.value, recs, FindNamed(recs, name))
  {
    hide Utf8, Walk, FindNamed, RemovedRec, TakeAt;
  }

  lemma NoneLive(p: seq<DirEntry>)
    ensures (forall m :: 0 <= m < |p| ==> p[m].inode == 0) ==> LastLive(p) == 0
  {
    hide Utf8, LastLive;
    var n := LastLive(p);
  }

  lemma LastIsLive(p: seq<DirEntry>)
    requires p != [] && p[|p| - 1].inode != 0
    ensures LastLive(p) == |p|
  {
    hide Utf8;
  }

  // ---------------------------------------------------------------- looking up and listing

  /** Block `m` of inode `d` does not stop a reader: it is a hole, or records tile it. */
  ghost predicate ReadableBlock(v: Vol, d: nat, m: nat) {
    m < 12 + 504 + 504 * 504 && (T(v, d, SlotOf(m)) == 0 || Walk(Page(v, d, m), 0).Ok?)
  }

  /** The blocks of inode `d` below block `n`, a hole being a block of zeros. */
  function Pages(v: Vol, d: nat, n: nat): (pages: seq<Block>)
    ensures |pages| == n && forall m :: 0 <= m < n ==> pages[m] == Page(v, d, m)
  {
    seq(n, m => if 0 <= m then Page(v, d, m) else ZERO_BLOCK)
  }

  lemma HoleHoldsNothing(v: Vol, d: nat, m: nat)
    requires T(v, d, SlotOf(m)) == 0
    ensures RecsOf(Page(v, d, m)) == []
  {
    hide SlotOf, T, Utf8;
    ZeroUndecodable();
  }

  /** The records of a directory are those of its readable blocks, up to the first that is not. */
  lemma {:induction false} EntriesPass(v: Vol, d: nat, from: nat, m: nat, end: nat)
    requires from <= m <= end && forall k :: from <= k < m ==> ReadableBlock(v, d, k)
    ensures match Entries(v, d, m, end)
            case Err(e) => Entries(v, d, from, end) == Err(e)
            case Ok(rest) => Entries(v, d, from, end) == Ok(DirRecs(Pages(v, d, m)[from..]) + rest)
    decreases m - from
  {
    hide T, Page, Utf8, Walk, SlotOf, RecsOf;
    var pages := Pages(v, d, m)[from..];
    if from < m {
      assert ReadableBlock(v, d, from);
      EntriesPass(v, d, from + 1, m, end);
      assert pages[0] == Page(v, d, from) && pages[1..] == Pages(v, d, m)[from + 1..];
      var rest := DirRecs(pages[1..]);
      assert DirRecs(pages) == RecsOf(pages[0]) + rest;
      EntriesStep(v, d, from, end);
      match Entries(v, d, m, end) {
        case Ok(more) => Associative(RecsOf(pages[0]), rest, more);
        case Err(_) =>
      }
      if T(v, d, SlotOf(from)) == 0 {
        HoleHoldsNothing(v, d, from);
        assert [] + rest == rest;
      } else {
        RecsWalk(Page(v, d, from));
      }
    } else {
      assert pages == [];
      DirRecsNone(pages);
      match Entries(v, d, m, end) {
        case Ok(rest) => assert [] + rest == rest;
        case Err(_) =>
      }
    }
  }

  lemma EntriesStep(v: Vol, d: nat, from: nat, end: nat)
    requires from < end
    ensures from >= 12 + 504 + 504 * 504 ==> Entries(v, d, from, end) == Err(BadBlock(from))
    ensures from < 12 + 504 + 504 * 504 && T(v, d, SlotOf(from)) == 0 ==>
      Entries(v, d, from, end) == Entries(v, d, from + 1, end)
    ensures from < 12 + 504 + 504 * 504 && T(v, d, SlotOf(from)) != 0 ==>
      match Walk(Page(v, d, from), 0)
      case Err(e) => Entries(v, d, from, end) == Err(e)
      case Ok(recs) => Entries(v, d, from, end) == Before(recs, Entries(v, d, from + 1, end))
  {
    hide T, Page, Utf8, Walk, SlotOf;
  }

  /** A directory can be read when all its blocks can, and holds their records. */
  lemma EntriesAnswer(v: Vol, d: nat)
    requires d < |v.table|
    requires forall k: nat {:trigger ReadableBlock(v, d, k)} :: k * 4032 < v.table[d].size ==> ReadableBlock(v, d, k)
    ensures var n := DivCeil(v.table[d].size, 4032);
            Entries(v, d, 0, n) == Ok(DirRecs(Pages(v, d, n)))
  {
    hide T, Page, Utf8, Walk, SlotOf, RecsOf, ReadableBlock, DirRecs;
    var n := DivCeil(v.table[d].size, 4032);
    EntriesPass(v, d, 0, n, n);
    assert Pages(v, d, n)[0..] == Pages(v, d, n);
    assert DirRecs(Pages(v, d, n)) + [] == DirRecs(Pages(v, d, n));
  }

  /** Its first block that cannot be read is an error, of a lookup and of a listing alike. */
  lemma EntriesStop(v: Vol, d: nat, name: Name, m: nat)
    requires 0 < d && DirInode(v, d) && m * 4032 < v.table[d].size && !ReadableBlock(v, d, m)
    requires forall k :: 0 <= k < m ==> ReadableBlock(v, d, k)
    ensures var e := if m >= 12 + 504 + 504 * 504 then BadBlock(m) else Manifest;
            LookupName(v, d, name) == Err(e) && ListingOf(v, d) == Err(e)
  {
    hide T, Page, Utf8, Walk, SlotOf, RecsOf, DirRecs, Entries, FindNamed, Listing;
    var n := DivCeil(v.table[d].size, 4032);
    EntriesPass(v, d, 0, m, n);
    EntriesStep(v, d, m, n);
    WalkOutcome(Page(v, d, m), 0);
  }

  /** A lookup in a directory that can be read finds the inode of the first live record of the name. */
  lemma LookupAnswer(v: Vol, d: nat, name: Name)
    requires 0 < d && DirInode(v, d)
    requires forall k: nat {:trigger ReadableBlock(v, d, k)} :: k * 4032 < v.table[d].size ==> ReadableBlock(v, d, k)
    ensures var recs := DirRecs(Pages(v, d, DivCeil(v.table[d].size, 4032)));
            && (!Called(recs, name) ==> LookupName(v, d, name) == Ok(None))
            && forall k :: 0 <= k < |recs| && recs[k].inode != 0 && recs[k].name == name && !Called(recs[..k], name) ==>
              LookupName(v, d, name) == Ok(Some(recs[k].inode as nat))
  {
    hide T, Page, Utf8, Walk, SlotOf, RecsOf, DirRecs, Entries, FindNamed, Called, ReadableBlock;
    EntriesAnswer(v, d);
    var recs := DirRecs(Pages(v, d, DivCeil(v.table[d].size, 4032)));
    CalledFound(recs, name);
    forall k | 0 <= k < |recs| && recs[k].inode != 0 && recs[k].name == name && !Called(recs[..k], name)
      ensures FindNamed(recs, name) == k
    {
      FirstCalled(recs, name, k);
    }
  }

  lemma FirstCalled(recs: seq<DirEntry>, name: Name, k: nat)
    requires k < |recs| && recs[k].inode != 0 && recs[k].name == name && !Called(recs[..k], name)
    ensures FindNamed(recs, name) == k
  {
    hide Utf8, FindNamed;
    forall m | 0 <= m < k
      ensures !(recs[m].inode != 0 && recs[m].name == name)
    {
      assert recs[..k][m] == recs[m];
    }
  }

  /** A listing shows the live records of a directory that can be read. */
  lemma ListingAnswer(v: Vol, d: nat)
    requires 0 < d && DirInode(v, d)
    requires forall k: nat {:trigger ReadableBlock(v, d, k)} :: k * 4032 < v.table[d].size ==> ReadableBlock(v, d, k)
    ensures ListingOf(v, d) == Ok(Listing(DirRecs(Pages(v, d, DivCeil(v.table[d].size, 4032)))))
  {
    hide T, Page, Utf8, Walk, SlotOf, RecsOf, DirRecs, Entries, Listing, ReadableBlock;
    EntriesAnswer(v, d);
  }

  /** In a well-formed directory it shows each name with the inode and type it stands for, once. */
  lemma ListingExact(v: Vol, d: nat)
    requires 0 < d && DirInode(v, d) && DirOk(v, d)
    ensures ListingOf(v, d).Ok?
    ensures forall e: Listed :: e in ListingOf(v, d).value <==>
      e.name in Names(Recs(v, d)) && Names(Recs(v, d))[e.name] == Target(e.ino, e.fileType)
    ensures forall i, j :: 0 <= i < j < |ListingOf(v, d).value| ==>
      ListingOf(v, d).value[i].name != ListingOf(v, d).value[j].name
  {
    hide T, Page, Utf8, Walk, SlotOf, RecsOf, DirRecs, Entries, Listing, Names, Unique;
    EntriesOk(v, d, 0);
    assert DirPages(v, d)[0..] == DirPages(v, d);
    forall e: Listed
      ensures e in Listing(Recs(v, d)) <==>
        e.name in Names(Recs(v, d)) && Names(Recs(v, d))[e.name] == Target(e.ino, e.fileType)
    {
      ListingTargets(Recs(v, d), e);
    }
    forall i, j | 0 <= i < j < |Listing(Recs(v, d))|
      ensures Listing(Recs(v, d))[i].name != Listing(Recs(v, d))[j].name
    {
      ListedOnce(Recs(v, d), i, j);
    }
  }

  // ---------------------------------------------------------------- creating and removing

  /** Inode `c` is in use. */
  predicate InUse(v: Vol, c: nat) {
    0 < c < |v.table| && v.table[c].mode != 0
  }

  /** Only a directory can be looked into. */
  lemma NoDirectory(v: Vol, lo: nat, d: nat, name: Name)
    requires !InUse(v, d) || !v.table[d].IsDir()
    ensures var e := if InUse(v, d) then NotDir else NotFound;
            && LookupName(v, d, name) == Err(e) && ListingOf(v, d) == Err(e)
            && CreateResult(v, lo, d, name) == Err(e) && MkdirResult(v, lo, d, name) == Err(e)
            && UnlinkResult(v, d, name) == Err(e) && RmdirResult(v, d, name) == Err(e)
            && RemoveResult(v, d, name) == Err(e) && forall free: int :: AddResult(v, free, d, name) == Err(e)
  {
    hide T, Page, Utf8, Walk, SlotOf, Entries, AddScan, RemoveScan, PathTo;
  }

  /** Nor can one that cannot be read. */
  lemma Unreadable(v: Vol, lo: nat, d: nat, name: Name)
    requires LookupName(v, d, name).Err?
    ensures var e := LookupName(v, d, name).error;
            && CreateResult(v, lo, d, name) == Err(e) && MkdirResult(v, lo, d, name) == Err(e)
            && UnlinkResult(v, d, name) == Err(e) && RmdirResult(v, d, name) == Err(e)
  {
    hide LookupName, Utf8;
  }

  /** In a directory that can be read, a file can be created under a new name if an inode is free
      and the entry can be added. */
  lemma CreateAnswer(v: Vol, lo: nat, d: nat, name: Name)
    requires 0 < d && DirInode(v, d) && Blocks(v, d)
    ensures var n := v.table[d].size / 4032;
            CreateResult(v, lo, d, name) ==
              if Called(Recs(v, d), name) then Err(Exists)
              else if forall c :: 0 < c < |v.table| ==> v.table[c].mode != 0 then Err(NoSpace)
              else if |name| > 255 then Err(NoSpace)
              else if Room(Recs(v, d), |name|) then Ok(())
              else if n >= 12 + 504 + 504 * 504 then Err(BadBlock(n))
              else if |Lacking(v, d, PathTo(SlotOf(n)))| > |FreeData(v, lo)| then Err(NoSpace)
              else Ok(())
  {
    hide T, Page, Utf8, SlotOf, PathTo, DirRecs, Room, Called, AddResult, LookupName, Names, Blocks, Lacking;
    LookupNames(v, d, name);
    CalledFound(Recs(v, d), name);
    AddAnswer(v, |FreeData(v, lo)|, d, name);
    SomeUnused(v);
  }

  lemma SomeUnused(v: Vol)
    ensures (exists c :: UnusedInode(v, c)) <==> !forall c :: 0 < c < |v.table| ==> v.table[c].mode != 0
  {
    if c :| 0 < c < |v.table| && v.table[c].mode == 0 {
      assert UnusedInode(v, c);
    }
  }

  /** A directory takes one block for itself first. */
  lemma MkdirAnswer(v: Vol, lo: nat, d: nat, name: Name)
    requires 0 < d && DirInode(v, d) && Blocks(v, d)
    ensures var n := v.table[d].size / 4032;
            MkdirResult(v, lo, d, name) ==
              if Called(Recs(v, d), name) then Err(Exists)
              else if forall c :: 0 < c < |v.table| ==> v.table[c].mode != 0 then Err(NoSpace)
              else if FreeData(v, lo) == {} then Err(NoSpace)
              else if |name| > 255 then Err(NoSpace)
              else if Room(Recs(v, d), |name|) then Ok(())
              else if n >= 12 + 504 + 504 * 504 then Err(BadBlock(n))
              else if |Lacking(v, d, PathTo(SlotOf(n)))| + 1 > |FreeData(v, lo)| then Err(NoSpace)
              else Ok(())
  {
    hide T, Page, Utf8, SlotOf, PathTo, DirRecs, Room, Called, AddResult, LookupName, Names, Blocks, Lacking;
    LookupNames(v, d, name);
    CalledFound(Recs(v, d), name);
    AddAnswer(v, |FreeData(v, lo)| - 1, d, name);
    SomeUnused(v);
  }

  /** What a create costs that fails in a directory that can be read: nothing if the name is there or
      no inode is free, and otherwise, even for a name that is too long, the first free inode. */
  lemma CreateCost(v: Vol, v': Vol, lo: nat, d: nat, name: Name, e: FsError)
    requires 0 < d && DirInode(v, d) && Blocks(v, d)
    requires CreateLeft(v, v', lo, name, e, CreateTakes(v, d, name))
    ensures Called(Recs(v, d), name) ==> v' == v
    ensures (forall c :: 0 < c < |v.table| ==> v.table[c].mode != 0) ==> v' == v
    ensures !Called(Recs(v, d), name) && SomeFree(v) ==>
      exists c: nat :: FirstTaken(v, v', c)
  {
    hide T, Page, Utf8, LookupName, Blocks, Called, DirRecs, Names, Accounted;
    LookupNames(v, d, name);
    CalledFound(Recs(v, d), name);
    SomeUnused(v);
    Orphans(v, v');
  }

  /** A mkdir costs nothing either if no block is free. */
  lemma MkdirCost(v: Vol, v': Vol, lo: nat, d: nat, name: Name, e: FsError)
    requires 0 < d && DirInode(v, d) && Blocks(v, d)
    requires CreateLeft(v, v', lo, name, e, MkdirTakes(v, lo, d, name))
    ensures Called(Recs(v, d), name) || FreeData(v, lo) == {} ==> v' == v
    ensures (forall c :: 0 < c < |v.table| ==> v.table[c].mode != 0) ==> v' == v
    ensures !Called(Recs(v, d), name) && FreeData(v, lo) != {} && SomeFree(v) ==>
      exists c: nat :: FirstTaken(v, v', c)
  {
    hide T, Page, Utf8, LookupName, Blocks, Called, DirRecs, Names, Accounted;
    LookupNames(v, d, name);
    CalledFound(Recs(v, d), name);
    SomeUnused(v);
    Orphans(v, v');
  }

  predicate SomeFree(v: Vol) {
    exists c :: 0 < c < |v.table| && v.table[c].mode == 0
  }

  /** Inode `c`, the first free one, is in use now, and no other record has changed. */
  ghost predicate FirstTaken(v: Vol, v': Vol, c: nat) {
    && 0 < c < |v.table| == |v'.table| && v.table[c].mode == 0 && (forall j :: 0 < j < c ==> v.table[j].mode != 0)
    && v'.table[c].mode != 0 && v'.table == v.table[c := v'.table[c]]
  }

  lemma Orphans(v: Vol, v': Vol)
    ensures forall c: nat {:trigger Orphaned(v, v', c)} :: Orphaned(v, v', c) ==> FirstTaken(v, v', c)
  {
    hide T, Page;
  }

  /** In a directory that can be read, a name can be unlinked if it stands for a file. */
  lemma UnlinkAnswer(v: Vol, d: nat, name: Name)
    requires 0 < d && DirInode(v, d) && Blocks(v, d)
    ensures var names := Names(Recs(v, d));
            UnlinkResult(v, d, name) ==
              if name !in names || !InUse(v, names[name].ino) then Err(NotFound)
              else if v.table[names[name].ino].IsDir() then Err(IsDir)
              else Ok(())
  {
    hide T, Page, Utf8, DirRecs, RemoveResult, LookupName, Names, Blocks;
    LookupNames(v, d, name);
    RemoveResultTiled(v, d, name);
  }

  /** And it can be removed if it stands for a directory that holds no other names than `.` and
      `..`; one that contains itself is missed at the very end. */
  lemma RmdirAnswer(v: Vol, d: nat, name: Name)
    requires 0 < d && DirInode(v, d) && Blocks(v, d)
    requires name in Names(Recs(v, d)) && DirInode(v, Names(Recs(v, d))[name].ino) ==>
      Blocks(v, Names(Recs(v, d))[name].ino)
    ensures var names := Names(Recs(v, d));
            RmdirResult(v, d, name) ==
              if name !in names || !InUse(v, names[name].ino) then Err(NotFound)
              else if !v.table[names[name].ino].IsDir() then Err(NotDir)
              else if exists other :: other in Names(Recs(v, names[name].ino)) && other != [46] && other != [46, 46]
                then Err(NotEmpty)
              else if names[name].ino == d then Err(NotFound)
              else Ok(())
  {
    hide T, Page, Utf8, DirRecs, RemoveResult, LookupName, Names, Blocks, ListingOf, OnlyDots;
    LookupNames(v, d, name);
    RemoveResultTiled(v, d, name);
    var names := Names(Recs(v, d));
    if name in names && InUse(v, names[name].ino) && v.table[names[name].ino].IsDir() {
      var c := names[name].ino;
      ListingComplete(v, c, name);
      EmptyListing(v, c);
      OtherNames(Names(Recs(v, c)));
    }
  }

  /** A directory that contains itself and nothing else is gone by the time it is missed; any other
      rmdir that fails changes nothing. */
  lemma RmdirCost(v: Vol, v': Vol, lo: nat, d: nat, name: Name)
    requires 0 < d && DirInode(v, d) && Blocks(v, d) && RmdirLeft(v, v', lo, d, name)
    ensures var names := Names(Recs(v, d));
            if name in names && names[name].ino == d
              && !exists other :: other in names && other != [46] && other != [46, 46]
            then OthersKept(v, v', d) && d < |v'.table| && v'.table[d] == FREE_INODE
            else v' == v
  {
    hide T, Page, Utf8, DirRecs, RemoveResult, LookupName, Names, Blocks, ListingOf, OnlyDots, OthersKept, Accounted;
    LookupNames(v, d, name);
    RemoveResultTiled(v, d, name);
    ListingComplete(v, d, name);
    EmptyListing(v, d);
    OtherNames(Names(Recs(v, d)));
  }

  lemma OtherNames(names: map<Name, Directories.Target>)
    ensures Empty(names) <==> !exists other :: other in names && other != [46] && other != [46, 46]
  {
    hide Utf8;
  }

  /** A target that cannot be listed is not removed either. */
  lemma RmdirUnreadable(v: Vol, d: nat, name: Name)
    requires 0 < d && DirInode(v, d) && Blocks(v, d) && name in Names(Recs(v, d))
    requires DirInode(v, Names(Recs(v, d))[name].ino) && ListingOf(v, Names(Recs(v, d))[name].ino).Err?
    requires 0 < Names(Recs(v, d))[name].ino
    ensures RmdirResult(v, d, name) == Err(ListingOf(v, Names(Recs(v, d))[name].ino).error)
  {
    hide T, Page, Utf8, DirRecs, RemoveResult, LookupName, Names, Blocks, ListingOf, OnlyDots;
    LookupNames(v, d, name);
  }

  /** What creating and removing do to the names of a well-formed directory: a file is entered with
      type 1 and a directory with type 2, and a name that is not `.` or `..` is taken out. */
  lemma CreatedName(v: Vol, v': Vol, lo: nat, d: nat, name: Name, c: nat)
    requires CreateDone(v, v', lo, d, name, c) && Shaped(v)
    ensures name !in Names(Recs(v, d)) && Names(Recs(v', d)) == Names(Recs(v, d))[name := Directories.Target(c, 1)]
  {
    hide T, Page, Utf8, Exact, Names, Recs, Blocks, Kept, LookupName, TreeOk, Shaped, Aligned, PagesAdded;
    DirNodeOf(v, d);
    DirNodeOf(v', d);
    assert Ns(v')[d] == NodeOf(v', d) && Ns(v)[d] == NodeOf(v, d);
  }

  lemma MadeName(v: Vol, v': Vol, lo: nat, d: nat, name: Name, c: nat)
    requires MkdirDone(v, v', lo, d, name, c) && Shaped(v) && v.table[d].nlink < 0xFFFF_FFFF
    ensures d < |v'.table| && DirInode(v', d)
    ensures name !in Names(Recs(v, d)) && Names(Recs(v', d)) == Names(Recs(v, d))[name := Directories.Target(c, 2)]
    ensures c < |v'.table| && DirInode(v', c)
    ensures Names(Recs(v', c)) == map[[46] := Directories.Target(c, 2), [46, 46] := Directories.Target(d, 2)]
  {
    hide T, Page, Utf8, Exact, Names, Recs, Blocks, Kept, LookupName, TreeOk, Shaped, Aligned, InitialBlock;
    DirNodeOf(v, d);
    assert Ns(v')[d].Dir?;
    DirNodeOf(v', d);
    DirNodeOf(v', c);
    assert Ns(v')[d] == NodeOf(v', d) && Ns(v)[d] == NodeOf(v, d) && Ns(v')[c] == NodeOf(v', c);
  }

  lemma UnlinkedName(v: Vol, v': Vol, lo: nat, d: nat, name: Name, c: nat)
    requires UnlinkDone(v, v', lo, d, name, c) && Shaped(v) && Removable(v, d, name) && v.table[c].nlink <= 1
    requires name != [46] && name != [46, 46]
    ensures name in Names(Recs(v, d)) && Names(Recs(v', d)) == Names(Recs(v, d)) - {name}
  {
    hide T, Page, Utf8, Exact, Names, Recs, Blocks, Kept, LookupName, TreeOk, Shaped, Aligned, Removable, PagesRemoved,
        SameBlocks, Owned, AllTiled;
    DirNodeOf(v, d);
    DirNodeOf(v', d);
    assert Ns(v')[d] == NodeOf(v', d) && Ns(v)[d] == NodeOf(v, d);
  }

  lemma RmdirName(v: Vol, v': Vol, lo: nat, d: nat, name: Name, c: nat)
    requires RmdirDone(v, v', lo, d, name, c) && Shaped(v) && Removable(v, d, name) && v.table[d].nlink > 0
    requires name != [46] && name != [46, 46]
    ensures name in Names(Recs(v, d)) && Names(Recs(v', d)) == Names(Recs(v, d)) - {name}
  {
    hide T, Page, Utf8, Exact, Names, Recs, Blocks, Kept, LookupName, TreeOk, Shaped, Aligned, Removable, PagesRemoved,
        Owned, Empty;
    DirNodeOf(v, d);
    DirNodeOf(v', d);
    assert Ns(v')[d] == NodeOf(v', d) && Ns(v)[d] == NodeOf(v, d);
  }

  // ---------------------------------------------------------------- renaming

  /** Two directories that can be read. */
  ghost predicate BothReadable(v: Vol, d: nat, d': nat) {
    0 < d && DirInode(v, d) && Blocks(v, d) && 0 < d' && DirInode(v, d') && Blocks(v, d')
  }

  /** Why a rename between directories that can be read is refused before anything is changed: the
      name is not there, or one of the names stands for nothing, or a directory is to replace a
      file or a file a directory, or the target cannot be removed.  Otherwise it is the move that
      has stopped. */
  lemma RenameRefusals(v: Vol, mid: Vol, v': Vol, lo: nat, d: nat, name: Name, d': nat, name': Name, e: FsError)
    requires RenameRefused(v, mid, v', lo, d, name, d', name', e) && BothReadable(v, d, d')
    ensures var (a, b) := (Names(Recs(v, d)), Names(Recs(v, d')));
            if name !in a || !InUse(v, a[name].ino) then e == NotFound && v' == v
            else
              var c := a[name].ino;
              if name' !in b then mid == v && MoveStopped(v, v', lo, d, name, d', name', c, v.table[c], e)
              else
                var t := b[name'].ino;
                if !InUse(v, t) then e == NotFound && v' == v
                else if v.table[c].IsDir() && !v.table[t].IsDir() then e == NotDir && v' == v
                else if !v.table[c].IsDir() && v.table[t].IsDir() then e == IsDir && v' == v
                else if v.table[c].IsDir() && RmdirResult(v, d', name').Err? then
                  e == RmdirResult(v, d', name').error && mid == v && (t != d' ==> v' == v)
                else c < |mid.table| && MoveStopped(mid, v', lo, d, name, d', name', c, v.table[c], e)
  {
    hide T, Page, Utf8, DirRecs, RemoveResult, LookupName, Names, Blocks, MoveStopped, RmdirResult, UnlinkResult,
        TargetReplaced;
    LookupNames(v, d, name);
    LookupNames(v, d', name');
    UnlinkAnswer(v, d', name');
  }

  /** What a rename that succeeds has found: the old name stands for something, and the new one for
      nothing, for the same inode, or for something of the same kind. */
  lemma RenameFound(v: Vol, mid: Vol, v': Vol, lo: nat, d: nat, name: Name, d': nat, name': Name)
    requires RenameDone(v, mid, v', lo, d, name, d', name') && BothReadable(v, d, d') && (d != d' || name != name')
    ensures var (a, b) := (Names(Recs(v, d)), Names(Recs(v, d')));
            && name in a && InUse(v, a[name].ino)
            && (name' in b && b[name'].ino == a[name].ino ==> v' == v)
            && (name' in b && b[name'].ino != a[name].ino ==>
              && InUse(v, b[name'].ino) && v.table[b[name'].ino].IsDir() == v.table[a[name].ino].IsDir())
            && (name' !in b ==> mid == v)
  {
    hide T, Page, Utf8, DirRecs, RemoveResult, LookupName, Names, Blocks, Carried, UnlinkDone, RmdirDone;
    LookupNames(v, d, name);
    LookupNames(v, d', name');
    if LookupName(v, d', name') != LookupName(v, d, name) && name' in Names(Recs(v, d')) {
      ReplacedKind(v, mid, lo, d', name', Names(Recs(v, d))[name].ino);
    }
  }

  /** A move that stops ends with the error of the entry that could not be added; once it is there,
      with that of the one that could not be taken out; once it is gone, with that of `..`. */
  lemma MoveErrors(v: Vol, v': Vol, lo: nat, d: nat, name: Name, d': nat, name': Name, c: nat, source: Inode,
      e: FsError)
    requires c < |v.table| && MoveStopped(v, v', lo, d, name, d', name', c, source, e)
    ensures AddResult(v, |FreeData(v, lo)|, d', name').Err? ==>
      AddResult(v, |FreeData(v, lo)|, d', name') == Err(e) && Unseen(v, v', lo)
    ensures AddResult(v, |FreeData(v, lo)|, d', name').Ok? ==>
      c <= MAX_INO && exists v2 ::
        && DirAdded(v, v2, lo, d', c, name', if v.table[c].IsDir() then 2 else 1)
        && (RemoveResult(v2, d, name).Err? ==> RemoveResult(v2, d, name) == Err(e) && v' == v2)
        && (RemoveResult(v2, d, name).Ok? ==>
          && source.IsDir() && d != d' && d' <= MAX_INO
          && DirRemoved(v2, v', lo, d, name) && TurnResult(v', source, c, d') == Err(e))
  {
    hide T, Page, Utf8, AddResult, DirAdded, RemoveResult, DirRemoved, TurnResult, Unseen, EntryLeft;
    if AddResult(v, |FreeData(v, lo)|, d', name').Err? {
      LeftUnseen(v, v', lo, d', name', e);
    }
  }

  lemma ReplacedKind(v: Vol, mid: Vol, lo: nat, d': nat, name': Name, c: nat)
    requires c < |v.table| && TargetReplaced(v, mid, lo, d', name', c)
    ensures match LookupName(v, d', name')
            case Ok(Some(t)) => InUse(v, t) && v.table[t].IsDir() == v.table[c].IsDir()
            case _ => true
  {
    hide T, Page, Utf8, DirRecs, LookupName, Names, Blocks, Exact, Shaped, TreeOk, Aligned;
  }

  // ---------------------------------------------------------------- files

  /** Nothing but a file can be read, written or truncated. */
  lemma NoFile(g: Geometry, v: Vol, ino: nat, offset: nat, len: nat)
    requires |v.table| == g.inodeCount + 1
    requires !InUse(v, ino) || v.table[ino].IsDir()
    ensures var e := if InUse(v, ino) then IsDir else NotFound;
            && ReadResult(g, v, ino, offset, len) == Err(e) && WriteResult(g, v, ino, offset, len) == Err(e)
            && TruncateOutcome(g, v, ino, len) == Err(e)
  {
    hide T, Page, Contents, Paths;
  }

  /** Reading yields the bytes from `offset` on, as far as the file goes, each of them from its
      place in the logical block it lies in, unless the last of them lies beyond what can be mapped. */
  lemma ReadAnswer(g: Geometry, v: Vol, ino: nat, offset: nat, len: nat)
    requires |v.table| == g.inodeCount + 1 && InUse(v, ino) && !v.table[ino].IsDir()
    ensures var (end, r) := (Min(v.table[ino].size, offset + len), ReadResult(g, v, ino, offset, len));
            && (end <= offset ==> r == Ok([]))
            && (offset < end && end > (12 + 504 + 504 * 504) * 4032 ==>
              r == Err(BadBlock(Max(offset / 4032, 12 + 504 + 504 * 504))))
            && (offset < end <= (12 + 504 + 504 * 504) * 4032 ==>
              && r.Ok? && |r.value| == end - offset
              && forall k :: 0 <= k < end - offset ==>
                r.value[k] == Page(v, ino, (offset + k) / 4032)[(offset + k) % 4032])
  {
    hide T, Page;
  }

  /** Writing succeeds exactly when the range does not pass the largest offset, all its blocks can be
      mapped, and as many blocks are free as the data blocks and pointer tables on the way to
      them that are missing. */
  lemma WriteAnswer(g: Geometry, v: Vol, ino: nat, offset: nat, len: nat, way: set<Slot>)
    requires |v.table| == g.inodeCount + 1 && InUse(v, ino) && !v.table[ino].IsDir()
    requires forall s: Slot :: s in way <==> exists m: nat :: OnWay(offset, len, m, s)
    ensures var (last, free) := ((offset + len - 1) / 4032, |FreeData(v, g.dataStart)|);
            WriteResult(g, v, ino, offset, len) ==
              if offset + len > 0xFFFF_FFFF_FFFF_FFFF then Err(Manifest)
              else if |Lacking(v, ino, way)| > free then Err(NoSpace)
              else if len > 0 && last >= 12 + 504 + 504 * 504 then
                Err(BadBlock(Max(offset / 4032, 12 + 504 + 504 * 504)))
              else Ok(len)
  {
    hide T, Page, SlotOf, Paths;
    var reach := Mappable(offset, len);
    forall s: Slot
      ensures s in way <==> s in Paths(offset, reach)
    {
      InPaths(offset, reach, s);
      forall m: nat
        ensures OnWay(offset, len, m, s) <==> Covers(offset, reach, m) && OnPath(s, SlotOf(m))
      {
      }
    }
    assert way == Paths(offset, reach);
  }

  /** Slot `s` is on the way to logical block `m`, which can be mapped and holds a byte of the range. */
  predicate OnWay(offset: nat, len: nat, m: nat, s: Slot) {
    && m < 12 + 504 + 504 * 504 && offset < (m + 1) * 4032 && m * 4032 < offset + len
    && len > 0 && OnPath(s, SlotOf(m))
  }

  /** Truncating a file succeeds exactly when it does not cut inside a block that cannot be mapped. */
  lemma TruncateAnswer(g: Geometry, v: Vol, ino: nat, size: nat)
    requires |v.table| == g.inodeCount + 1 && InUse(v, ino) && !v.table[ino].IsDir()
    ensures TruncateOutcome(g, v, ino, size) ==
      if size >= v.table[ino].size || size % 4032 == 0 || size / 4032 < 12 + 504 + 504 * 504 then Ok(())
      else Err(BadBlock(size / 4032))
  {
  }
}
