/** Adding, removing and redirecting entries inside one directory block. */
module DirBlocks {
  import opened Bytes
  import opened Layout
  import opened Wrappers
  import opened Dirents

  // ---------------------------------------------------------------- on lists of records

  /** Room for `needed` bytes: a dead record that large, or that much slack behind a live one. */
  predicate HasRoom(e: DirEntry, needed: nat)
  {
    if e.Live() then e.recLen - RequiredLen(|e.name|) >= needed else e.recLen >= needed
  }

  /** What becomes of a record that gives room to a new entry. */
  function Place(e: DirEntry, inode: u64, name: Name, fileType: byte): seq<DirEntry>
    requires Fits(e)
  {
    if e.Live() then
      var minimal := RequiredLen(|e.name|);
      [e.(recLen := minimal), DirEntry(inode, e.recLen - minimal, name, fileType)]
    else [DirEntry(inode, e.recLen, name, fileType)]
  }

  /** First fit. */
  function InsertRecs(recs: seq<DirEntry>, inode: u64, name: Name, fileType: byte): Option<seq<DirEntry>>
    requires forall k :: 0 <= k < |recs| ==> Fits(recs[k])
  {
    if recs == [] then None
    else if HasRoom(recs[0], RequiredLen(|name|)) then Some(Place(recs[0], inode, name, fileType) + recs[1..])
    else
      match InsertRecs(recs[1..], inode, name, fileType)
      case None => None
      case Some(rest) => Some([recs[0]] + rest)
  }

  predicate NoRoom(recs: seq<DirEntry>, needed: nat) {
    forall k :: 0 <= k < |recs| ==> !HasRoom(recs[k], needed)
  }

  /** The number of records before the first one with room. */
  function FirstRoom(recs: seq<DirEntry>, needed: nat): (k: nat)
    ensures k <= |recs| && NoRoom(recs[..k], needed) && (k < |recs| ==> HasRoom(recs[k], needed))
  {
    if recs == [] || HasRoom(recs[0], needed) then 0
    else
      var k := FirstRoom(recs[1..], needed);
      assert recs[..k + 1] == [recs[0]] + recs[1..][..k];
      k + 1
  }

  lemma FirstRoomAt(p: seq<DirEntry>, e: DirEntry, q: seq<DirEntry>, needed: nat)
    requires NoRoom(p, needed) && HasRoom(e, needed)
    ensures FirstRoom(p + [e] + q, needed) == |p|
  {
    var recs := p + [e] + q;
    assert recs[|p|] == e;
    assert forall k :: 0 <= k < |p| ==> recs[k] == p[k];
  }

  lemma {:induction false} FirstFit(p: seq<DirEntry>, e: DirEntry, q: seq<DirEntry>, inode: u64, name: Name,
      fileType: byte)
    requires forall k :: 0 <= k < |p + [e] + q| ==> Fits((p + [e] + q)[k])
    requires NoRoom(p, RequiredLen(|name|)) && HasRoom(e, RequiredLen(|name|)) && Fits(e)
    ensures InsertRecs(p + [e] + q, inode, name, fileType) == Some(p + Place(e, inode, name, fileType) + q)
  {
    var recs := p + [e] + q;
    if p == [] {
      assert recs[1..] == q;
      assert p + Place(e, inode, name, fileType) + q == Place(e, inode, name, fileType) + q;
    } else {
      assert recs[1..] == p[1..] + [e] + q;
      forall k | 0 <= k < |p[1..] + [e] + q|
        ensures Fits((p[1..] + [e] + q)[k])
      {
        assert (p[1..] + [e] + q)[k] == recs[k + 1];
      }
      FirstFit(p[1..], e, q, inode, name, fileType);
      assert [p[0]] + (p[1..] + Place(e, inode, name, fileType) + q) == p + Place(e, inode, name, fileType) + q;
    }
  }

  // ---------------------------------------------------------------- on blocks

  /** Rewriting the bytes of one record replaces that record in the walk. */
  lemma Replaced(b: Block, b': Block, p: seq<DirEntry>, e: DirEntry, q: seq<DirEntry>, news: seq<DirEntry>)
    requires Tiles(b, 0, p + [e] + q, UB)
    requires var at := Extent(p);
             && at + e.recLen <= UB
             && (forall i :: 0 <= i < UB && !(at <= i < at + e.recLen) ==> b'[i] == b[i])
             && Tiles(b', at, news, at + e.recLen)
    ensures Tiles(b', 0, p + news + q, UB)
  {
    hide Decode, Utf8;
    var at := Extent(p);
    Associative(p, [e], q);
    TilesConcat(b, 0, p, [e] + q, UB);
    TilesConcat(b, at, [e], q, UB);
    assert Extent([e]) == e.recLen;
    TilesFrame(b, b', 0, p, at);
    TilesFrame(b, b', at + e.recLen, q, UB);
    TilesExtent(b', at, news, at + e.recLen);
    TilesConcat(b', at, news, q, UB);
    TilesConcat(b', 0, p, news + q, UB);
    Associative(p, news, q);
  }

  /** A walk that has come to `offset`. */
  ghost predicate WalkedTo(b: Block, offset: nat, done: seq<DirEntry>) {
    && offset <= UB
    && Tiles(b, 0, done, offset)
    && Walk(b, 0) == match Walk(b, offset) case Ok(rest) => Ok(done + rest) case Err(e) => Err(e)
  }

  lemma WalkedStart(b: Block)
    ensures WalkedTo(b, 0, [])
  {
    hide Decode;
    match Walk(b, 0) {
      case Ok(recs) => assert [] + recs == recs;
      case Err(_) =>
    }
  }

  lemma WalkedStep(b: Block, offset: nat, done: seq<DirEntry>)
    requires WalkedTo(b, offset, done) && offset < UB && Decode(b, offset).Ok?
    ensures WalkedTo(b, offset + Decode(b, offset).value.recLen, done + [Decode(b, offset).value])
  {
    hide Decode, Tiles, Utf8;
    var e := Decode(b, offset).value;
    StepTiles(b, offset, done, e);
    match Walk(b, offset + e.recLen) {
      case Ok(rest) => assert done + ([e] + rest) == done + [e] + rest;
      case Err(_) =>
    }
  }

  lemma StepTiles(b: Block, offset: nat, done: seq<DirEntry>, e: DirEntry)
    requires Tiles(b, 0, done, offset) && Decode(b, offset) == Ok(e)
    ensures Tiles(b, 0, done + [e], offset + e.recLen)
  {
    hide Decode;
    TilesExtent(b, 0, done, offset);
    TilesConcat(b, 0, done, [e], offset + e.recLen);
  }

  /** The record at `offset` in its place among all records of the block. */
  lemma WalkedHere(b: Block, offset: nat, done: seq<DirEntry>)
    requires WalkedTo(b, offset, done) && offset < UB && Decode(b, offset).Ok?
    ensures offset == Extent(done)
    ensures Walk(b, 0).Ok? ==>
      && var e := Decode(b, offset).value;
      && Walk(b, offset).Ok? && |Walk(b, offset).value| > 0
      && Walk(b, 0).value == done + [e] + Walk(b, offset).value[1..]
      && Tiles(b, 0, Walk(b, 0).value, UB)
  {
    hide Decode, Utf8;
    var e := Decode(b, offset).value;
    TilesExtent(b, 0, done, offset);
    if Walk(b, 0).Ok? {
      var all := Walk(b, offset).value;
      assert all == [e] + all[1..];
      assert done + [e] + all[1..] == done + all;
      WalkTiles(b, 0, Walk(b, 0).value);
    }
  }

  lemma WalkFits(b: Block, offset: nat)
    ensures Walk(b, offset).Ok? ==> forall k :: 0 <= k < |Walk(b, offset).value| ==> Fits(Walk(b, offset).value[k])
    decreases UB - offset
  {
    if offset < UB && Decode(b, offset).Ok? {
      var e := Decode(b, offset).value;
      hide Decode;
      WalkFits(b, offset + e.recLen);
    }
  }

  /** A dead record overwritten by a new entry. */
  lemma PlacedDead(b: Block, offset: nat, inode: u64, name: Name, fileType: byte)
    requires |name| < 0x100 && Decode(b, offset).Ok? && !Decode(b, offset).value.Live()
    requires HasRoom(Decode(b, offset).value, RequiredLen(|name|))
    ensures var e := Decode(b, offset).value;
            var placed := Place(e, inode, name, fileType);
            && Fits(placed[0])
            && Tiles(Patch(b, offset, EntryBytes(placed[0])), offset, placed, offset + e.recLen)
  {
    hide Decode, EntryBytes;
    var placed := Place(Decode(b, offset).value, inode, name, fileType);
    DecodeWritten(b, offset, placed[0]);
  }

  /** A live record cut to its minimal length, and a new entry behind it. */
  lemma PlacedLive(b: Block, offset: nat, inode: u64, name: Name, fileType: byte)
    requires |name| < 0x100 && Decode(b, offset).Ok? && Decode(b, offset).value.Live()
    requires HasRoom(Decode(b, offset).value, RequiredLen(|name|))
    ensures var e := Decode(b, offset).value;
            var placed := Place(e, inode, name, fileType);
            var minimal := RequiredLen(|e.name|);
            && Fits(placed[1])
            && Tiles(Patch(SetLen(b, offset, minimal), offset + minimal, EntryBytes(placed[1])), offset, placed,
              offset + e.recLen)
  {
    hide Decode, EntryBytes;
    var e := Decode(b, offset).value;
    var placed := Place(e, inode, name, fileType);
    var minimal := RequiredLen(|e.name|);
    var b1 := SetLen(b, offset, minimal);
    var b2 := Patch(b1, offset + minimal, EntryBytes(placed[1]));
    DecodeSetLen(b, offset, minimal);
    DecodeWritten(b1, offset + minimal, placed[1]);
    PatchElsewhere(b1, offset + minimal, EntryBytes(placed[1]), offset, offset + minimal);
    DecodeFrame(b1, b2, offset);
    assert placed == [placed[0], placed[1]];
    TilesTwo(b2, offset, placed[0], placed[1]);
  }

  lemma TilesTwo(b: Block, offset: nat, x: DirEntry, y: DirEntry)
    requires Decode(b, offset) == Ok(x) && Decode(b, offset + x.recLen) == Ok(y)
    ensures Tiles(b, offset, [x, y], offset + x.recLen + y.recLen)
  {
    hide Decode;
    assert [x, y][1..] == [y] && [y][1..] == [];
    assert Tiles(b, offset + x.recLen, [y], offset + x.recLen + y.recLen);
  }

  /** A block in which record `e` at `offset` has got a new neighbour or, when it is dead, a new
      content. */
  function PutAt(b: Block, offset: nat, e: DirEntry, inode: u64, name: Name, fileType: byte): Block
    requires |name| < 0x100 && Fits(e) && HasRoom(e, RequiredLen(|name|)) && offset + e.recLen <= UB
  {
    if e.Live() then
      var minimal := RequiredLen(|e.name|);
      Patch(SetLen(b, offset, minimal), offset + minimal,
          EntryBytes(DirEntry(inode, e.recLen - minimal, name, fileType)))
    else Patch(b, offset, EntryBytes(DirEntry(inode, e.recLen, name, fileType)))
  }

  /** First fit from `offset` on: the block with the new entry in it, nothing when no record has
      room, or the error of the first record that cannot be decoded. */
  function PutFrom(b: Block, offset: nat, inode: u64, name: Name, fileType: byte): Result<Option<Block>>
    requires |name| < 0x100
    decreases UB - offset
  {
    if offset >= UB then Ok(None)
    else
      match Decode(b, offset)
      case Err(e) => Err(e)
      case Ok(e) =>
        if HasRoom(e, RequiredLen(|name|)) then Ok(Some(PutAt(b, offset, e, inode, name, fileType)))
        else PutFrom(b, offset + e.recLen, inode, name, fileType)
  }

  /** Whether there is room does not depend on what is entered. */
  lemma {:induction false} PutAnything(b: Block, offset: nat, inode: u64, name: Name, fileType: byte, inode': u64,
      fileType': byte)
    requires |name| < 0x100
    ensures var r, r' := PutFrom(b, offset, inode, name, fileType), PutFrom(b, offset, inode', name, fileType');
            if r.Ok? then r'.Ok? && (r.value.Some? <==> r'.value.Some?) else r' == r
    decreases UB - offset
  {
    hide Utf8, PutAt, HasRoom;
    if offset < UB && Decode(b, offset).Ok? {
      PutAnything(b, offset + Decode(b, offset).value.recLen, inode, name, fileType, inode', fileType');
    }
  }

  /** A block of records has taken a new one in at the first place with room: the bytes that have
      changed, and the records the block now holds. */
  ghost predicate PutIn(b: Block, b': Block, recs: seq<DirEntry>, inode: u64, name: Name, fileType: byte) {
    var k := FirstRoom(recs, RequiredLen(|name|));
    && |name| < 0x100 && k < |recs| && Fits(recs[k]) && Extent(recs[..k]) + recs[k].recLen <= UB
    && b' == PutAt(b, Extent(recs[..k]), recs[k], inode, name, fileType)
    && (forall m :: 0 <= m < |recs| ==> Fits(recs[m]))
    && InsertRecs(recs, inode, name, fileType).Some?
    && Walk(b', 0) == Ok(InsertRecs(recs, inode, name, fileType).value)
  }

  /** One step of first fit. */
  lemma PutStep(b: Block, offset: nat, inode: u64, name: Name, fileType: byte)
    requires |name| < 0x100
    ensures offset >= UB ==> PutFrom(b, offset, inode, name, fileType) == Ok(None)
    ensures offset < UB && Decode(b, offset).Err? ==>
      PutFrom(b, offset, inode, name, fileType) == Err(Decode(b, offset).error)
    ensures offset < UB && Decode(b, offset).Ok? ==>
      var e := Decode(b, offset).value;
      PutFrom(b, offset, inode, name, fileType) ==
        if HasRoom(e, RequiredLen(|name|)) then Ok(Some(PutAt(b, offset, e, inode, name, fileType)))
        else PutFrom(b, offset + e.recLen, inode, name, fileType)
  {
    hide Decode, Utf8, PutAt, HasRoom, RequiredLen;
  }

  /** Offer a directory block a new entry. */
  method TryInsert(b: Block, inode: u64, name: Name, fileType: byte) returns (r: Result<Option<Block>>)
    requires |name| < 0x100
    ensures r == PutFrom(b, 0, inode, name, fileType)
    ensures PutOutcome(b, r, inode, name, fileType)
  {
    hide Decode, EntryBytes, Utf8, Patch, SetLen, PutFrom, PutOutcome;
    PutWalked(b, inode, name, fileType);
    var needed := RequiredLen(|name|);
    var offset := 0;
    while offset < UB
      invariant offset <= UB
      invariant PutFrom(b, 0, inode, name, fileType) == PutFrom(b, offset, inode, name, fileType)
    {
      PutStep(b, offset, inode, name, fileType);
      var entry :- Decode(b, offset);
      if HasRoom(entry, needed) {
        var b' := b;
        if entry.Live() {
          var minimal := RequiredLen(|entry.name|);
          b' := SetLen(b', offset, minimal);
          b' := Patch(b', offset + minimal, EntryBytes(DirEntry(inode, entry.recLen - minimal, name, fileType)));
        } else {
          b' := Patch(b', offset, EntryBytes(DirEntry(inode, entry.recLen, name, fileType)));
        }
        return Ok(Some(b'));
      }
      offset := offset + entry.recLen;
    }
    PutStep(b, offset, inode, name, fileType);
    return Ok(None);
  }

  /** How the outcome of first fit relates to the records of the block. */
  ghost predicate PutOutcome(b: Block, r: Result<Option<Block>>, inode: u64, name: Name, fileType: byte) {
    && (r.Err? ==> Walk(b, 0) == Err(r.error))
    && (r == Ok(None) ==> Walk(b, 0).Ok? && NoRoom(Walk(b, 0).value, RequiredLen(|name|)))
    && (Walk(b, 0).Ok? && r.Ok? && r.value.Some? ==> PutIn(b, r.value.value, Walk(b, 0).value, inode, name, fileType))
  }

  /** What first fit finds in a block that records tile. */
  lemma PutWalked(b: Block, inode: u64, name: Name, fileType: byte)
    requires |name| < 0x100
    ensures PutOutcome(b, PutFrom(b, 0, inode, name, fileType), inode, name, fileType)
  {
    WalkedStart(b);
    PutWalkedFrom(b, 0, [], inode, name, fileType);
  }

  lemma {:induction false} PutWalkedFrom(b: Block, offset: nat, done: seq<DirEntry>, inode: u64, name: Name,
      fileType: byte)
    requires |name| < 0x100 && WalkedTo(b, offset, done) && NoRoom(done, RequiredLen(|name|))
    ensures PutOutcome(b, PutFrom(b, offset, inode, name, fileType), inode, name, fileType)
    decreases UB - offset
  {
    hide Decode, EntryBytes, WalkedTo, Walk, InsertRecs, Utf8, Patch, SetLen, FirstRoom, Extent, RequiredLen, PutIn,
        PutAt;
    WalkedRoom(b, offset, done);
    if offset >= UB {
      WalkedEnd(b, offset, done);
    } else {
      match Decode(b, offset) {
        case Err(e) =>
          WalkedError(b, offset, done);
        case Ok(e) =>
          if HasRoom(e, RequiredLen(|name|)) {
            Inserted(b, PutAt(b, offset, e, inode, name, fileType), offset, done, inode, name, fileType);
          } else {
            WalkedStep(b, offset, done);
            PutWalkedFrom(b, offset + e.recLen, done + [e], inode, name, fileType);
          }
      }
    }
  }

  lemma WalkedRoom(b: Block, offset: nat, done: seq<DirEntry>)
    requires WalkedTo(b, offset, done)
    ensures offset <= UB
  {
  }

  /** The loop that collects the records of a block. */
  method WalkBlock(b: Block) returns (r: Result<seq<DirEntry>>)
    ensures r == Walk(b, 0)
  {
    hide Decode, WalkedTo, Walk, Utf8;
    var offset := 0;
    var entries: seq<DirEntry> := [];
    WalkedStart(b);
    while offset < UB
      invariant WalkedTo(b, offset, entries)
    {
      var entry := Decode(b, offset);
      if entry.Err? {
        WalkedError(b, offset, entries);
        return Err(entry.error);
      }
      WalkedStep(b, offset, entries);
      entries := entries + [entry.value];
      offset := offset + entry.value.recLen;
    }
    WalkedEnd(b, offset, entries);
    return Ok(entries);
  }

  lemma WalkedError(b: Block, offset: nat, done: seq<DirEntry>)
    requires WalkedTo(b, offset, done) && offset < UB && Decode(b, offset).Err?
    ensures Walk(b, 0) == Err(Decode(b, offset).error)
  {
    hide Decode;
  }

  lemma WalkedEnd(b: Block, offset: nat, done: seq<DirEntry>)
    requires WalkedTo(b, offset, done) && offset >= UB
    ensures Walk(b, 0) == Ok(done)
  {
    hide Decode;
    assert done + [] == done;
  }

  lemma Inserted(b: Block, b': Block, offset: nat, done: seq<DirEntry>, inode: u64, name: Name, fileType: byte)
    requires WalkedTo(b, offset, done) && offset < UB && Decode(b, offset).Ok? && |name| < 0x100
    requires HasRoom(Decode(b, offset).value, RequiredLen(|name|)) && NoRoom(done, RequiredLen(|name|))
    requires b' == PutAt(b, offset, Decode(b, offset).value, inode, name, fileType)
    ensures Walk(b, 0).Ok? ==> PutIn(b, b', Walk(b, 0).value, inode, name, fileType)
  {
    hide Decode, EntryBytes, Tiles, InsertRecs, FirstRoom, Extent;
    var e := Decode(b, offset).value;
    var placed := Place(e, inode, name, fileType);
    if e.Live() {
      PlacedLive(b, offset, inode, name, fileType);
    } else {
      PlacedDead(b, offset, inode, name, fileType);
    }
    WalkFits(b, 0);
    WalkedHere(b, offset, done);
    if Walk(b, 0).Ok? {
      var rest := Walk(b, offset).value[1..];
      Replaced(b, b', done, e, rest, placed);
      FirstFit(done, e, rest, inode, name, fileType);
      WalkTiles(b', 0, done + placed + rest);
      FirstRoomAt(done, e, rest, RequiredLen(|name|));
      assert (done + [e] + rest)[..|done|] == done;
    }
  }

  // ---------------------------------------------------------------- removal

  /** The first live record called `name`, or past the end. */
  function FindNamed(recs: seq<DirEntry>, name: Name): (k: nat)
    ensures k <= |recs|
    ensures k < |recs| ==> recs[k].Live() && recs[k].name == name
    ensures forall m :: 0 <= m < k ==> !(recs[m].Live() && recs[m].name == name)
  {
    if recs == [] then 0
    else if recs[0].Live() && recs[0].name == name then 0
    else 1 + FindNamed(recs[1..], name)
  }

  /** The number of records up to and including the last live one. */
  function LastLive(recs: seq<DirEntry>): (n: nat)
    ensures n <= |recs|
    ensures n > 0 ==> recs[n - 1].Live()
    ensures forall m :: n <= m < |recs| ==> !recs[m].Live()
  {
    if recs == [] then 0
    else if recs[|recs| - 1].Live() then |recs|
    else LastLive(recs[..|recs| - 1])
  }

  /** No dead record stands between record `k` and the nearest live one before it, or there is
      no live one before it at all. */
  predicate Adjacent(recs: seq<DirEntry>, k: nat)
    requires k <= |recs|
  {
    LastLive(recs[..k]) == 0 || LastLive(recs[..k]) == k
  }

  /** The record the walk finds where the last live record before record `k` was. */
  function Merged(recs: seq<DirEntry>, k: nat): DirEntry
    requires k < |recs| && LastLive(recs[..k]) > 0
  {
    var last := recs[LastLive(recs[..k]) - 1];
    last.(recLen := Min(last.recLen + recs[k].recLen, 0xFFFF))
  }

  /** What the program writes when it removes record `k`: the record itself goes dead when no
      live one precedes it, otherwise its length is added to the last live record. */
  ghost predicate RemovedRec(b: Block, b': Block, recs: seq<DirEntry>, k: nat)
    requires k < |recs|
  {
    var n := LastLive(recs[..k]);
    if n == 0 then
      Walk(b', 0) == Ok(recs[..k] + [recs[k].(inode := 0)] + recs[k + 1..])
    else
      var at := Extent(recs[..n]) + recs[k].recLen;
      && at <= UB
      && Tiles(b', 0, recs[..n - 1] + [Merged(recs, k)], at)
      && b'[at..] == b[at..]
  }

  /** The previous live record, as the loop remembers it. */
  ghost predicate Remembered(b: Block, done: seq<DirEntry>, previous: Option<nat>) {
    match previous
    case None => LastLive(done) == 0
    case Some(at) =>
      && LastLive(done) > 0
      && at == Extent(done[..LastLive(done) - 1])
      && Decode(b, at) == Ok(done[LastLive(done) - 1])
  }

  lemma RememberStep(b: Block, done: seq<DirEntry>, previous: Option<nat>, offset: nat, e: DirEntry)
    requires Remembered(b, done, previous) && offset == Extent(done) && Decode(b, offset) == Ok(e)
    ensures Remembered(b, done + [e], if e.Live() then Some(offset) else previous)
  {
    hide Decode, Utf8;
    assert (done + [e])[..|done|] == done;
    if !e.Live() && LastLive(done) > 0 {
      assert (done + [e])[..LastLive(done) - 1] == done[..LastLive(done) - 1];
    }
  }

  /** Where the last live record before record `k` starts. */
  function LiveBefore(recs: seq<DirEntry>, k: nat): Option<nat>
    requires k <= |recs|
  {
    var n := LastLive(recs[..k]);
    if n == 0 then None else Some(Extent(recs[..n - 1]))
  }

  /** A block without record `e` at `offset`: it goes dead when no live record was seen before it,
      otherwise its length is added to that of the last one. */
  function TakeAt(b: Block, offset: nat, e: DirEntry, previous: Option<nat>): Block
    requires offset + 12 <= UB && (previous.Some? ==> previous.value + 12 <= UB)
  {
    match previous
    case Some(at) => SetLen(b, at, (FromLe16(b[at + 8..at + 10]) + e.recLen) % 0x1_0000)
    case None => SetInode(b, offset, 0)
  }

  /** Removal from `offset` on, where `previous` is the last live record seen: the block without
      the name, nothing when it is not there, or the error of the first record that cannot be
      decoded. */
  function TakeFrom(b: Block, offset: nat, previous: Option<nat>, name: Name): Result<Option<Block>>
    requires previous.Some? ==> previous.value + 12 <= UB
    decreases UB - offset
  {
    if offset >= UB then Ok(None)
    else
      match Decode(b, offset)
      case Err(e) => Err(e)
      case Ok(e) =>
        if e.Live() && e.name == name then Ok(Some(TakeAt(b, offset, e, previous)))
        else TakeFrom(b, offset + e.recLen, if e.Live() then Some(offset) else previous, name)
  }

  /** The first live record for `name` has been taken out of a block of records: the bytes that
      have changed, and what a walk now sees up to there. */
  ghost predicate TakenFrom(b: Block, b': Block, recs: seq<DirEntry>, name: Name) {
    var k := FindNamed(recs, name);
    && k < |recs| && RemovedRec(b, b', recs, k)
    && Extent(recs[..k]) + 12 <= UB && (LiveBefore(recs, k).Some? ==> LiveBefore(recs, k).value + 12 <= UB)
    && b' == TakeAt(b, Extent(recs[..k]), recs[k], LiveBefore(recs, k))
  }

  /** Take the entry `name` out of a directory block, if it is there. */
  method TryRemove(b: Block, name: Name) returns (r: Result<Option<Block>>)
    ensures r == TakeFrom(b, 0, None, name)
    ensures Taken(b, r, name)
  {
    hide Decode, Utf8, SetLen, SetInode, Taken;
    TakeWalked(b, name);
    var offset := 0;
    var previous: Option<nat> := None;
    while offset < UB
      invariant offset <= UB && (previous.Some? ==> previous.value + 12 <= UB)
      invariant TakeFrom(b, 0, None, name) == TakeFrom(b, offset, previous, name)
    {
      var entry :- Decode(b, offset);
      if entry.Live() && entry.name == name {
        var b' := b;
        match previous {
          case Some(at) =>
            var oldLen := FromLe16(b'[at + 8..at + 10]);
            var combined := oldLen + entry.recLen;
            b' := SetLen(b', at, combined % 0x1_0000);
          case None =>
            b' := SetInode(b', offset, 0);
        }
        return Ok(Some(b'));
      }
      if entry.Live() {
        previous := Some(offset);
      }
      offset := offset + entry.recLen;
    }
    return Ok(None);
  }

  /** How the outcome of a removal relates to the records of the block. */
  ghost predicate Taken(b: Block, r: Result<Option<Block>>, name: Name) {
    && (r.Err? ==> Walk(b, 0) == Err(r.error))
    && (r == Ok(None) ==> Walk(b, 0).Ok? && FindNamed(Walk(b, 0).value, name) == |Walk(b, 0).value|)
    && (Walk(b, 0).Ok? && r.Ok? && r.value.Some? ==> TakenFrom(b, r.value.value, Walk(b, 0).value, name))
  }

  /** What a removal does to a block that records tile. */
  lemma TakeWalked(b: Block, name: Name)
    ensures Taken(b, TakeFrom(b, 0, None, name), name)
  {
    WalkedStart(b);
    RememberNothing(b);
    TakeWalkedFrom(b, 0, [], None, name);
  }

  lemma {:induction false} TakeWalkedFrom(b: Block, offset: nat, done: seq<DirEntry>, previous: Option<nat>, name: Name)
    requires WalkedTo(b, offset, done) && offset == Extent(done) && FindNamed(done, name) == |done|
    requires Remembered(b, done, previous)
    requires previous.Some? ==> previous.value + 12 <= UB && Decode(b, previous.value).Ok?
    ensures Taken(b, TakeFrom(b, offset, previous, name), name)
    decreases UB - offset
  {
    hide Decode, WalkedTo, Walk, Utf8, Extent, Remembered, FindNamed, LastLive, TakenFrom, TakeAt;
    WalkedRoom(b, offset, done);
    if offset >= UB {
      WalkedEnd(b, offset, done);
    } else {
      match Decode(b, offset) {
        case Err(e) =>
          WalkedError(b, offset, done);
        case Ok(e) =>
          if e.Live() && e.name == name {
            TakenOut(b, TakeAt(b, offset, e, previous), offset, done, previous, name);
          } else {
            WalkedStep(b, offset, done);
            WalkedExtent(b, offset + e.recLen, done + [e]);
            RememberStep(b, done, previous, offset, e);
            FindMore(done, e, name);
            TakeWalkedFrom(b, offset + e.recLen, done + [e], if e.Live() then Some(offset) else previous, name);
          }
      }
    }
  }

  lemma RememberNothing(b: Block)
    ensures Remembered(b, [], None)
  {
  }

  lemma WalkedExtent(b: Block, offset: nat, done: seq<DirEntry>)
    requires WalkedTo(b, offset, done)
    ensures offset == Extent(done)
  {
    TilesExtent(b, 0, done, offset);
  }

  lemma LenField(b: Block, at: nat)
    requires Decode(b, at).Ok?
    ensures at + 12 <= UB && FromLe16(b[at + 8..at + 10]) == Decode(b, at).value.recLen <= 4032
  {
  }

  lemma {:induction false} FindMore(p: seq<DirEntry>, e: DirEntry, name: Name)
    requires FindNamed(p, name) == |p|
    ensures !(e.Live() && e.name == name) ==> FindNamed(p + [e], name) == |p| + 1
  {
    if p != [] {
      FindMore(p[1..], e, name);
      assert (p + [e])[1..] == p[1..] + [e];
    }
  }

  lemma {:induction false} FindAt(p: seq<DirEntry>, e: DirEntry, q: seq<DirEntry>, name: Name)
    requires FindNamed(p, name) == |p| && e.Live() && e.name == name
    ensures FindNamed(p + [e] + q, name) == |p|
  {
    var recs := p + [e] + q;
    if p == [] {
      assert recs[0] == e;
    } else {
      FindAt(p[1..], e, q, name);
      assert recs[1..] == p[1..] + [e] + q;
    }
  }

  lemma {:induction false} FindConcat(p: seq<DirEntry>, q: seq<DirEntry>, name: Name)
    ensures FindNamed(p + q, name) == if FindNamed(p, name) < |p| then FindNamed(p, name) else |p| + FindNamed(q, name)
  {
    hide Utf8;
    if p == [] {
      assert p + q == q;
    } else {
      assert (p + q)[1..] == p[1..] + q;
      FindConcat(p[1..], q, name);
    }
  }

  lemma TakenOut(b: Block, b': Block, offset: nat, done: seq<DirEntry>, previous: Option<nat>, name: Name)
    requires WalkedTo(b, offset, done) && offset < UB && Decode(b, offset).Ok?
    requires Decode(b, offset).value.Live() && Decode(b, offset).value.name == name
    requires Remembered(b, done, previous) && FindNamed(done, name) == |done|
    requires previous.Some? ==> previous.value + 12 <= UB && Decode(b, previous.value).Ok?
    requires b' == TakeAt(b, offset, Decode(b, offset).value, previous)
    ensures Walk(b, 0).Ok? ==> TakenFrom(b, b', Walk(b, 0).value, name)
  {
    hide Decode, WalkedTo, Walk, Tiles, FindNamed, LastLive, Extent, RemovedRec, Utf8, Remembered, TakeAt;
    if Walk(b, 0).Ok? {
      var e := Decode(b, offset).value;
      WalkedHere(b, offset, done);
      var rest := Walk(b, offset).value[1..];
      FindAt(done, e, rest, name);
      var recs := done + [e] + rest;
      assert recs[..|done|] == done && recs[|done|] == e;
      TakenRec(b, b', recs, |done|, previous);
      RememberedIs(b, recs, |done|, previous);
    }
  }

  lemma TakenRec(b: Block, b': Block, recs: seq<DirEntry>, k: nat, previous: Option<nat>)
    requires Tiles(b, 0, recs, UB) && k < |recs| && Decode(b, Extent(recs[..k])) == Ok(recs[k])
    requires Remembered(b, recs[..k], previous)
    requires Extent(recs[..k]) + 12 <= UB
    requires previous.Some? ==> previous.value + 12 <= UB && Decode(b, previous.value).Ok?
    requires b' == TakeAt(b, Extent(recs[..k]), recs[k], previous)
    ensures RemovedRec(b, b', recs, k)
  {
    hide Decode, Tiles, LastLive, Extent, RemovedRec, Utf8, Fits, FromLe16, SetLen, SetInode, Patch;
    match previous {
      case None =>
        ClearedRec(b, b', recs, k);
      case Some(at) =>
        var n := LastLive(recs[..k]);
        assert recs[..k][..n - 1] == recs[..n - 1];
        LenField(b, at);
        ExtentUpTo(b, recs, n, k);
        MergedBytes(b, b', recs, k, n);
    }
  }

  lemma RememberedIs(b: Block, recs: seq<DirEntry>, k: nat, previous: Option<nat>)
    requires k <= |recs| && Remembered(b, recs[..k], previous)
    ensures previous == LiveBefore(recs, k)
  {
    hide Decode, LastLive, Extent, Utf8;
    var n := LastLive(recs[..k]);
    if n > 0 {
      assert recs[..k][..n - 1] == recs[..n - 1];
    }
  }

  /** The first live record of a block goes dead. */
  lemma ClearedRec(b: Block, b': Block, recs: seq<DirEntry>, k: nat)
    requires Tiles(b, 0, recs, UB) && k < |recs| && LastLive(recs[..k]) == 0
    requires Extent(recs[..k]) + 12 <= UB && Decode(b, Extent(recs[..k])) == Ok(recs[k])
    requires b' == SetInode(b, Extent(recs[..k]), 0)
    ensures RemovedRec(b, b', recs, k)
  {
    hide Decode, Extent, LastLive, Utf8, Tiles, Walk;
    var offset, e := Extent(recs[..k]), recs[k];
    var dead := e.(inode := 0);
    DecodeSetInode(b, offset, 0);
    assert offset + e.recLen <= UB;
    assert recs == recs[..k] + [e] + recs[k + 1..];
    TilesOne(b', offset, dead);
    Replaced(b, b', recs[..k], e, recs[k + 1..], [dead]);
    WalkTiles(b', 0, recs[..k] + [dead] + recs[k + 1..]);
  }

  /** The length of the last live record before record `k` has grown by that of record `k`. */
  lemma MergedBytes(b: Block, b': Block, recs: seq<DirEntry>, k: nat, n: nat)
    requires Tiles(b, 0, recs, UB) && k < |recs| && n == LastLive(recs[..k]) > 0
    requires Extent(recs[..n - 1]) + 12 <= UB
    requires b' == SetLen(b, Extent(recs[..n - 1]), Merged(recs, k).recLen)
    ensures RemovedRec(b, b', recs, k)
  {
    hide Decode, Extent, LastLive, Walk;
    var p, last, from := recs[..n - 1], recs[n - 1], Extent(recs[..n - 1]);
    ExtentUpTo(b, recs, n, k);
    TilesHere(b, recs, n - 1);
    DecodeSetLen(b, from, Merged(recs, k).recLen);
    TilesFrame(b, b', 0, p, from);
    StepTiles(b', from, p, Merged(recs, k));
    var at := Extent(recs[..n]) + recs[k].recLen;
    assert b'[at..] == b[at..];
  }

  lemma TilesHere(b: Block, recs: seq<DirEntry>, m: nat)
    requires Tiles(b, 0, recs, UB) && m < |recs|
    ensures Tiles(b, 0, recs[..m], Extent(recs[..m])) && Decode(b, Extent(recs[..m])) == Ok(recs[m])
  {
    hide Decode, Extent;
    assert recs == recs[..m] + recs[m..];
    TilesConcat(b, 0, recs[..m], recs[m..], UB);
  }

  lemma TilesOne(b: Block, offset: nat, e: DirEntry)
    requires Decode(b, offset) == Ok(e)
    ensures Tiles(b, offset, [e], offset + e.recLen)
  {
    hide Decode;
  }

  lemma ExtentOne(e: DirEntry)
    ensures Extent([e]) == e.recLen
  {
  }

  lemma {:induction false} ExtentConcat(p: seq<DirEntry>, q: seq<DirEntry>)
    ensures Extent(p + q) == Extent(p) + Extent(q)
  {
    if p == [] {
      assert p + q == q;
    } else {
      assert (p + q)[1..] == p[1..] + q;
      ExtentConcat(p[1..], q);
    }
  }

  /** The last live record and the victim together end inside the block. */
  lemma ExtentUpTo(b: Block, recs: seq<DirEntry>, n: nat, k: nat)
    requires Tiles(b, 0, recs, UB) && 0 < n <= k < |recs|
    ensures Extent(recs[..n]) + recs[k].recLen <= UB
    ensures Fits(recs[n - 1].(recLen := Min(recs[n - 1].recLen + recs[k].recLen, 0xFFFF)))
    ensures recs[n - 1].recLen + recs[k].recLen <= UB
    ensures Extent(recs[..n - 1]) + recs[n - 1].recLen == Extent(recs[..n])
  {
    hide Decode, Extent, Tiles, RequiredLen, Utf8;
    TilesExtent(b, 0, recs, UB);
    ExtentStep(recs, n - 1);
    ExtentStep(recs, k);
    ExtentMonotone(recs, n, k);
    ExtentMonotone(recs, k + 1, |recs|);
    assert recs[..|recs|] == recs;
    assert Fits(recs[n - 1]) && Fits(recs[k]);
  }

  lemma ExtentStep(recs: seq<DirEntry>, k: nat)
    requires k < |recs|
    ensures Extent(recs[..k + 1]) == Extent(recs[..k]) + recs[k].recLen
  {
    ExtentConcat(recs[..k], [recs[k]]);
    assert recs[..k] + [recs[k]] == recs[..k + 1];
    ExtentOne(recs[k]);
  }

  lemma ExtentMonotone(recs: seq<DirEntry>, m: nat, n: nat)
    requires m <= n <= |recs|
    ensures Extent(recs[..m]) <= Extent(recs[..n])
  {
    ExtentConcat(recs[..m], recs[m..n]);
    assert recs[..m] + recs[m..n] == recs[..n];
  }

  /** Redirection from `offset` on: the block whose first live record for `name` points to
      `inode`, nothing when there is none, or the error of the first record that cannot be
      decoded. */
  function TurnFrom(b: Block, offset: nat, name: Name, inode: u64): Result<Option<Block>>
    decreases UB - offset
  {
    if offset >= UB then Ok(None)
    else
      match Decode(b, offset)
      case Err(e) => Err(e)
      case Ok(e) =>
        if e.Live() && e.name == name then Ok(Some(SetInode(b, offset, inode)))
        else TurnFrom(b, offset + e.recLen, name, inode)
  }

  /** Point the entry `name` of a directory block at another inode. */
  method TryRedirect(b: Block, name: Name, inode: u64) returns (r: Result<Option<Block>>)
    ensures r == TurnFrom(b, 0, name, inode)
    ensures Turned(b, r, name, inode)
  {
    hide Decode, Utf8, SetInode, Turned;
    TurnWalked(b, name, inode);
    var offset := 0;
    while offset < UB
      invariant offset <= UB
      invariant TurnFrom(b, 0, name, inode) == TurnFrom(b, offset, name, inode)
    {
      var entry :- Decode(b, offset);
      if entry.Live() && entry.name == name {
        return Ok(Some(SetInode(b, offset, inode)));
      }
      offset := offset + entry.recLen;
    }
    return Ok(None);
  }

  /** The first live record for `name` points to `inode`. */
  ghost predicate TurnedIn(b': Block, recs: seq<DirEntry>, name: Name, inode: u64) {
    var k := FindNamed(recs, name);
    k < |recs| && Walk(b', 0) == Ok(recs[..k] + [recs[k].(inode := inode)] + recs[k + 1..])
  }

  /** How the outcome of a redirection relates to the records of the block. */
  ghost predicate Turned(b: Block, r: Result<Option<Block>>, name: Name, inode: u64) {
    && (r.Err? ==> Walk(b, 0) == Err(r.error))
    && (r == Ok(None) ==> Walk(b, 0).Ok? && FindNamed(Walk(b, 0).value, name) == |Walk(b, 0).value|)
    && (Walk(b, 0).Ok? && r.Ok? && r.value.Some? ==> TurnedIn(r.value.value, Walk(b, 0).value, name, inode))
  }

  /** What a redirection does to a block that records tile. */
  lemma TurnWalked(b: Block, name: Name, inode: u64)
    ensures Turned(b, TurnFrom(b, 0, name, inode), name, inode)
  {
    WalkedStart(b);
    TurnWalkedFrom(b, 0, [], name, inode);
  }

  lemma {:induction false} TurnWalkedFrom(b: Block, offset: nat, done: seq<DirEntry>, name: Name, inode: u64)
    requires WalkedTo(b, offset, done) && FindNamed(done, name) == |done|
    ensures Turned(b, TurnFrom(b, offset, name, inode), name, inode)
    decreases UB - offset
  {
    hide Decode, WalkedTo, Walk, Utf8, FindNamed, TurnedIn, SetInode;
    WalkedRoom(b, offset, done);
    if offset >= UB {
      WalkedEnd(b, offset, done);
    } else {
      match Decode(b, offset) {
        case Err(e) =>
          WalkedError(b, offset, done);
        case Ok(e) =>
          if e.Live() && e.name == name {
            Redirected(b, offset, done, name, inode);
          } else {
            WalkedStep(b, offset, done);
            FindMore(done, e, name);
            TurnWalkedFrom(b, offset + e.recLen, done + [e], name, inode);
          }
      }
    }
  }

  lemma Redirected(b: Block, offset: nat, done: seq<DirEntry>, name: Name, inode: u64)
    requires WalkedTo(b, offset, done) && offset < UB && Decode(b, offset).Ok?
    requires Decode(b, offset).value.Live() && Decode(b, offset).value.name == name && FindNamed(done, name) == |done|
    ensures Walk(b, 0).Ok? ==> TurnedIn(SetInode(b, offset, inode), Walk(b, 0).value, name, inode)
  {
    hide Decode, Walk, Tiles, Extent, Utf8, FindNamed, WalkedTo;
    if Walk(b, 0).Ok? {
      var e := Decode(b, offset).value;
      WalkedHere(b, offset, done);
      var rest := Walk(b, offset).value[1..];
      var recs := done + [e] + rest;
      FindAt(done, e, rest, name);
      assert recs[..|done|] == done && recs[|done|] == e && recs[|done| + 1..] == rest;
      var new_ := e.(inode := inode);
      DecodeSetInode(b, offset, inode);
      TilesOne(SetInode(b, offset, inode), offset, new_);
      Replaced(b, SetInode(b, offset, inode), done, e, rest, [new_]);
      WalkTiles(SetInode(b, offset, inode), 0, done + [new_] + rest);
    }
  }

  // ---------------------------------------------------------------- a new directory

  /** `.` and `..`, the latter with the rest of the block. */
  function InitialEntries(ino: u64, parent: u64): seq<DirEntry> {
    DotsAreNames();
    [DirEntry(ino, 16, DOT, FILE_TYPE_DIR), DirEntry(parent, 4016, DOTDOT, FILE_TYPE_DIR)]
  }

  lemma DotsAreNames()
    ensures RequiredLen(1) == 16 && RequiredLen(2) == 16
  {
  }

  function InitialBlock(ino: u64, parent: u64): Block {
    var entries := InitialEntries(ino, parent);
    DotsAreNames();
    Patch(Patch(ZERO_BLOCK, 0, EntryBytes(entries[0])), 16, EntryBytes(entries[1]))
  }

  /** The block a directory starts with holds exactly `.` and `..`. */
  lemma InitialWalk(ino: u64, parent: u64)
    ensures Walk(InitialBlock(ino, parent), 0) == Ok(InitialEntries(ino, parent))
  {
    hide Decode, EntryBytes, Utf8;
    DotsAreNames();
    var entries := InitialEntries(ino, parent);
    var b1 := Patch(ZERO_BLOCK, 0, EntryBytes(entries[0]));
    var b2 := InitialBlock(ino, parent);
    DecodeWritten(ZERO_BLOCK, 0, entries[0]);
    DecodeWritten(b1, 16, entries[1]);
    PatchElsewhere(b1, 16, EntryBytes(entries[1]), 0, 16);
    DecodeFrame(b1, b2, 0);
    TilesTwo(b2, 0, entries[0], entries[1]);
    WalkTiles(b2, 0, entries);
  }
}
