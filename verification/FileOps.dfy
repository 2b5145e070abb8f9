/** What reading, writing and truncating a file mean. */
module FileOps {
  import opened Bytes
  import opened Wrappers
  import opened Geometry
  import opened Volume
  import opened Space
  import opened Files

  /** A live inode that is not a directory. */
  predicate IsFile(g: Geometry, v: Vol, ino: nat)
    requires |v.table| == g.inodeCount + 1
  {
    0 < ino <= g.inodeCount && v.table[ino].Live() && !v.table[ino].IsDir()
  }

  /** The effect of a successful write. */
  ghost predicate WriteDone(g: Geometry, v: Vol, v': Vol, ino: nat, offset: nat, data: seq<byte>)
    requires |v.table| == g.inodeCount + 1
  {
    && IsFile(g, v, ino) && OthersKept(v, v', ino)
    && v'.table[ino].size == Max(v.table[ino].size, offset + |data|) && SameAttributes(v.table[ino], v'.table[ino])
    && v'.table[ino].Stamped()
    && (data != [] ==> (offset + |data| - 1) / 4032 < MAX_INDEX)
    && (forall pos: nat {:trigger Byte(v', ino, pos)} ::
      Byte(v', ino, pos) == if offset <= pos < offset + |data| then data[pos - offset] else Byte(v, ino, pos))
    && (Exact(v, g.dataStart) ==> Exact(v', g.dataStart))
    && (TrimAt(v, ino) ==> Contents(v', ino) == Splice(Contents(v, ino), offset, data))
    && |v'.data| == |v.data| && Takes(v, v', ino, Paths(offset, |data|)) && Filled(v', ino, Paths(offset, |data|))
  }

  /** The effect of a write that copied `consumed` bytes and then met a block it could not map:
      one past the mapping's reach, or one whose path needs more blocks than are free. */
  ghost predicate WriteAborted(g: Geometry, v: Vol, v': Vol, ino: nat, offset: nat, data: seq<byte>, consumed: nat,
      e: FsError) {
    var stop := (offset + consumed) / 4032;
    && consumed < |data| && (consumed > 0 ==> (offset + consumed) % 4032 == 0)
    && PartlyWritten(v, v', ino, offset, data, consumed)
    && |Lacking(v, ino, Paths(offset, consumed))| <= |FreeData(v, g.dataStart)|
    && match e
       case BadBlock(m) =>
         && m == stop == Max(offset / 4032, MAX_INDEX) && LeftOver(v, v', ino, Paths(offset, consumed))
         && |FreeData(v', g.dataStart)| == |FreeData(v, g.dataStart)| - |Lacking(v, ino, Paths(offset, consumed))|
       case NoSpace =>
         && stop < MAX_INDEX && |FreeData(v, g.dataStart)| < |Lacking(v, ino, Paths(offset, consumed + 1))|
         && AllTaken(v', g.dataStart) && LeftOver(v, v', ino, Paths(offset, consumed + 1))
       case _ => false
  }

  /** The effect of a failed write: nothing, or that of the blocks copied before it stopped. */
  ghost predicate WriteFailed(g: Geometry, v: Vol, v': Vol, ino: nat, offset: nat, data: seq<byte>, e: FsError)
    requires |v.table| == g.inodeCount + 1
  {
    if ino == 0 || ino > g.inodeCount || !v.table[ino].Live() then e == NotFound && v' == v
    else if v.table[ino].IsDir() then e == IsDir && v' == v
    else if offset + |data| > MAX_U64 then e == Manifest && v' == v
    else exists consumed: nat :: WriteAborted(g, v, v', ino, offset, data, consumed, e)
  }

  /** A write that stops at the block it has come to. */
  lemma AbortedWrite(g: Geometry, v: Vol, v1: Vol, v2: Vol, v': Vol, ino: nat, offset: nat, data: seq<byte>,
      consumed: nat, e: FsError)
    requires Safe(v, g.dataStart) && ino < |v.table| == |v1.table| == |v2.table|
    requires Written(v, v1, g.dataStart, ino, offset, data, consumed, consumed)
    requires Takes(v, v1, ino, Paths(offset, consumed))
    requires consumed < |data|
    requires consumed > 0 ==> (offset + consumed) % 4032 == 0 && (offset + consumed - 1) / 4032 < MAX_INDEX
    requires var stop := (offset + consumed) / 4032;
             match e
             case BadBlock(m) => m == stop >= MAX_INDEX && v2 == v1
             case NoSpace =>
               && stop < MAX_INDEX && T(v2, ino, SlotOf(stop)) == 0 && AllTaken(v2, g.dataStart)
               && Grown(v1, v2, g.dataStart, ino, SlotOf(stop)) && Extends(v1.table[ino], v2.table[ino])
               && forall j :: 0 <= j < |v2.table| && j != ino ==> v2.table[j] == v1.table[j]
             case _ => false
    requires v' == v2.(table := v2.table[ino := v.table[ino]])
    ensures Safe(v', g.dataStart) && WriteAborted(g, v, v', ino, offset, data, consumed, e)
  {
    hide T, Page, Safe, SlotOf, PartlyWritten, Byte, NoLeak, OthersKept, Paths, Takes, AllTaken, LeftOver;
    var stop := (offset + consumed) / 4032;
    WrittenFills(v, v1, g.dataStart, ino, offset, data, consumed, consumed);
    WrittenFacts(v, v1, g.dataStart, ino, offset, data, consumed, consumed);
    TakesFits(v, v1, g.dataStart, ino, Paths(offset, consumed), Paths(offset, consumed));
    if e.NoSpace? {
      var room := Min(|data| - consumed, 4032 - (offset + consumed) % 4032);
      WrittenMap(v, v1, v2, g.dataStart, ino, offset, data, consumed, room);
      TakesTrans(v, v1, v2, g.dataStart, ino, Paths(offset, consumed), PathTo(SlotOf(stop)));
      PathsMore(offset, consumed, 1);
      TakesShort(v, v2, g.dataStart, ino, Paths(offset, consumed + 1), SlotOf(stop));
      DroppedLeaves(v, v2, v', ino, Paths(offset, consumed + 1));
      SameAllocated(v2, v', g.dataStart);
    } else {
      TakesAll(v, v1, g.dataStart, ino, Paths(offset, consumed));
      assert FreeData(v', g.dataStart) == FreeData(v1, g.dataStart);
      DroppedLeaves(v, v2, v', ino, Paths(offset, consumed));
    }
    WriteDropped(v, v2, v', g.dataStart, ino, offset, data, consumed);
  }

  lemma SameAllocated(v: Vol, v': Vol, lo: nat)
    requires v'.used == v.used && |v'.data| == |v.data| && AllTaken(v, lo)
    ensures AllTaken(v', lo)
  {
  }

  /** The number of bytes of a write that lie within the mapping's reach. */
  function Mappable(offset: nat, len: nat): nat {
    if offset < MAX_INDEX * 4032 then Min(len, MAX_INDEX * 4032 - offset) else 0
  }

  /** The outcome of copying `len` bytes to inode `ino` from `offset` on: as far as blocks can be
      mapped, there have to be as many free ones as the data blocks and tables that are missing. */
  ghost function CopyResult(g: Geometry, v: Vol, ino: nat, offset: nat, len: nat): Result<()> {
    if |Lacking(v, ino, Paths(offset, Mappable(offset, len)))| > |FreeData(v, g.dataStart)| then Err(NoSpace)
    else if Mappable(offset, len) < len then Err(BadBlock(Max(offset / 4032, MAX_INDEX)))
    else Ok(())
  }

  /** The outcome of a write. */
  ghost function WriteResult(g: Geometry, v: Vol, ino: nat, offset: nat, len: nat): Result<nat>
    requires |v.table| == g.inodeCount + 1
  {
    if ino == 0 || ino > g.inodeCount || !v.table[ino].Live() then Err(NotFound)
    else if v.table[ino].IsDir() then Err(IsDir)
    else if offset + len > MAX_U64 then Err(Manifest)
    else
      match CopyResult(g, v, ino, offset, len)
      case Err(e) => Err(e)
      case Ok(_) => Ok(len)
  }

  /** A write that succeeds had the blocks it needed, and leaves the others free. */
  lemma {:induction false} DoneResult(g: Geometry, v: Vol, v': Vol, ino: nat, offset: nat, data: seq<byte>)
    requires |v.table| == g.inodeCount + 1 && WriteDone(g, v, v', ino, offset, data) && Safe(v', g.dataStart)
    requires offset + |data| <= MAX_U64
    ensures WriteResult(g, v, ino, offset, |data|) == Ok(|data|)
    ensures |FreeData(v', g.dataStart)| == |FreeData(v, g.dataStart)| - |Lacking(v, ino, Paths(offset, |data|))|
  {
    hide T, Page, Safe, SlotOf, Byte, Exact, TrimAt, Paths, Takes, Contents, OthersKept;
    TakesFits(v, v', g.dataStart, ino, Paths(offset, |data|), Paths(offset, |data|));
    TakesAll(v, v', g.dataStart, ino, Paths(offset, |data|));
    assert Mappable(offset, |data|) == |data|;
  }

  /** Copying that has come to its end had the blocks it needed. */
  lemma CopiedResult(g: Geometry, v: Vol, v1: Vol, ino: nat, offset: nat, data: seq<byte>)
    requires ino < |v.table| && Written(v, v1, g.dataStart, ino, offset, data, |data|, |data|)
    requires Takes(v, v1, ino, Paths(offset, |data|)) && (data != [] ==> (offset + |data| - 1) / 4032 < MAX_INDEX)
    ensures CopyResult(g, v, ino, offset, |data|) == Ok(())
  {
    hide T, Page, SlotOf, Byte, Paths, Takes;
    WrittenFacts(v, v1, g.dataStart, ino, offset, data, |data|, |data|);
    WrittenFills(v, v1, g.dataStart, ino, offset, data, |data|, |data|);
    TakesFits(v, v1, g.dataStart, ino, Paths(offset, |data|), Paths(offset, |data|));
    assert Mappable(offset, |data|) == |data|;
  }

  /** Copying that stops half-way did not. */
  lemma {:induction false} AbortedResult(g: Geometry, v: Vol, v': Vol, ino: nat, offset: nat, data: seq<byte>,
      consumed: nat, e: FsError)
    requires WriteAborted(g, v, v', ino, offset, data, consumed, e)
    ensures CopyResult(g, v, ino, offset, |data|) == Err(e)
  {
    hide T, Page, Safe, SlotOf, Byte, Paths, PartlyWritten, LeftOver, AllTaken;
    var reach := Mappable(offset, |data|);
    if e.NoSpace? {
      assert consumed + 1 <= reach;
      PathsWithin(offset, consumed + 1, reach);
      LackingMore(v, ino, Paths(offset, consumed + 1), Paths(offset, reach));
    } else {
      assert reach == consumed;
    }
  }

  lemma PathsWithin(offset: nat, len: nat, more: nat)
    requires len <= more
    ensures Paths(offset, len) <= Paths(offset, more)
  {
    hide SlotOf, Paths;
    forall s | s in Paths(offset, len)
      ensures s in Paths(offset, more)
    {
      InPaths(offset, len, s);
      InPaths(offset, more, s);
      var m: nat :| Covers(offset, len, m) && OnPath(s, SlotOf(m));
      assert Covers(offset, more, m);
    }
  }

  lemma LackingMore(v: Vol, i: nat, slots: set<Slot>, more: set<Slot>)
    requires slots <= more
    ensures |Lacking(v, i, slots)| <= |Lacking(v, i, more)|
  {
    hide T;
    SubsetSize(Lacking(v, i, slots), Lacking(v, i, more));
  }

  /** The outcome of a read: the bytes of the range below the size, or the first logical block
      beyond the mapping's reach. */
  function ReadResult(g: Geometry, v: Vol, ino: nat, offset: nat, len: nat): Result<seq<byte>>
    requires |v.table| == g.inodeCount + 1
  {
    if ino == 0 || ino > g.inodeCount || !v.table[ino].Live() then Err(NotFound)
    else if v.table[ino].IsDir() then Err(IsDir)
    else if offset >= v.table[ino].size || len == 0 then Ok([])
    else
      var end := Min(v.table[ino].size, offset + len);
      if (end - 1) / 4032 >= MAX_INDEX then Err(BadBlock(Max(offset / 4032, MAX_INDEX)))
      else Ok(Contents(v, ino)[offset..end])
  }

  /** A truncate fails only on what is not a file, or when it would have to look up a partly kept
      block beyond the mapping's reach. */
  function TruncateOutcome(g: Geometry, v: Vol, ino: nat, size: nat): Result<()>
    requires |v.table| == g.inodeCount + 1
  {
    if ino == 0 || ino > g.inodeCount || !v.table[ino].Live() then Err(NotFound)
    else if v.table[ino].IsDir() then Err(IsDir)
    else if size < v.table[ino].size && size % 4032 != 0 && size / 4032 >= MAX_INDEX then Err(BadBlock(size / 4032))
    else Ok(())
  }

  lemma ResizedSafe(v: Vol, v': Vol, lo: nat, i: nat, size: nat)
    requires Resized(v, v', lo, i, size)
    ensures Safe(v', lo)
  {
  }

  lemma TailTable(v: Vol, v': Vol, lo: nat, i: nat, size: nat)
    requires TailZeroed(v, v', lo, i, size)
    ensures v'.table == v.table
  {
  }

  /** The outcomes a read has before it looks at any block. */
  lemma ReadEarly(g: Geometry, v: Vol, ino: nat, offset: nat, len: nat)
    requires |v.table| == g.inodeCount + 1
    ensures var r := ReadResult(g, v, ino, offset, len);
            && (ino == 0 || ino > g.inodeCount || !v.table[ino].Live() ==> r == Err(NotFound))
            && (0 < ino <= g.inodeCount && v.table[ino].Live() ==>
              && (v.table[ino].IsDir() ==> r == Err(IsDir))
              && (!v.table[ino].IsDir() && (offset >= v.table[ino].size || len == 0) ==> r == Ok([])))
  {
  }

  /** A read that has come to an unmappable block. */
  lemma ReadStops(g: Geometry, v: Vol, ino: nat, offset: nat, len: nat, position: nat)
    requires |v.table| == g.inodeCount + 1 && IsFile(g, v, ino)
    requires offset <= position < Min(v.table[ino].size, offset + len)
    requires position / 4032 >= MAX_INDEX && (position > offset ==> (position - 1) / 4032 < MAX_INDEX)
    ensures ReadResult(g, v, ino, offset, len) == Err(BadBlock(position / 4032))
  {
    hide T, Page, Byte, Contents;
  }

  /** A read that has come to its end. */
  lemma ReadEnds(g: Geometry, v: Vol, ino: nat, offset: nat, len: nat)
    requires |v.table| == g.inodeCount + 1 && IsFile(g, v, ino) && offset < v.table[ino].size && len > 0
    requires (Min(v.table[ino].size, offset + len) - 1) / 4032 < MAX_INDEX
    ensures ReadResult(g, v, ino, offset, len) == Ok(Contents(v, ino)[offset..Min(v.table[ino].size, offset + len)])
  {
    hide T, Page, Byte, Contents;
  }

  lemma LookupCases(v: Vol, i: nat, index: nat)
    ensures if index >= MAX_INDEX then LookupResult(v, i, index) == Err(BadBlock(index))
      else LookupResult(v, i, index).Ok?
  {
    hide T, SlotOf;
  }

  /** A successful write lays its data over the contents exactly when no byte between the old end
      and the offset is left over from an operation that failed. */
  lemma WriteSplicesIff(g: Geometry, v: Vol, v': Vol, ino: nat, offset: nat, data: seq<byte>)
    requires |v.table| == g.inodeCount + 1 && WriteDone(g, v, v', ino, offset, data)
    ensures Contents(v', ino) == Splice(Contents(v, ino), offset, data) <==>
            forall pos: nat {:trigger Byte(v, ino, pos)} :: v.table[ino].size <= pos < offset ==> Byte(v, ino, pos) == 0
  {
    hide T, Page, Byte, Exact, TrimAt;
    var c, r := Contents(v', ino), Splice(Contents(v, ino), offset, data);
    if c == r {
      forall pos: nat | v.table[ino].size <= pos < offset
        ensures Byte(v, ino, pos) == 0
      {
        assert c[pos] == r[pos];
        assert Byte(v', ino, pos) == Byte(v, ino, pos);
      }
    }
    if forall pos: nat {:trigger Byte(v, ino, pos)} :: v.table[ino].size <= pos < offset ==> Byte(v, ino, pos) == 0 {
      forall pos | 0 <= pos < |r|
        ensures c[pos] == r[pos]
      {
        assert c[pos] == Byte(v', ino, pos);
        assert v.table[ino].size <= pos < offset ==> Byte(v, ino, pos) == 0;
      }
      assert c == r;
    }
  }

  /** Reading any range after a successful write shows the old contents with the data laid over
      them, as far as blocks can be mapped. */
  lemma {:induction false} ReadAfterWrite(g: Geometry, v: Vol, v': Vol, ino: nat, offset: nat, data: seq<byte>,
      from: nat, len: nat)
    requires |v.table| == g.inodeCount + 1 && WriteDone(g, v, v', ino, offset, data) && TrimAt(v, ino)
    ensures var c := Splice(Contents(v, ino), offset, data);
            var end := Min(|c|, from + len);
            ReadResult(g, v', ino, from, len) ==
              if from >= |c| || len == 0 then Ok([])
              else if (end - 1) / 4032 >= MAX_INDEX then Err(BadBlock(Max(from / 4032, MAX_INDEX)))
              else Ok(c[from..end])
  {
    hide T, Page, Byte, Exact, TrimAt;
  }

  /** What was written is read back. */
  lemma ReadBack(g: Geometry, v: Vol, v': Vol, ino: nat, offset: nat, data: seq<byte>)
    requires |v.table| == g.inodeCount + 1 && WriteDone(g, v, v', ino, offset, data)
    ensures data != [] ==> ReadResult(g, v', ino, offset, |data|) == Ok(data)
  {
    hide T, Page, Byte, Exact, TrimAt;
    if data != [] {
      var c := Contents(v', ino);
      forall k | 0 <= k < |data|
        ensures c[offset..offset + |data|][k] == data[k]
      {
        assert c[offset + k] == Byte(v', ino, offset + k);
      }
      assert c[offset..offset + |data|] == data;
    }
  }

  /** Other inodes read as before. */
  lemma ReadOthers(g: Geometry, v: Vol, v': Vol, ino: nat, j: nat, from: nat, len: nat)
    requires |v.table| == g.inodeCount + 1 && OthersKept(v, v', ino) && j != ino
    ensures ReadResult(g, v', j, from, len) == ReadResult(g, v, j, from, len)
  {
    hide T, Page;
    if j < |v.table| {
      forall pos: nat
        ensures Byte(v', j, pos) == Byte(v, j, pos)
      {
        assert Page(v', j, pos / 4032) == Page(v, j, pos / 4032);
      }
      assert Contents(v', j) == Contents(v, j);
    }
  }
}
