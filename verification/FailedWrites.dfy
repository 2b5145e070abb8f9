/** What a write that fails on the way leaves behind, and when a later operation shows it. */
module FailedWrites {
  import opened Bytes
  import opened Wrappers
  import opened Inodes
  import opened Geometry
  import BlockStores
  import opened Volume
  import opened Space
  import opened Files
  import opened FileOps

  /** A failed write leaves a file with a clean end, so that later operations show what they
      should, exactly when what it copied before it stopped leaves nothing behind. */
  lemma FailedWriteClean(g: Geometry, v: Vol, v': Vol, ino: nat, offset: nat, data: seq<byte>, consumed: nat,
      e: FsError)
    requires WriteAborted(g, v, v', ino, offset, data, consumed, e) && TrimAt(v, ino)
    ensures TrimAt(v', ino) <==> NothingBehind(v.table[ino], offset, data[..consumed])
    ensures offset + consumed <= v.table[ino].size ==> TrimAt(v', ino)
  {
    hide PartlyWritten, TrimAt, NothingBehind, T, SlotOf;
    PartlyFacts(v, v', ino, offset, data, consumed);
    CleanEndSurvivesIff(v, v', ino, offset, data, consumed);
    if offset + consumed <= v.table[ino].size {
      InsideLeavesNothing(v.table[ino], offset, data[..consumed]);
    }
  }

  /** Of the bytes of `data` from `offset` on, those from the end of inode `n` up to `to` are
      zero, or lie under a pointer `n` does not have. */
  ghost predicate NothingUncovered(n: Inode, offset: nat, data: seq<byte>, to: nat) {
    forall k {:trigger data[k]} :: 0 <= k < |data| && n.size <= offset + k < to && data[k] != 0 ==>
      RootPointer(n, SlotOf((offset + k) / 4032)) == 0
  }

  /** The bytes of a file past its end, once a write to it has failed. */
  lemma UncoveredIff(v: Vol, v': Vol, i: nat, offset: nat, data: seq<byte>, consumed: nat, to: nat)
    requires PartlyWritten(v, v', i, offset, data, consumed) && TrimAt(v, i)
    ensures (forall pos: nat {:trigger Byte(v', i, pos)} :: v.table[i].size <= pos < to ==> Byte(v', i, pos) == 0)
       <==> NothingUncovered(v.table[i], offset, data[..consumed], to)
  {
    hide T, Byte, SlotOf, OthersKept;
    var n, part := v.table[i], data[..consumed];
    forall pos: nat | n.size <= pos
      ensures Byte(v, i, pos) == 0
    {
    }
    if forall pos: nat {:trigger Byte(v', i, pos)} :: n.size <= pos < to ==> Byte(v', i, pos) == 0 {
      forall k | 0 <= k < consumed && n.size <= offset + k < to && part[k] != 0
        ensures RootPointer(n, SlotOf((offset + k) / 4032)) == 0
      {
        assert Byte(v', i, offset + k) == 0;
      }
    }
    if NothingUncovered(n, offset, part, to) {
      forall pos: nat | n.size <= pos < to
        ensures Byte(v', i, pos) == 0
      {
        if offset <= pos < offset + consumed {
          assert part[pos - offset] == data[pos - offset];
        }
      }
    }
  }

  /** A truncate after a failed write resizes the contents exactly when no byte that was copied
      and that it uncovers is left. */
  lemma TruncateAfterFailureIff(g: Geometry, v: Vol, v1: Vol, v2: Vol, ino: nat, offset: nat, data: seq<byte>,
      consumed: nat, e: FsError, size: nat)
    requires WriteAborted(g, v, v1, ino, offset, data, consumed, e) && TrimAt(v, ino)
    requires Resized(v1, v2, g.dataStart, ino, size)
    ensures Contents(v2, ino) == Resize(Contents(v1, ino), size) <==>
      NothingUncovered(v.table[ino], offset, data[..consumed], size)
  {
    hide PartlyWritten, TrimAt, NothingUncovered, T, SlotOf, Resized, Byte, Contents;
    PartlyFacts(v, v1, ino, offset, data, consumed);
    UncoveredIff(v, v1, ino, offset, data, consumed, size);
    ResizedContentsIff(v1, v2, g.dataStart, ino, size);
  }

  /** A write after a failed write lays its data over the contents exactly when no byte that was
      copied shows between the old end and its offset. */
  lemma WriteAfterFailureIff(g: Geometry, v: Vol, v1: Vol, v2: Vol, ino: nat, offset: nat, data: seq<byte>,
      consumed: nat, e: FsError, offset': nat, data': seq<byte>)
    requires WriteAborted(g, v, v1, ino, offset, data, consumed, e) && TrimAt(v, ino)
    requires |v1.table| == g.inodeCount + 1 && WriteDone(g, v1, v2, ino, offset', data')
    ensures Contents(v2, ino) == Splice(Contents(v1, ino), offset', data') <==>
            NothingUncovered(v.table[ino], offset, data[..consumed], offset')
  {
    hide PartlyWritten, TrimAt, NothingUncovered, T, SlotOf, WriteDone, Byte, Contents;
    PartlyFacts(v, v1, ino, offset, data, consumed);
    UncoveredIff(v, v1, ino, offset, data, consumed, offset');
    DoneIsFile(g, v1, v2, ino, offset', data');
    WriteSplicesIff(g, v1, v2, ino, offset', data');
  }

  lemma DoneIsFile(g: Geometry, v: Vol, v': Vol, ino: nat, offset: nat, data: seq<byte>)
    requires |v.table| == g.inodeCount + 1 && WriteDone(g, v, v', ino, offset, data)
    ensures ino < |v.table| == |v'.table|
  {
  }

  // ---------------------------------------------------------------- block counts

  /** The logical blocks that `len` bytes from `offset` on bring to inode `i` under pointers it
      had before: a write that fails maps them without counting them. */
  ghost function Uncounted(v: Vol, i: nat, offset: nat, len: nat): set<nat>
    requires i < |v.table|
  {
    set m: nat | m < MAX_INDEX && Covers(offset, len, m) && T(v, i, SlotOf(m)) == 0
      && RootPointer(v.table[i], SlotOf(m)) != 0
  }

  lemma UncountedMapped(v: Vol, v': Vol, i: nat, offset: nat, data: seq<byte>, consumed: nat)
    requires PartlyWritten(v, v', i, offset, data, consumed)
    ensures Mapped(v', i) == Mapped(v, i) + Uncounted(v, i, offset, consumed)
    ensures |Mapped(v', i)| == |Mapped(v, i)| + |Uncounted(v, i, offset, consumed)|
    ensures forall j: nat {:trigger Mapped(v', j)} :: j != i ==> Mapped(v', j) == Mapped(v, j)
  {
    hide T, SlotOf, Byte, Page;
    forall m: nat
      ensures m in Mapped(v', i) <==> m in Mapped(v, i) || m in Uncounted(v, i, offset, consumed)
    {
    }
    forall j: nat | j != i
      ensures Mapped(v', j) == Mapped(v, j)
    {
      assert forall m: nat :: T(v', j, SlotOf(m)) == T(v, j, SlotOf(m));
    }
  }

  /** Exact block counts survive a failed write exactly when none of the blocks it mapped before
      it stopped went under a pointer the inode had already.  The blocks in question are what the
      stored count is short of. */
  lemma CountedSurvivesIff(g: Geometry, v: Vol, v': Vol, ino: nat, offset: nat, data: seq<byte>, consumed: nat,
      e: FsError)
    requires WriteAborted(g, v, v', ino, offset, data, consumed, e) && Counted(v)
    ensures ino < |v.table| == |v'.table|
    ensures Counted(v') <==> Uncounted(v, ino, offset, consumed) == {}
    ensures Mapped(v', ino) == Mapped(v, ino) + Uncounted(v, ino, offset, consumed)
    ensures |Mapped(v', ino)| == v'.table[ino].blockCount + |Uncounted(v, ino, offset, consumed)|
    ensures Shortfall(v', ino) == |Uncounted(v, ino, offset, consumed)|
  {
    hide T, SlotOf, Byte, Page, Mapped, Uncounted, LeftOver, Paths;
    UncountedMapped(v, v', ino, offset, data, consumed);
    UncountedBound(v, ino, offset, consumed);
    assert v'.table[ino].blockCount == |Mapped(v, ino)|;
  }

  lemma UncountedBound(v: Vol, i: nat, offset: nat, len: nat)
    requires i < |v.table|
    ensures |Uncounted(v, i, offset, len)| <= MAX_INDEX
  {
    hide T, SlotOf;
    SubsetSize(Uncounted(v, i, offset, len), BlockStores.Below(MAX_INDEX));
  }

  /** Resizes after a failed write keep the shortfall; when nothing is mapped any more the stored
      count has gone that far below zero. */
  lemma CountBelowZero(v: Vol, v1: Vol, v2: Vol, lo: nat, i: nat, larger: nat, smaller: nat)
    requires Resized(v, v1, lo, i, larger) && Resized(v1, v2, lo, i, smaller) && Mapped(v2, i) == {}
    ensures i < |v2.table| == |v.table|
    ensures v2.table[i].blockCount == if Shortfall(v, i) == 0 then 0 else 0x1_0000_0000 - Shortfall(v, i)
  {
    hide Safe, OthersKept, Byte, Mapped, MappedOutside;
  }
}
