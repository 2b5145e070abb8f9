/** The bytes of a file, and what writing, truncating and freeing do to them. */
module Files {
  import opened Bytes
  import opened Layout
  import opened Inodes
  import opened Volume

  /** Byte `pos` of inode `i`, whatever its size; unmapped parts read as zero. */
  function Byte(v: Vol, i: nat, pos: nat): byte {
    Page(v, i, pos / 4032)[pos % 4032]
  }

  /** The contents of inode `i`. */
  function Contents(v: Vol, i: nat): seq<byte>
    requires i < |v.table|
  {
    seq(v.table[i].size, pos => if 0 <= pos then Byte(v, i, pos) else 0)
  }

  /** Bytes `from..to` of inode `i`. */
  function ByteRange(v: Vol, i: nat, from: nat, to: nat): (s: seq<byte>)
    requires from <= to
    ensures |s| == to - from
    ensures forall p {:trigger s[p]} :: 0 <= p < |s| ==> s[p] == Byte(v, i, from + p)
  {
    var all := seq(to, pos => if 0 <= pos then Byte(v, i, pos) else 0);
    all[from..]
  }

  /** A range grows by a piece of the block it ends in. */
  lemma RangeStep(v: Vol, i: nat, from: nat, mid: nat, take: nat)
    requires from <= mid && mid % 4032 + take <= 4032
    ensures ByteRange(v, i, from, mid) + Page(v, i, mid / 4032)[mid % 4032..mid % 4032 + take] ==
      ByteRange(v, i, from, mid + take)
  {
    hide Page;
    var chunk := Page(v, i, mid / 4032)[mid % 4032..mid % 4032 + take];
    forall q | 0 <= q < take
      ensures chunk[q] == Byte(v, i, mid + q)
    {
      assert (mid + q) / 4032 == mid / 4032 && (mid + q) % 4032 == mid % 4032 + q;
    }
  }

  lemma RangeIsContents(v: Vol, i: nat, from: nat, to: nat)
    requires i < |v.table| && from <= to <= v.table[i].size
    ensures ByteRange(v, i, from, to) == Contents(v, i)[from..to]
  {
    hide Byte;
    assert ByteRange(v, i, from, to) == Contents(v, i)[from..to];
  }

  /** Nothing is mapped past the end of inode `i`, and the unused end of its last block is zero. */
  ghost predicate TrimAt(v: Vol, i: nat)
    requires i < |v.table|
  {
    && (forall index: nat {:trigger T(v, i, SlotOf(index))} :: T(v, i, SlotOf(index)) != 0 ==>
      index * 4032 < v.table[i].size)
    && (forall pos: nat {:trigger Byte(v, i, pos)} :: v.table[i].size <= pos ==> Byte(v, i, pos) == 0)
  }

  ghost predicate Trim(v: Vol) {
    forall i :: 0 <= i < |v.table| ==> TrimAt(v, i)
  }

  /** A free inode record is all zero. */
  ghost predicate IdleClean(v: Vol) {
    forall i {:trigger v.table[i]} :: 0 <= i < |v.table| && !v.table[i].Live() ==> v.table[i] == FREE_INODE
  }

  /** The invariant of runs in which no operation failed half-way. */
  ghost predicate Exact(v: Vol, lo: nat) {
    Tight(v, lo) && Trim(v) && IdleClean(v)
  }

  lemma IdleKept(v: Vol, v': Vol, i: nat)
    requires IdleClean(v) && i < |v.table| && OthersKept(v, v', i)
    requires v'.table[i].Live() || v'.table[i] == FREE_INODE
    ensures IdleClean(v')
  {
    hide T, Page;
  }

  /** Every inode but `i` is as it was: its record, its blocks, its bytes. */
  ghost predicate OthersKept(v: Vol, v': Vol, i: nat) {
    && |v'.table| == |v.table|
    && (forall j {:trigger v'.table[j]} :: 0 <= j < |v.table| && j != i ==> v'.table[j] == v.table[j])
    && (forall j: nat, t: Slot {:trigger T(v', j, t)} :: j != i ==> T(v', j, t) == T(v, j, t))
    && (forall j: nat, index: nat {:trigger Page(v', j, index)} :: j != i ==> Page(v', j, index) == Page(v, j, index))
  }

  /** Changing only size, mode, owner, links or times of inodes moves no pointer. */
  lemma SameTree(v: Vol, i: nat, n': Inode, v': Vol, lo: nat)
    requires i < |v.table| && SamePointers(v.table[i], n') && n'.blockCount == v.table[i].blockCount
    requires v' == v.(table := v.table[i := n'])
    ensures forall j: nat, t: Slot {:trigger T(v', j, t)} :: T(v', j, t) == T(v, j, t)
    ensures forall j: nat, index: nat {:trigger Page(v', j, index)} :: Page(v', j, index) == Page(v, j, index)
    ensures Safe(v, lo) ==> Safe(v', lo)
    ensures NoLeak(v, lo) ==> NoLeak(v', lo)
    ensures Full(v) ==> Full(v')
    ensures Counted(v) ==> Counted(v')
    ensures OthersKept(v, v', i)
  {
    assert forall j: nat, t: Slot {:trigger T(v', j, t)} :: T(v', j, t) == T(v, j, t);
    SameTargets(v, v', lo);
  }

  lemma SameTargets(v: Vol, v': Vol, lo: nat)
    requires forall j: nat, t: Slot {:trigger T(v', j, t)} {:trigger T(v, j, t)} :: T(v', j, t) == T(v, j, t)
    requires |v'.table| == |v.table| && v'.used == v.used && v'.owner == v.owner && |v'.data| == |v.data|
    requires forall j :: 0 <= j < |v.table| ==> v'.table[j].blockCount == v.table[j].blockCount
    ensures Safe(v, lo) ==> Safe(v', lo)
    ensures NoLeak(v, lo) ==> NoLeak(v', lo)
    ensures Full(v) ==> Full(v')
    ensures Counted(v) ==> Counted(v')
  {
    hide T;
    if Full(v) {
      forall j: nat, s: Slot | T(v', j, s) != 0
        ensures HasChild(v', j, s)
      {
        assert T(v, j, s) != 0;
        ChildKept(v, v', j, s);
      }
    }
    if Counted(v) {
      forall j | 0 <= j < |v.table|
        ensures v'.table[j].blockCount == |Mapped(v', j)|
      {
        assert Mapped(v', j) == Mapped(v, j);
      }
    }
  }

  // ---------------------------------------------------------------- writing

  /** Logical block `index` holds a byte of the `len` bytes from `offset` on. */
  predicate Covers(offset: nat, len: nat, index: nat) {
    len > 0 && offset / 4032 <= index && index * 4032 < offset + len
  }

  /** The slots on the way to the blocks of `len` bytes from `offset` on. */
  ghost function Paths(offset: nat, len: nat): set<Slot> {
    set m: nat, s: Slot | offset / 4032 <= m < offset + len && Covers(offset, len, m) && s in PathTo(SlotOf(m)) :: s
  }

  lemma InPaths(offset: nat, len: nat, s: Slot)
    ensures s in Paths(offset, len) <==> exists m: nat :: Covers(offset, len, m) && OnPath(s, SlotOf(m))
  {
    hide SlotOf;
    if m: nat :| Covers(offset, len, m) && OnPath(s, SlotOf(m)) {
      assert s in PathTo(SlotOf(m));
    }
  }

  lemma PathsMore(offset: nat, len: nat, more: nat)
    requires 0 < more && (offset + len) % 4032 + more <= 4032
    ensures Paths(offset, len + more) == Paths(offset, len) + PathTo(SlotOf((offset + len) / 4032))
  {
    hide SlotOf, Covers, Paths;
    CoversMore(offset, len, more);
    var last := (offset + len) / 4032;
    forall s: Slot
      ensures s in Paths(offset, len + more) <==> s in Paths(offset, len) || OnPath(s, SlotOf(last))
    {
      InPaths(offset, len, s);
      InPaths(offset, len + more, s);
      if s in Paths(offset, len + more) {
        var m: nat :| Covers(offset, len + more, m) && OnPath(s, SlotOf(m));
      }
      if s in Paths(offset, len) {
        var m: nat :| Covers(offset, len, m) && OnPath(s, SlotOf(m));
        assert Covers(offset, len + more, m);
      }
      assert Covers(offset, len + more, last);
    }
  }

  /** How far a write of `data` at `offset` of inode `i` has come: `consumed` bytes are copied and
      the blocks of the first `reach` are mapped. */
  ghost predicate Written(v: Vol, v': Vol, lo: nat, i: nat, offset: nat, data: seq<byte>, consumed: nat, reach: nat) {
    && consumed <= reach <= |data| && i < |v.table|
    && |v'.data| == |v.data|
    && Safe(v', lo)
    && OthersKept(v, v', i)
    && Extends(v.table[i], v'.table[i])
    && (forall pos: nat {:trigger Byte(v', i, pos)} ::
      Byte(v', i, pos) == if offset <= pos < offset + consumed then data[pos - offset] else Byte(v, i, pos))
    && (forall index: nat {:trigger T(v', i, SlotOf(index))} ::
      T(v', i, SlotOf(index)) != 0 <==> T(v, i, SlotOf(index)) != 0 || Covers(offset, reach, index))
    && (NoLeak(v, lo) ==> NoLeak(v', lo))
  }

  /** Each of `slots` of inode `i` has its block. */
  ghost predicate Filled(v: Vol, i: nat, slots: set<Slot>) {
    forall s: Slot {:trigger T(v, i, s)} :: s in slots ==> T(v, i, s) != 0
  }

  /** The blocks a write has reached are mapped, and so are the tables above them. */
  lemma WrittenFills(v: Vol, v1: Vol, lo: nat, i: nat, offset: nat, data: seq<byte>, consumed: nat, reach: nat)
    requires Written(v, v1, lo, i, offset, data, consumed, reach)
    ensures Filled(v1, i, Paths(offset, reach))
  {
    hide T, Page, Safe, NoLeak, SlotOf, OthersKept, Extends, Byte, Paths, Covers;
    forall s: Slot | s in Paths(offset, reach)
      ensures T(v1, i, s) != 0
    {
      InPaths(offset, reach, s);
      var m: nat :| Covers(offset, reach, m) && OnPath(s, SlotOf(m));
      assert T(v1, i, SlotOf(m)) != 0;
      LeafNeedsPath(v1, i, SlotOf(m), s);
    }
  }

  lemma WrittenStart(v: Vol, lo: nat, i: nat, offset: nat, data: seq<byte>)
    requires Safe(v, lo) && i < |v.table|
    ensures Written(v, v, lo, i, offset, data, 0, 0)
  {
  }

  lemma WrittenFacts(v: Vol, v': Vol, lo: nat, i: nat, offset: nat, data: seq<byte>, consumed: nat, reach: nat)
    requires Written(v, v', lo, i, offset, data, consumed, reach)
    ensures Safe(v', lo) && |v'.data| == |v.data| && Extends(v.table[i], v'.table[i])
  {
  }

  /** Mapping the block the write has reached changes no byte; it is mapped afterwards unless
      there was no block for it. */
  lemma WrittenMap(v: Vol, v1: Vol, v2: Vol, lo: nat, i: nat, offset: nat, data: seq<byte>, consumed: nat, take: nat)
    requires Written(v, v1, lo, i, offset, data, consumed, consumed) && i < |v2.table|
    requires Grown(v1, v2, lo, i, SlotOf((offset + consumed) / 4032)) && Extends(v1.table[i], v2.table[i])
    requires forall j :: 0 <= j < |v2.table| && j != i ==> v2.table[j] == v1.table[j]
    requires 0 < take && consumed + take <= |data| && (offset + consumed) % 4032 + take <= 4032
    ensures T(v2, i, SlotOf((offset + consumed) / 4032)) == 0 ==>
      Written(v, v2, lo, i, offset, data, consumed, consumed)
    ensures T(v2, i, SlotOf((offset + consumed) / 4032)) != 0 ==>
      Written(v, v2, lo, i, offset, data, consumed, consumed + take)
  {
    hide T, Page, Safe, NoLeak, SlotOf;
    var logical := (offset + consumed) / 4032;
    forall pos: nat
      ensures Byte(v2, i, pos) == Byte(v1, i, pos)
    {
      assert Page(v2, i, pos / 4032) == Page(v1, i, pos / 4032);
    }
    forall j: nat, t: Slot | j != i
      ensures T(v2, j, t) == T(v, j, t)
    {
      assert T(v2, j, t) == T(v1, j, t);
    }
    forall j: nat, index: nat | j != i
      ensures Page(v2, j, index) == Page(v, j, index)
    {
      assert Page(v2, j, index) == Page(v1, j, index);
    }
    CoversMore(offset, consumed, take);
    forall index: nat
      ensures T(v2, i, SlotOf(index)) != 0 <==>
              T(v, i, SlotOf(index)) != 0 || Covers(offset, consumed, index)
                || (index == logical && T(v2, i, SlotOf(index)) != 0)
    {
      assert T(v1, i, SlotOf(index)) != 0 <==> T(v, i, SlotOf(index)) != 0 || Covers(offset, consumed, index);
      if index != logical && OnPath(SlotOf(index), SlotOf(logical)) {
        LeafOnPath(index, logical);
      }
    }
  }

  lemma CoversMore(offset: nat, len: nat, more: nat)
    requires 0 < more && (offset + len) % 4032 + more <= 4032
    ensures forall index: nat {:trigger Covers(offset, len, index)} {:trigger Covers(offset, len + more, index)} ::
      Covers(offset, len + more, index) <==> Covers(offset, len, index) || index == (offset + len) / 4032
  {
    var first, last, within := offset / 4032, (offset + len) / 4032, (offset + len) % 4032;
    assert offset + len == last * 4032 + within;
    assert first <= last;
    forall index: nat
      ensures Covers(offset, len + more, index) <==> Covers(offset, len, index) || index == last
    {
      if first <= index {
        assert index * 4032 < last * 4032 + within + more <==> index <= last;
        assert index < last ==> index * 4032 < last * 4032;
      }
      if len == 0 {
        assert first == last;
      }
    }
  }

  lemma LeafOnPath(index: nat, m: nat)
    requires OnPath(SlotOf(index), SlotOf(m))
    ensures index == m
  {
    SlotOfInjective(index, m);
  }

  /** Copying the next chunk into its block advances the write by that chunk. */
  lemma WrittenCopy(v: Vol, v1: Vol, v2: Vol, lo: nat, i: nat, offset: nat, data: seq<byte>, consumed: nat, take: nat)
    requires Written(v, v1, lo, i, offset, data, consumed, consumed + take) && 0 < take
    requires var (logical, within) := ((offset + consumed) / 4032, (offset + consumed) % 4032);
             && within + take <= 4032 && consumed + take <= |data|
             && var b := T(v1, i, SlotOf(logical));
             && 0 < b < |v1.data|
             && v2 == v1.(data := v1.data[b := Patch(v1.data[b], within, data[consumed..consumed + take])])
    ensures Written(v, v2, lo, i, offset, data, consumed + take, consumed + take)
    ensures Full(v1) ==> Full(v2)
    ensures Counted(v1) ==> Counted(v2)
  {
    var (logical, within) := ((offset + consumed) / 4032, (offset + consumed) % 4032);
    var b := T(v1, i, SlotOf(logical));
    LeafWrite(v1, lo, i, SlotOf(logical), v2.data[b], v2);
    PagesAfterLeafWrite(v1, v2, lo, i, logical);
    hide T, Page, Safe, Full, Counted, NoLeak;
    SameTargets(v1, v2, lo);
    CopiedBytes(v, v1, v2, i, offset, data, consumed, take);
  }

  /** Copying bytes into a mapped block takes no block. */
  lemma CopyTakes(v: Vol, v1: Vol, v2: Vol, lo: nat, i: nat, m: nat, slots: set<Slot>)
    requires Safe(v1, lo) && Takes(v, v1, i, slots) && 0 < T(v1, i, SlotOf(m)) < |v1.data| == |v2.data|
    requires v2 == v1.(data := v1.data[T(v1, i, SlotOf(m)) := v2.data[T(v1, i, SlotOf(m))]])
    ensures Takes(v, v2, i, slots)
  {
    var b := T(v1, i, SlotOf(m));
    LeafWrite(v1, lo, i, SlotOf(m), v2.data[b], v2);
    hide T, Safe;
  }

  lemma CopiedBytes(v: Vol, v1: Vol, v2: Vol, i: nat, offset: nat, data: seq<byte>, consumed: nat, take: nat)
    requires consumed + take <= |data|
    requires forall pos: nat {:trigger Byte(v1, i, pos)} ::
      Byte(v1, i, pos) == if offset <= pos < offset + consumed then data[pos - offset] else Byte(v, i, pos)
    requires var (logical, within) := ((offset + consumed) / 4032, (offset + consumed) % 4032);
             && within + take <= 4032
             && Page(v2, i, logical) == Patch(Page(v1, i, logical), within, data[consumed..consumed + take])
             && forall m: nat {:trigger Page(v2, i, m)} :: m != logical ==> Page(v2, i, m) == Page(v1, i, m)
    ensures forall pos: nat {:trigger Byte(v2, i, pos)} ::
      Byte(v2, i, pos) == if offset <= pos < offset + consumed + take then data[pos - offset] else Byte(v, i, pos)
  {
    hide Page;
    forall pos: nat
      ensures Byte(v2, i, pos) == if offset <= pos < offset + consumed + take then data[pos - offset]
        else Byte(v, i, pos)
    {
      assert Byte(v1, i, pos) == if offset <= pos < offset + consumed then data[pos - offset] else Byte(v, i, pos);
      if pos / 4032 != (offset + consumed) / 4032 {
        assert Page(v2, i, pos / 4032) == Page(v1, i, pos / 4032);
      }
    }
  }

  lemma PagesAfterLeafWrite(v: Vol, v': Vol, lo: nat, i: nat, index: nat)
    requires Safe(v, lo) && T(v, i, SlotOf(index)) != 0 && |v'.data| == |v.data|
    requires forall c :: 0 <= c < |v.data| && c != T(v, i, SlotOf(index)) ==> v'.data[c] == v.data[c]
    requires forall j: nat, t: Slot {:trigger T(v', j, t)} :: T(v', j, t) == T(v, j, t)
    ensures forall j: nat, m: nat {:trigger Page(v', j, m)} ::
      Page(v', j, m) == if j == i && m == index then v'.data[T(v, i, SlotOf(index))] else Page(v, j, m)
  {
    var b := T(v, i, SlotOf(index));
    forall j: nat, m: nat
      ensures Page(v', j, m) == if j == i && m == index then v'.data[b] else Page(v, j, m)
    {
      hide SlotOf;
      if T(v, j, SlotOf(m)) == b {
        NoSharing(v, lo, i, SlotOf(index), j, SlotOf(m));
        SlotOfInjective(m, index);
      }
      assert T(v', j, SlotOf(m)) == T(v, j, SlotOf(m));
    }
  }

  /** Contents `c` with `data` laid over it at `offset`, zero-filled up to there. */
  function Splice(c: seq<byte>, offset: nat, data: seq<byte>): (r: seq<byte>)
    ensures |r| == Max(|c|, offset + |data|)
    ensures forall p {:trigger r[p]} :: 0 <= p < |r| ==>
      r[p] == if offset <= p < offset + |data| then data[p - offset] else if p < |c| then c[p] else 0
  {
    seq(Max(|c|, offset + |data|), p =>
      if offset <= p < offset + |data| then data[p - offset] else if 0 <= p < |c| then c[p] else 0)
  }

  /** Storing the inode of a finished write: size and bytes are those of the splice, nothing
      else changed, and the exact invariant survives. */
  lemma WriteFinished(v: Vol, v1: Vol, v': Vol, lo: nat, i: nat, offset: nat, data: seq<byte>, n': Inode)
    requires Written(v, v1, lo, i, offset, data, |data|, |data|)
    requires SamePointers(v1.table[i], n') && n'.blockCount == v1.table[i].blockCount
    requires n'.size == Max(v.table[i].size, offset + |data|) && n'.mode == v.table[i].mode && n'.Live()
    requires v' == v1.(table := v1.table[i := n'])
    requires Full(v) ==> Full(v1)
    requires Counted(v) ==> Counted(v1)
    ensures Safe(v', lo) && OthersKept(v, v', i)
    ensures forall pos: nat {:trigger Byte(v', i, pos)} ::
      Byte(v', i, pos) == if offset <= pos < offset + |data| then data[pos - offset] else Byte(v, i, pos)
    ensures Exact(v, lo) ==> Exact(v', lo)
    ensures TrimAt(v, i) ==> Contents(v', i) == Splice(Contents(v, i), offset, data)
    ensures Takes(v, v1, i, Paths(offset, |data|)) ==> Takes(v, v', i, Paths(offset, |data|))
    ensures Filled(v', i, Paths(offset, |data|))
  {
    SameTree(v1, i, n', v', lo);
    WrittenFills(v, v1, lo, i, offset, data, |data|, |data|);
    hide T, Page, Safe, Tight, SlotOf;
    assert forall pos: nat :: Byte(v', i, pos) == Byte(v1, i, pos) by {
      forall pos: nat
        ensures Byte(v', i, pos) == Byte(v1, i, pos)
      {
        assert Page(v', i, pos / 4032) == Page(v1, i, pos / 4032);
      }
    }
    if TrimAt(v, i) {
      assert TrimAt(v', i);
      assert Contents(v', i) == Splice(Contents(v, i), offset, data);
    }
    if Exact(v, lo) {
      TrimOthers(v, v', i);
      IdleKept(v, v', i);
    }
  }

  lemma TrimOthers(v: Vol, v': Vol, i: nat)
    requires Trim(v) && i < |v.table| && OthersKept(v, v', i) && TrimAt(v', i)
    ensures Trim(v')
  {
    hide T, Page, SlotOf;
    forall j: nat | j < |v'.table| && j != i
      ensures TrimAt(v', j)
    {
      assert TrimAt(v, j);
      forall pos: nat | v'.table[j].size <= pos
        ensures Byte(v', j, pos) == 0
      {
        assert Page(v', j, pos / 4032) == Page(v, j, pos / 4032);
        assert Byte(v, j, pos) == 0;
      }
    }
  }

  // ---------------------------------------------------------------- dropping a working copy

  /** The pointer of inode `n` that every path to slot `s` starts with. */
  function RootPointer(n: Inode, s: Slot): nat {
    match s
    case Direct(k) => if k < 12 then n.direct[k] else 0
    case Single => n.single
    case SLeaf(_) => n.single
    case _ => n.double
  }

  /** Every pointer of `n` is still there in `n'`. */
  predicate OlderPointers(n: Inode, n': Inode) {
    && (forall k :: 0 <= k < 12 ==> n.direct[k] == 0 || n.direct[k] == n'.direct[k])
    && (n.single == 0 || n.single == n'.single)
    && (n.double == 0 || n.double == n'.double)
  }

  lemma OlderTarget(data: seq<Block>, n: Inode, n': Inode, s: Slot)
    requires OlderPointers(n, n')
    ensures Target(data, n, s) == if RootPointer(n, s) != 0 then Target(data, n', s) else 0
  {
  }

  /** What is left of the first `consumed` bytes of a write when its working copy of the inode is
      dropped: they are there where the inode already had the pointer their path starts with,
      and so are the blocks made for them; what hung on a new pointer is lost. */
  ghost predicate PartlyWritten(v: Vol, v': Vol, i: nat, offset: nat, data: seq<byte>, consumed: nat) {
    && consumed <= |data| && i < |v.table|
    && v'.table == v.table && OthersKept(v, v', i)
    && (forall pos: nat {:trigger Byte(v', i, pos)} ::
      Byte(v', i, pos) == if offset <= pos < offset + consumed && RootPointer(v.table[i], SlotOf(pos / 4032)) != 0
                          then data[pos - offset] else Byte(v, i, pos))
    && (forall index: nat {:trigger T(v', i, SlotOf(index))} ::
      T(v', i, SlotOf(index)) != 0 <==>
        T(v, i, SlotOf(index)) != 0 || (Covers(offset, consumed, index) && RootPointer(v.table[i], SlotOf(index)) != 0))
  }

  lemma PartlyFacts(v: Vol, v': Vol, i: nat, offset: nat, data: seq<byte>, consumed: nat)
    requires PartlyWritten(v, v', i, offset, data, consumed)
    ensures consumed <= |data| && i < |v.table| && v'.table == v.table && OthersKept(v, v', i)
  {
  }

  /** What an operation that drops its working copy of inode `i` leaves allocated: the blocks it
      had hung under `slots`.  Those on a path that starts with a pointer the inode had before
      stay where they are; the others are lost, allocated and reached by no slot. */
  ghost predicate LeftOver(v: Vol, v': Vol, i: nat, slots: set<Slot>) {
    && i < |v.table| && v.used <= v'.used
    && forall b: nat {:trigger b in v'.used} :: b in v'.used && b !in v.used ==>
      && 0 < b && b in v'.owner && v'.owner[b].ino == i && v'.owner[b].slot in slots && T(v, i, v'.owner[b].slot) == 0
      && T(v', i, v'.owner[b].slot) == if RootPointer(v.table[i], v'.owner[b].slot) != 0 then b else 0
  }

  lemma DroppedLeaves(v: Vol, v1: Vol, v': Vol, i: nat, slots: set<Slot>)
    requires i < |v.table| == |v1.table| && Takes(v, v1, i, slots) && OlderPointers(v.table[i], v1.table[i])
    requires v' == v1.(table := v1.table[i := v.table[i]])
    ensures LeftOver(v, v', i, slots)
  {
    forall t: Slot
      ensures T(v', i, t) == if RootPointer(v.table[i], t) == 0 then 0 else T(v1, i, t)
    {
      OlderTarget(v1.data, v.table[i], v1.table[i], t);
    }
    hide T;
  }

  /** A write that fails drops its working copy of the inode. */
  lemma WriteDropped(v: Vol, v1: Vol, v': Vol, lo: nat, i: nat, offset: nat, data: seq<byte>, consumed: nat)
    requires Safe(v, lo) && Written(v, v1, lo, i, offset, data, consumed, consumed)
    requires v' == v1.(table := v1.table[i := v.table[i]])
    ensures Safe(v', lo) && PartlyWritten(v, v', i, offset, data, consumed)
  {
    hide SlotOf;
    var n, n' := v.table[i], v1.table[i];
    forall j: nat, t: Slot
      ensures T(v', j, t) == if j == i && RootPointer(n, t) == 0 then 0 else T(v1, j, t)
    {
      OlderTarget(v1.data, n, n', t);
    }
    forall j: nat, m: nat | j != i
      ensures Page(v', j, m) == Page(v, j, m)
    {
      assert Page(v1, j, m) == Page(v, j, m);
    }
    forall pos: nat
      ensures Byte(v', i, pos) == if RootPointer(n, SlotOf(pos / 4032)) != 0 then Byte(v1, i, pos) else Byte(v, i, pos)
    {
      assert RootPointer(n, SlotOf(pos / 4032)) == 0 ==> T(v, i, SlotOf(pos / 4032)) == 0;
    }
    forall index: nat
      ensures T(v', i, SlotOf(index)) != 0 <==>
        T(v, i, SlotOf(index)) != 0 || (Covers(offset, consumed, index) && RootPointer(n, SlotOf(index)) != 0)
    {
      assert RootPointer(n, SlotOf(index)) == 0 ==> T(v, i, SlotOf(index)) == 0;
      assert T(v1, i, SlotOf(index)) != 0 <==> T(v, i, SlotOf(index)) != 0 || Covers(offset, consumed, index);
    }
  }

  /** No part of `data` that a failed write leaves behind can show past the end of inode `n`:
      blocks it makes lie below the size, and so does every byte that is not zero. */
  ghost predicate NothingBehind(n: Inode, offset: nat, data: seq<byte>) {
    && (forall index: nat {:trigger SlotOf(index)} ::
      Covers(offset, |data|, index) && RootPointer(n, SlotOf(index)) != 0 ==> index * 4032 < n.size)
    && (forall k {:trigger data[k]} :: 0 <= k < |data| && n.size <= offset + k && data[k] != 0 ==>
      RootPointer(n, SlotOf((offset + k) / 4032)) == 0)
  }

  /** A failed write leaves the end of a file clean exactly when the bytes it got to copy leave
      nothing behind. */
  lemma CleanEndSurvivesIff(v: Vol, v': Vol, i: nat, offset: nat, data: seq<byte>, consumed: nat)
    requires PartlyWritten(v, v', i, offset, data, consumed) && TrimAt(v, i)
    ensures TrimAt(v', i) <==> NothingBehind(v.table[i], offset, data[..consumed])
  {
    hide T, Byte, SlotOf, OthersKept;
    var n, part := v.table[i], data[..consumed];
    if TrimAt(v', i) {
      forall index: nat | Covers(offset, consumed, index) && RootPointer(n, SlotOf(index)) != 0
        ensures index * 4032 < n.size
      {
        assert T(v', i, SlotOf(index)) != 0;
      }
      forall k | 0 <= k < consumed && n.size <= offset + k && part[k] != 0
        ensures RootPointer(n, SlotOf((offset + k) / 4032)) == 0
      {
        assert Byte(v', i, offset + k) == 0;
      }
    }
    if NothingBehind(n, offset, part) {
      forall pos: nat | n.size <= pos
        ensures Byte(v', i, pos) == 0
      {
        assert Byte(v, i, pos) == 0;
        if offset <= pos < offset + consumed {
          assert part[pos - offset] == data[pos - offset];
        }
      }
    }
  }

  /** A failed write inside the file leaves nothing behind. */
  lemma InsideLeavesNothing(n: Inode, offset: nat, data: seq<byte>)
    requires offset + |data| <= n.size
    ensures NothingBehind(n, offset, data)
  {
    hide SlotOf;
  }

  /** Blocks may have been lost to leaks and tables may have grown, but no inode's record and no
      inode's contents changed. */
  ghost predicate Unseen(v: Vol, v': Vol, lo: nat) {
    && v'.table == v.table && |v'.data| == |v.data|
    && Safe(v', lo)
    && (forall j: nat, t: Slot {:trigger T(v', j, t)} :: T(v, j, t) != 0 ==> T(v', j, t) == T(v, j, t))
    && (forall j: nat, m: nat {:trigger Page(v', j, m)} :: Page(v', j, m) == Page(v, j, m))
  }

  /** Growth whose working copy of the inode is dropped goes unseen. */
  lemma GrownDropped(v: Vol, v1: Vol, v': Vol, lo: nat, i: nat, leaf: Slot)
    requires Safe(v, lo) && i < |v.table| && Grown(v, v1, lo, i, leaf) && Extends(v.table[i], v1.table[i])
    requires v1.table == v.table[i := v1.table[i]]
    requires v' == v1.(table := v.table)
    ensures Unseen(v, v', lo) && LeftOver(v, v', i, PathTo(leaf))
  {
    DroppedLeaves(v, v1, v', i, PathTo(leaf));
    var n, n' := v.table[i], v1.table[i];
    forall j: nat, t: Slot
      ensures T(v', j, t) == if j == i && RootPointer(n, t) == 0 then 0 else T(v1, j, t)
    {
      OlderTarget(v1.data, n, n', t);
    }
    forall j: nat, t: Slot | T(v, j, t) != 0
      ensures T(v', j, t) == T(v, j, t)
    {
      assert j == i ==> RootPointer(n, t) != 0;
    }
    forall j: nat, m: nat
      ensures Page(v', j, m) == Page(v, j, m)
    {
      assert Page(v1, j, m) == Page(v, j, m);
      assert j == i && RootPointer(n, SlotOf(m)) == 0 ==> T(v, i, SlotOf(m)) == 0;
    }
  }

  /** A volume stays safe when an inode is replaced by an earlier copy of itself. */
  lemma OlderSafe(v: Vol, lo: nat, i: nat, n: Inode)
    requires Safe(v, lo) && i < |v.table| && OlderPointers(n, v.table[i])
    ensures Safe(With(v, i, n), lo)
  {
    forall j: nat, t: Slot
      ensures T(With(v, i, n), j, t) == if j == i && RootPointer(n, t) == 0 then 0 else T(v, j, t)
    {
      OlderTarget(v.data, n, v.table[i], t);
    }
  }

  // ---------------------------------------------------------------- truncating and freeing

  /** Logical blocks `from..to` of inode `i` have been unmapped. */
  ghost predicate Cleared(v: Vol, v': Vol, lo: nat, i: nat, from: nat, to: nat) {
    && Shrunk(v, v', lo, i)
    && (forall m: nat {:trigger Page(v', i, m)} ::
      Page(v', i, m) == if from <= m < to then ZERO_BLOCK else Page(v, i, m))
    && (forall m: nat {:trigger T(v', i, SlotOf(m))} :: from <= m < to ==> T(v', i, SlotOf(m)) == 0)
    && (forall j {:trigger v'.table[j]} :: 0 <= j < |v.table| && j != i ==> v'.table[j] == v.table[j])
    && Mapped(v', i) == MappedOutside(v, i, from, to)
  }

  /** The logical blocks of inode `i` that are mapped and are not among blocks `from..to`. */
  ghost function MappedOutside(v: Vol, i: nat, from: nat, to: nat): set<nat> {
    set m | m in Mapped(v, i) && !(from <= m < to)
  }

  lemma UnmappablePastEnd(v: Vol, i: nat, m: nat)
    requires m >= MAX_INDEX
    ensures T(v, i, SlotOf(m)) == 0
  {
  }

  lemma ClearedStart(v: Vol, lo: nat, i: nat, from: nat)
    requires Safe(v, lo)
    ensures Cleared(v, v, lo, i, from, from)
  {
    ShrunkRefl(v, lo, i);
    assert MappedOutside(v, i, from, from) == Mapped(v, i);
  }

  lemma ClearedStep(v: Vol, v1: Vol, v2: Vol, lo: nat, i: nat, from: nat, index: nat)
    requires Safe(v, lo) && Cleared(v, v1, lo, i, from, index) && from <= index
    requires if index < MAX_INDEX then BlockRemoved(v1, v2, lo, i, index) else v2 == v1
    requires |v2.table| == |v1.table| && forall j :: 0 <= j < |v2.table| && j != i ==> v2.table[j] == v1.table[j]
    ensures Cleared(v, v2, lo, i, from, index + 1)
  {
    UnmappedPage(v1, i, index);
    MappedStep(v, v1, i, from, index);
    hide T, SlotOf, Page, Safe, NoLeak, Full, Counted, Mapped, MappedOutside, Shortfall, Shrunk;
    if index < MAX_INDEX {
      ShrunkTrans(v, v1, v2, lo, i);
      ShrunkZero(v1, v2, lo, i);
    }
    ShrunkLength(v, v1, lo, i);
    forall m: nat
      ensures Page(v2, i, m) == if from <= m < index + 1 then ZERO_BLOCK else Page(v, i, m)
    {
      assert Page(v1, i, m) == if from <= m < index then ZERO_BLOCK else Page(v, i, m);
    }
    forall m: nat | from <= m < index + 1
      ensures T(v2, i, SlotOf(m)) == 0
    {
      assert m < index ==> T(v1, i, SlotOf(m)) == 0;
    }
  }

  lemma ShrunkZero(v: Vol, v': Vol, lo: nat, i: nat)
    requires Shrunk(v, v', lo, i)
    ensures forall t: Slot {:trigger T(v', i, t)} :: T(v, i, t) == 0 ==> T(v', i, t) == 0
  {
    hide T;
  }

  lemma ShrunkLength(v: Vol, v': Vol, lo: nat, i: nat)
    requires Shrunk(v, v', lo, i)
    ensures |v'.table| == |v.table|
  {
  }

  lemma MappedStep(v: Vol, v1: Vol, i: nat, from: nat, index: nat)
    requires Mapped(v1, i) == MappedOutside(v, i, from, index) && from <= index
    ensures Mapped(v1, i) - {index} == MappedOutside(v, i, from, index + 1)
    ensures index >= MAX_INDEX ==> Mapped(v1, i) - {index} == Mapped(v1, i)
  {
    hide T;
  }

  /** The size of the inode plays no part in what has been unmapped. */
  lemma ClearedResize(v: Vol, v1: Vol, lo: nat, i: nat, from: nat, to: nat, n': Inode)
    requires Cleared(v, v1, lo, i, from, to) && i < |v1.table|
    requires SamePointers(v1.table[i], n') && n'.blockCount == v1.table[i].blockCount
    ensures Cleared(v, With(v1, i, n'), lo, i, from, to)
  {
    var v' := With(v1, i, n');
    SameTree(v1, i, n', v', lo);
    SameMapped(v1, v', i);
    hide T, Page, Safe, Full, NoLeak, Counted, SlotOf, Mapped, MappedOutside;
    forall j: nat, t: Slot
      ensures T(v', j, t) == T(v, j, t) || (j == i && T(v', j, t) == 0)
    {
      assert T(v', j, t) == T(v1, j, t);
    }
    forall j: nat, m: nat | j != i
      ensures Page(v', j, m) == Page(v, j, m)
    {
      assert Page(v', j, m) == Page(v1, j, m);
    }
  }

  lemma SameMapped(v: Vol, v': Vol, i: nat)
    requires forall t: Slot {:trigger T(v', i, t)} :: T(v', i, t) == T(v, i, t)
    ensures Mapped(v', i) == Mapped(v, i)
  {
    hide T, SlotOf;
  }

  lemma UnmappedPage(v: Vol, i: nat, index: nat)
    ensures index >= MAX_INDEX ==> T(v, i, SlotOf(index)) == 0 && Page(v, i, index) == ZERO_BLOCK
  {
    if index >= MAX_INDEX {
      UnmappablePastEnd(v, i, index);
    }
  }

  /** The data blocks and pointer tables of inode `i`. */
  ghost function Owned(v: Vol, i: nat): set<nat> {
    set b | b in v.used && b in v.owner && v.owner[b].ino == i && T(v, i, v.owner[b].slot) == b && b != 0
  }

  /** Unmapping every logical block below the size of an inode takes its whole tree: no slot is
      left, the block count is zero, and exactly its blocks are free again. */
  lemma AllCleared(v: Vol, v': Vol, lo: nat, i: nat, blocks: nat)
    requires Safe(v, lo) && i < |v.table| && Cleared(v, v', lo, i, 0, blocks)
    requires Tight(v, lo) && TrimAt(v, i)
    requires v.table[i].size <= blocks * 4032
    ensures forall s: Slot {:trigger T(v', i, s)} :: T(v', i, s) == 0
    ensures v'.used == v.used - Owned(v, i)
    ensures v'.table[i].blockCount == 0
  {
    forall m: nat
      ensures T(v', i, SlotOf(m)) == 0
    {
      if m >= blocks {
        assert T(v, i, SlotOf(m)) == 0;
        assert T(v', i, SlotOf(m)) == T(v, i, SlotOf(m)) || T(v', i, SlotOf(m)) == 0;
      }
    }
    forall s: Slot
      ensures T(v', i, s) == 0
    {
      NoLeaves(v', i, s);
    }
    hide T, SlotOf, Page, Full;
    forall b | b in v.used
      ensures b in v'.used <==> b !in Owned(v, i)
    {
      assert b in Owned(v, i) ==> T(v', v.owner[b].ino, v.owner[b].slot) == 0;
      assert b in Owned(v, i) ==> lo <= b by {
        hide Owned;
        OwnedAreData(v, lo, i, b);
      }
    }
    assert Mapped(v', i) == {};
  }

  lemma OwnedAreData(v: Vol, lo: nat, i: nat, b: nat)
    requires Safe(v, lo)
    ensures b in Owned(v, i) ==> lo <= b < |v.data|
  {
    assert b in v.owner ==> T(v, i, v.owner[b].slot) == b && b != 0 ==> lo <= b;
  }

  /** Without mapped logical blocks a tree without empty tables has no slots at all. */
  lemma NoLeaves(v: Vol, i: nat, s: Slot)
    requires Full(v) && forall m: nat {:trigger T(v, i, SlotOf(m))} :: T(v, i, SlotOf(m)) == 0
    ensures T(v, i, s) == 0
  {
    forall leaf: Slot | leaf.IsLeaf()
      ensures T(v, i, leaf) == 0
    {
      if (leaf.Direct? && leaf.k < 12) || (leaf.SLeaf? && leaf.k < 504)
        || (leaf.DLeaf? && leaf.o < 504 && leaf.k < 504) {
        SlotOfIndexOf(leaf);
      }
    }
    hide T, SlotOf;
    forall o: nat
      ensures T(v, i, Inner(o)) == 0
    {
      assert !HasChild(v, i, Inner(o));
    }
    assert !HasChild(v, i, Single);
    assert !HasChild(v, i, Double);
  }

  /** Contents `c` cut to `n` bytes, or extended with zeros. */
  function Resize(c: seq<byte>, n: nat): (r: seq<byte>)
    ensures |r| == n
    ensures forall p {:trigger r[p]} :: 0 <= p < n ==> r[p] == if p < |c| then c[p] else 0
  {
    seq(n, p => if 0 <= p < |c| then c[p] else 0)
  }

  /** Kind, owner, links and access time are as they were. */
  predicate SameAttributes(n: Inode, n': Inode) {
    n'.mode == n.mode && n'.uid == n.uid && n'.gid == n.gid && n'.nlink == n.nlink && n'.atime == n.atime
  }

  /** What a resize of inode `i` to `size` leaves: when it shrinks, bytes from `size` on in the
      blocks that were in use are zero; all others are as before.  The blocks past the new last
      one that were in use are no longer mapped, and the block count follows. */
  ghost predicate Resized(v: Vol, v': Vol, lo: nat, i: nat, size: nat) {
    && i < |v.table| && |v'.table| == |v.table|
    && Safe(v', lo) && OthersKept(v, v', i)
    && v'.table[i].size == size && SameAttributes(v.table[i], v'.table[i]) && v'.table[i].Stamped()
    && (forall pos: nat {:trigger Byte(v', i, pos)} ::
      Byte(v', i, pos) == if size < v.table[i].size && size <= pos < DivCeil(v.table[i].size, 4032) * 4032 then 0
                          else Byte(v, i, pos))
    && Mapped(v', i) == MappedOutside(v, i, DivCeil(size, 4032), DivCeil(v.table[i].size, 4032))
    && Shortfall(v', i) == Shortfall(v, i)
  }

  /** A resize is a resize of the contents exactly when no byte it uncovers is left over. */
  lemma ResizedContentsIff(v: Vol, v': Vol, lo: nat, i: nat, size: nat)
    requires Resized(v, v', lo, i, size)
    ensures Contents(v', i) == Resize(Contents(v, i), size) <==>
            forall pos: nat {:trigger Byte(v, i, pos)} :: v.table[i].size <= pos < size ==> Byte(v, i, pos) == 0
  {
    hide T, Page, Byte;
    var c, r := Contents(v', i), Resize(Contents(v, i), size);
    if c == r {
      forall pos: nat | v.table[i].size <= pos < size
        ensures Byte(v, i, pos) == 0
      {
        assert c[pos] == r[pos];
        assert Byte(v', i, pos) == Byte(v, i, pos);
      }
    }
    if forall pos: nat {:trigger Byte(v, i, pos)} :: v.table[i].size <= pos < size ==> Byte(v, i, pos) == 0 {
      forall pos | 0 <= pos < size
        ensures c[pos] == r[pos]
      {
        assert c[pos] == Byte(v', i, pos);
        assert v.table[i].size <= pos ==> Byte(v, i, pos) == 0;
      }
      assert c == r;
    }
  }

  /** Cutting a file and extending it again never shows what was cut off. */
  lemma {:induction false} ShrinkThenGrow(v: Vol, v1: Vol, v2: Vol, lo: nat, i: nat, small: nat, big: nat)
    requires Resized(v, v1, lo, i, small) && Resized(v1, v2, lo, i, big) && TrimAt(v, i)
    requires small <= v.table[i].size && small <= big
    ensures Contents(v2, i) == Contents(v, i)[..small] + Zeros(big - small)
  {
    hide T, Page, Byte, Safe;
    ResizedContents(v, v1, lo, i, small);
    forall pos: nat | small <= pos < big
      ensures Byte(v2, i, pos) == 0
    {
      assert Byte(v1, i, pos) == 0;
    }
    forall pos: nat | pos < small
      ensures Byte(v2, i, pos) == Byte(v, i, pos)
    {
      assert Byte(v1, i, pos) == Byte(v, i, pos);
    }
    assert Contents(v2, i) == Contents(v, i)[..small] + Zeros(big - small);
  }

  /** On a file with a clean end, a resize is a resize of its contents. */
  lemma {:induction false} ResizedContents(v: Vol, v': Vol, lo: nat, i: nat, size: nat)
    requires Resized(v, v', lo, i, size) && TrimAt(v, i)
    ensures Contents(v', i) == Resize(Contents(v, i), size)
    ensures forall pos: nat {:trigger Byte(v', i, pos)} :: size <= pos ==> Byte(v', i, pos) == 0
  {
    hide T, Page;
    forall pos: nat
      ensures size <= pos ==> Byte(v', i, pos) == 0
      ensures pos < size ==> Byte(v', i, pos) == if pos < v.table[i].size then Byte(v, i, pos) else 0
    {
      assert v.table[i].size <= pos ==> Byte(v, i, pos) == 0;
    }
    assert Contents(v', i) == Resize(Contents(v, i), size);
  }

  /** Storing the inode after blocks from `keep` on were unmapped and the last kept block was
      zeroed from `size % 4032` on. */
  lemma ShrinkFinished(v: Vol, v1: Vol, v2: Vol, v': Vol, lo: nat, i: nat, size: nat, n': Inode)
    requires Safe(v, lo) && i < |v.table| && size < v.table[i].size
    requires Cleared(v, v1, lo, i, DivCeil(size, 4032), DivCeil(v.table[i].size, 4032))
    requires TailZeroed(v1, v2, lo, i, size)
    requires SamePointers(v2.table[i], n') && n'.blockCount == v2.table[i].blockCount && n'.size == size && n'.Live()
    requires SameAttributes(v.table[i], n') && n'.Stamped()
    requires v' == v2.(table := v2.table[i := n'])
    ensures Resized(v, v', lo, i, size)
    ensures Exact(v, lo) ==> Exact(v', lo)
  {
    hide T, Page, Safe, NoLeak, Full, Counted, SlotOf, Mapped, MappedOutside;
    SameTree(v2, i, n', v', lo);
    SameMapped(v1, v2, i);
    SameMapped(v2, v', i);
    forall j: nat, t: Slot | j != i
      ensures T(v', j, t) == T(v, j, t)
    {
      assert T(v2, j, t) == T(v1, j, t);
    }
    forall j: nat, m: nat | j != i
      ensures Page(v', j, m) == Page(v, j, m)
    {
      assert Page(v2, j, m) == Page(v1, j, m);
    }
    forall pos: nat
      ensures Byte(v', i, pos) == if size <= pos < DivCeil(v.table[i].size, 4032) * 4032 then 0 else Byte(v, i, pos)
    {
      assert Page(v', i, pos / 4032) == Page(v2, i, pos / 4032);
      TailByte(v1, v2, lo, i, size, pos);
      assert Page(v1, i, pos / 4032) ==
        if DivCeil(size, 4032) <= pos / 4032 < DivCeil(v.table[i].size, 4032) then ZERO_BLOCK
          else Page(v, i, pos / 4032);
    }
    if Exact(v, lo) {
      ResizedContents(v, v', lo, i, size);
      forall m: nat | T(v', i, SlotOf(m)) != 0
        ensures m * 4032 < size
      {
        assert T(v2, i, SlotOf(m)) == T(v1, i, SlotOf(m)) == T(v, i, SlotOf(m));
      }
      assert TrimAt(v', i);
      TrimOthers(v, v', i);
      IdleKept(v, v', i);
    }
  }

  /** A block zeroed from byte `tail` on. */
  function CutAt(b: Block, tail: nat): Block
    requires tail <= UB
  {
    b[..tail] + Zeros(4032 - tail)
  }

  /** `v'` is `v` with the block that holds byte `size` of inode `i` zeroed from there on, if
      `size` falls inside a mapped block. */
  ghost predicate TailZeroed(v: Vol, v': Vol, lo: nat, i: nat, size: nat) {
    && |v'.table| == |v.table| && v'.table == v.table && |v'.data| == |v.data|
    && v'.used == v.used && v'.owner == v.owner
    && Safe(v', lo)
    && (NoLeak(v, lo) ==> NoLeak(v', lo)) && (Full(v) ==> Full(v')) && (Counted(v) ==> Counted(v'))
    && (forall j: nat, t: Slot {:trigger T(v', j, t)} :: T(v', j, t) == T(v, j, t))
    && (forall j: nat, m: nat {:trigger Page(v', j, m)} ::
      Page(v', j, m) == if j == i && m == size / 4032 && size % 4032 != 0
                        then CutAt(Page(v, i, m), size % 4032) else Page(v, j, m))
  }

  lemma TailByte(v: Vol, v': Vol, lo: nat, i: nat, size: nat, pos: nat)
    requires TailZeroed(v, v', lo, i, size)
    ensures Byte(v', i, pos) == if size <= pos && pos / 4032 < DivCeil(size, 4032) then 0 else Byte(v, i, pos)
  {
    hide T, Page, Safe, NoLeak, Full, Counted;
    assert Page(v', i, pos / 4032) ==
      if pos / 4032 == size / 4032 && size % 4032 != 0
      then CutAt(Page(v, i, pos / 4032), size % 4032) else Page(v, i, pos / 4032);
  }

  lemma TailUnmapped(v: Vol, lo: nat, i: nat, size: nat)
    requires Safe(v, lo) && (size % 4032 != 0 ==> T(v, i, SlotOf(size / 4032)) == 0)
    ensures TailZeroed(v, v, lo, i, size)
  {
    assert size % 4032 != 0 ==> Page(v, i, size / 4032) == ZERO_BLOCK;
    assert CutAt(ZERO_BLOCK, size % 4032) == ZERO_BLOCK;
  }

  lemma TailMapped(v: Vol, v': Vol, lo: nat, i: nat, size: nat)
    requires Safe(v, lo) && size % 4032 != 0
    requires var b := T(v, i, SlotOf(size / 4032));
             && 0 < b < |v.data|
             && v' == v.(data := v.data[b := CutAt(v.data[b], size % 4032)])
    ensures TailZeroed(v, v', lo, i, size)
  {
    var b := T(v, i, SlotOf(size / 4032));
    LeafWrite(v, lo, i, SlotOf(size / 4032), v'.data[b], v');
    PagesAfterLeafWrite(v, v', lo, i, size / 4032);
    hide T, Safe, NoLeak, Full, Counted;
    SameTargets(v, v', lo);
  }

  lemma NoneOutside(v: Vol, i: nat, from: nat, to: nat)
    requires to <= from
    ensures MappedOutside(v, i, from, to) == Mapped(v, i)
  {
    hide T;
  }

  /** Growing only records the new size. */
  lemma GrowFinished(v: Vol, v': Vol, lo: nat, i: nat, size: nat, n': Inode)
    requires Safe(v, lo) && i < |v.table| && v.table[i].size <= size
    requires SamePointers(v.table[i], n') && n'.blockCount == v.table[i].blockCount && n'.size == size && n'.Live()
    requires SameAttributes(v.table[i], n') && n'.Stamped()
    requires v' == v.(table := v.table[i := n'])
    ensures Resized(v, v', lo, i, size)
    ensures Exact(v, lo) ==> Exact(v', lo)
  {
    SameTree(v, i, n', v', lo);
    SameMapped(v, v', i);
    NoneOutside(v, i, DivCeil(size, 4032), DivCeil(v.table[i].size, 4032));
    hide T, Page, Safe, Tight, SlotOf, Mapped, MappedOutside;
    forall pos: nat
      ensures Byte(v', i, pos) == Byte(v, i, pos)
    {
      assert Page(v', i, pos / 4032) == Page(v, i, pos / 4032);
    }
    if TrimAt(v, i) {
      assert TrimAt(v', i);
    }
    if Exact(v, lo) {
      TrimOthers(v, v', i);
      IdleKept(v, v', i);
    }
  }
}
