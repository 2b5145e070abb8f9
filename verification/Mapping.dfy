/** One step of mapping or unmapping a logical block. */
module Mapping {
  import opened Layout
  import opened Wrappers
  import opened Pointers
  import opened Inodes
  import opened Geometry
  import opened Volume
  import opened Space
  import Files

  /** What mapping logical block `index` of inode `i` does: a lookup changes nothing; an
      allocation grows the tree on the path to that block, on failure too. */
  ghost predicate BlockMapped(g: Geometry, v: Vol, v': Vol, i: nat, index: nat, allocate: bool, r: Result<Option<nat>>)
    requires i < |v.table| == |v'.table|
  {
    var b := T(v', i, SlotOf(index));
    if !allocate then
      v' == v && r == Ok(if b == 0 then None else Some(b))
    else
      && Extends(v.table[i], v'.table[i])
      && Grown(v, v', g.dataStart, i, SlotOf(index))
      && (r.Ok? ==> r == Ok(Some(b)) && b != 0 && (Full(v) ==> Full(v')) && (Counted(v) ==> Counted(v')))
      && (r.Err? ==> r == Err(NoSpace) && b == 0 && AllTaken(v', g.dataStart))
  }

  /** There are as many free blocks as the path to logical block `index` of inode `i` lacks. */
  ghost predicate CanMap(g: Geometry, v: Vol, i: nat, index: nat) {
    |Lacking(v, i, PathTo(SlotOf(index)))| <= |FreeData(v, g.dataStart)|
  }

  /** A block is mapped if and only if there are as many free blocks as its path lacks. */
  lemma MappedIff(g: Geometry, v: Vol, v': Vol, i: nat, index: nat, r: Result<Option<nat>>)
    requires i < |v.table| == |v'.table| && BlockMapped(g, v, v', i, index, true, r)
    ensures r.Ok? <==> CanMap(g, v, i, index)
  {
    hide T, Page, Full, Counted, NoLeak, Extends, SlotOf;
    var leaf := SlotOf(index);
    if r.Ok? {
      forall s | s in PathTo(leaf)
        ensures T(v', i, s) != 0
      {
        LeafNeedsPath(v', i, leaf, s);
      }
      TakesFits(v, v', g.dataStart, i, PathTo(leaf), PathTo(leaf));
    } else {
      TakesShort(v, v', g.dataStart, i, PathTo(leaf), leaf);
    }
  }

  lemma GrownTakes(v: Vol, v': Vol, lo: nat, i: nat, leaf: Slot)
    requires Grown(v, v', lo, i, leaf)
    ensures Takes(v, v', i, PathTo(leaf))
  {
  }

  lemma SameTaken(v: Vol, v': Vol, lo: nat)
    requires v'.used == v.used && |v'.data| == |v.data| && AllTaken(v, lo)
    ensures AllTaken(v', lo)
  {
  }

  lemma GrownSafe(v: Vol, v': Vol, lo: nat, i: nat, leaf: Slot)
    requires Grown(v, v', lo, i, leaf)
    ensures Safe(v', lo) && |v'.data| == |v.data| && |v'.table| == |v.table|
  {
  }

  lemma PageOfTarget(v: Vol, lo: nat, i: nat, m: nat)
    requires Safe(v, lo)
    ensures var b := T(v, i, SlotOf(m));
            if b == 0 then Page(v, i, m) == ZERO_BLOCK else lo <= b < |v.data| && Page(v, i, m) == v.data[b]
  {
  }

  lemma ShrunkSafe(v: Vol, v': Vol, lo: nat, i: nat)
    requires Shrunk(v, v', lo, i)
    ensures Safe(v', lo)
  {
  }

  lemma ClearedSafe(v: Vol, v': Vol, lo: nat, i: nat, from: nat, to: nat)
    requires Files.Cleared(v, v', lo, i, from, to)
    ensures Safe(v', lo)
  {
  }

  lemma Roots(v: Vol, i: nat)
    requires i < |v.table|
    ensures T(v, i, Single) == v.table[i].single && T(v, i, Double) == v.table[i].double
    ensures v.table[i].single == 0 ==> forall k :: T(v, i, SLeaf(k)) == 0
    ensures v.table[i].double == 0 ==> forall o :: T(v, i, Inner(o)) == 0
    ensures forall o: nat, k :: T(v, i, Inner(o)) == 0 ==> T(v, i, DLeaf(o, k)) == 0
  {
  }

  /** An entry of a pointer table, read from the block the table lives in. */
  lemma EntryOf(v: Vol, lo: nat, i: nat, s: Slot)
    requires Safe(v, lo) && (s.SLeaf? || s.Inner? || s.DLeaf?) && Parent(s).1 < PTRS
    requires T(v, i, Parent(s).0) != 0
    ensures lo <= T(v, i, Parent(s).0) < |v.data|
    ensures T(v, i, s) == PointerAt(v.data[T(v, i, Parent(s).0)], Parent(s).1)
  {
  }

  /** A block just hung under a pointer of the inode, seen from the start of the call. */
  lemma RootLinked(v: Vol, v1: Vol, v2: Vol, lo: nat, i: nat, s: Slot, b: nat, n': Inode, leaf: Slot)
    requires i < |v.table| && Grown(v, v1, lo, i, leaf) && leaf.IsLeaf() && OnPath(s, leaf)
    requires b !in v1.used && lo <= b < |v1.data| && T(v1, i, s) == 0 && SetRoot(v1.table[i], s, b, n')
    requires v2 == Vol(v1.table[i := n'], v1.data[b := ZERO_BLOCK], v1.used + {b}, v1.owner[b := Ref(i, s)])
    ensures Grown(v, v2, lo, i, leaf) && Safe(v2, lo) && Linked(v1, v2, i, s, b) && T(v2, i, s) == b
  {
    LinkRoot(v1, lo, i, s, b, n', v2);
    LinkedGrows(v1, v2, lo, i, s, b, leaf);
    GrownTrans(v, v1, v2, lo, i, leaf);
  }

  /** Which blocks slots hold does not depend on block counts. */
  lemma CountIgnored(v: Vol, v': Vol, i: nat)
    requires i < |v.table| == |v'.table| && v'.table[i] == v.table[i].(blockCount := v'.table[i].blockCount)
    requires v' == v.(table := v.table[i := v'.table[i]])
    ensures forall j: nat, t: Slot {:trigger T(v', j, t)} {:trigger T(v, j, t)} :: T(v', j, t) == T(v, j, t)
  {
  }

  /** A block just hung under an entry of a pointer table, seen from the start of the call. */
  lemma EntryLinked(v: Vol, v1: Vol, v2: Vol, lo: nat, i: nat, s: Slot, b: nat, n': Inode, leaf: Slot)
    requires i < |v.table| && Grown(v, v1, lo, i, leaf) && leaf.IsLeaf() && OnPath(s, leaf)
    requires b !in v1.used && lo <= b < |v1.data| <= MAX_U64 && T(v1, i, s) == 0
    requires (s.SLeaf? || s.Inner? || s.DLeaf?) && Parent(s).1 < PTRS && T(v1, i, Parent(s).0) != 0
    requires n' == v1.table[i].(blockCount := n'.blockCount)
    requires var table := T(v1, i, Parent(s).0);
             v2 == Vol(v1.table[i := n'], v1.data[b := ZERO_BLOCK][table := SetPointer(v1.data[table], Parent(s).1, b)],
                       v1.used + {b}, v1.owner[b := Ref(i, s)])
    ensures Grown(v, v2, lo, i, leaf) && Safe(v2, lo) && T(v2, i, s) == b
    ensures forall t: Slot {:trigger T(v2, i, t)} :: t != s ==> T(v2, i, t) == T(v1, i, t)
  {
    hide T, Page, SlotOf, PathTo, Takes, NoLeak, SetPointer;
    var w := v2.(table := v1.table);
    LinkEntry(v1, lo, i, s, b, w);
    CountIgnored(w, v2, i);
    LinkedGrows(v1, v2, lo, i, s, b, leaf);
    GrownTrans(v, v1, v2, lo, i, leaf);
  }

  function Freed(block: nat): set<nat> {
    if block != 0 then {block} else {}
  }

  /** The blocks under one, two or three slots. */
  lemma CutOne(v: Vol, i: nat, a: Slot)
    ensures CutBlocks(v, i, {a}) == Freed(T(v, i, a))
  {
    hide T;
  }

  lemma CutTwo(v: Vol, i: nat, a: Slot, b: Slot)
    ensures CutBlocks(v, i, {a, b}) == Freed(T(v, i, a)) + Freed(T(v, i, b))
  {
    hide T;
  }

  lemma CutThree(v: Vol, i: nat, a: Slot, b: Slot, c: Slot)
    ensures CutBlocks(v, i, {a, b, c}) == Freed(T(v, i, a)) + Freed(T(v, i, b)) + Freed(T(v, i, c))
  {
    hide T;
  }

  /** The pointer met on the way to a logical block under the single-indirect table. */
  ghost predicate SinglePath(v: Vol, i: nat, index: nat, n': Inode, block: nat) {
    && i < |v.table| && 12 <= index < 516
    && var k, n := index - 12, v.table[i];
    && 0 < n.single < |v.data| && T(v, i, Single) == n.single && T(v, i, SLeaf(k)) == block
    && PointerAt(v.data[n.single], k) == block
    && n'.direct == n.direct && n'.double == n.double
    && n'.blockCount == (if block != 0 then Decrement(n.blockCount) else n.blockCount)
  }

  /** The table keeps other pointers. */
  lemma SingleKept(v: Vol, v': Vol, lo: nat, i: nat, index: nat, n': Inode, block: nat)
    requires Safe(v, lo) && SinglePath(v, i, index, n', block)
    requires var table := Emptied(v.data[v.table[i].single], index - 12);
             && table != ZERO_BLOCK && n'.single == v.table[i].single
             && v' == Vol(v.table[i := n'], v.data[v.table[i].single := table], v.used - Freed(block), v.owner)
    ensures BlockRemoved(v, v', lo, i, index)
  {
    hide Safe, HasChild, T, Shrunk, CutBlocks;
    var k := index - 12;
    CutOne(v, i, SLeaf(k));
    CutEntry(v, lo, i, Single, k, SLeaf(k), n', v');
    CutShrinks(v, v', lo, i, index, {SLeaf(k)});
  }

  /** The table is freed. */
  lemma SingleFreed(v: Vol, v': Vol, lo: nat, i: nat, index: nat, n': Inode, block: nat)
    requires Safe(v, lo) && SinglePath(v, i, index, n', block)
    requires Emptied(v.data[v.table[i].single], index - 12) == ZERO_BLOCK && n'.single == 0
    requires v' == Vol(v.table[i := n'], v.data, v.used - Freed(block) - {v.table[i].single}, v.owner)
    ensures BlockRemoved(v, v', lo, i, index)
  {
    hide Safe, HasChild, T, Shrunk, CutBlocks;
    var k := index - 12;
    CutTwo(v, i, SLeaf(k), Single);
    CutSingle(v, lo, i, k, n', v');
    CutShrinks(v, v', lo, i, index, {SLeaf(k), Single});
  }

  /** The pointers met on the way to a logical block under the double-indirect table. */
  ghost predicate DoublePath(v: Vol, i: nat, index: nat, n': Inode, block: nat, innerBlock: nat) {
    && i < |v.table| && 516 <= index < MAX_INDEX
    && var o, k := (index - 516) / PTRS, (index - 516) % PTRS;
    && var n := v.table[i];
    && 0 < n.double < |v.data| && 0 < innerBlock < |v.data|
    && T(v, i, Double) == n.double && T(v, i, Inner(o)) == innerBlock && T(v, i, DLeaf(o, k)) == block
    && PointerAt(v.data[innerBlock], k) == block
    && n'.direct == n.direct && n'.single == n.single
    && n'.blockCount == (if block != 0 then Decrement(n.blockCount) else n.blockCount)
  }

  lemma LeafNeedsTables(v: Vol, i: nat, o: nat)
    ensures T(v, i, Inner(o)) != 0 ==> HasChild(v, i, Double)
  {
  }

  /** The inner table keeps other pointers. */
  lemma InnerKept(v: Vol, v': Vol, lo: nat, i: nat, index: nat, n': Inode, block: nat, innerBlock: nat)
    requires Safe(v, lo) && DoublePath(v, i, index, n', block, innerBlock)
    requires var inner := Emptied(v.data[innerBlock], (index - 516) % PTRS);
             && inner != ZERO_BLOCK && n'.double == v.table[i].double
             && v' == Vol(v.table[i := n'], v.data[innerBlock := inner], v.used - Freed(block), v.owner)
    ensures BlockRemoved(v, v', lo, i, index)
  {
    hide Safe, HasChild, T, Shrunk, CutBlocks;
    var o, k := (index - 516) / PTRS, (index - 516) % PTRS;
    CutOne(v, i, DLeaf(o, k));
    CutEntry(v, lo, i, Inner(o), k, DLeaf(o, k), n', v');
    LeafNeedsTables(v', i, o);
    CutShrinks(v, v', lo, i, index, {DLeaf(o, k)});
  }

  /** The inner table is freed, the outer table keeps other pointers. */
  lemma InnerFreed(v: Vol, v': Vol, lo: nat, i: nat, index: nat, n': Inode, block: nat, innerBlock: nat)
    requires Safe(v, lo) && DoublePath(v, i, index, n', block, innerBlock)
    requires var o, k := (index - 516) / PTRS, (index - 516) % PTRS;
             var outer := SetPointer(v.data[v.table[i].double], o, 0);
             && Emptied(v.data[innerBlock], k) == ZERO_BLOCK && outer != ZERO_BLOCK && n'.double == v.table[i].double
             && v' == Vol(v.table[i := n'], v.data[v.table[i].double := outer], v.used - Freed(block) - {innerBlock},
               v.owner)
    ensures BlockRemoved(v, v', lo, i, index)
  {
    hide Safe, HasChild, T, Shrunk, CutBlocks;
    var o, k := (index - 516) / PTRS, (index - 516) % PTRS;
    CutTwo(v, i, DLeaf(o, k), Inner(o));
    CutInner(v, lo, i, o, k, n', v');
    CutShrinks(v, v', lo, i, index, {DLeaf(o, k), Inner(o)});
  }

  /** Both tables are freed. */
  lemma BothFreed(v: Vol, v': Vol, lo: nat, i: nat, index: nat, n': Inode, block: nat, innerBlock: nat)
    requires Safe(v, lo) && DoublePath(v, i, index, n', block, innerBlock)
    requires var o, k := (index - 516) / PTRS, (index - 516) % PTRS;
             && Emptied(v.data[innerBlock], k) == ZERO_BLOCK && n'.double == 0
             && SetPointer(v.data[v.table[i].double], o, 0) == ZERO_BLOCK
             && v' == Vol(v.table[i := n'], v.data, v.used - Freed(block) - {innerBlock} - {v.table[i].double}, v.owner)
    ensures BlockRemoved(v, v', lo, i, index)
  {
    hide Safe, HasChild, T, Shrunk, CutBlocks;
    var o, k := (index - 516) / PTRS, (index - 516) % PTRS;
    CutThree(v, i, DLeaf(o, k), Inner(o), Double);
    CutDouble(v, lo, i, o, k, n', v');
    CutShrinks(v, v', lo, i, index, {DLeaf(o, k), Inner(o), Double});
  }
}
