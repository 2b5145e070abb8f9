/** The filesystem seen as values: the inode table, the data blocks, the allocated blocks and
    the block-pointer tree of every inode. */
module Volume {
  import opened Layout
  import opened Pointers
  import opened Inodes
  import opened Wrappers

  /** One past the last mappable logical block. */
  const MAX_INDEX: nat := 254532

  /** A place that can hold a block pointer: the twelve direct pointers, the roots of the two
      indirect trees, and the entries of the tables below them. */
  datatype Slot =
    | Direct(k: nat)
    | Single
    | Double
    | SLeaf(k: nat)
    | Inner(o: nat)
    | DLeaf(o: nat, k: nat)
  {
    predicate IsLeaf() {
      Direct? || SLeaf? || DLeaf?
    }
  }

  /** The slot that maps logical block `index`. */
  function SlotOf(index: nat): (s: Slot)
    ensures s.IsLeaf()
  {
    if index < 12 then Direct(index)
    else if index < 516 then SLeaf(index - 12)
    else DLeaf((index - 516) / 504, (index - 516) % 504)
  }

  lemma SlotOfInjective(i: nat, j: nat)
    requires SlotOf(i) == SlotOf(j)
    ensures i == j
  {
  }

  function IndexOf(s: Slot): nat {
    match s
    case Direct(k) => k
    case SLeaf(k) => 12 + k
    case DLeaf(o, k) => 516 + o * 504 + k
    case _ => 0
  }

  lemma SlotOfIndexOf(s: Slot)
    requires (s.Direct? && s.k < 12) || (s.SLeaf? && s.k < 504) || (s.DLeaf? && s.o < 504 && s.k < 504)
    ensures SlotOf(IndexOf(s)) == s && IndexOf(s) < MAX_INDEX
  {
  }

  /** A pointer slot of a particular inode. */
  datatype Ref = Ref(ino: nat, slot: Slot)

  /** `owner` remembers, for every block some slot points to, which slot that is. */
  datatype Vol = Vol(table: seq<Inode>, data: seq<Block>, used: set<nat>, owner: map<nat, Ref>)

  function Entry(data: seq<Block>, b: nat, k: nat): (p: nat) {
    if b == 0 || b >= |data| || k >= PTRS then 0 else PointerAt(data[b], k)
  }

  /** The block a slot of inode `n` points to, 0 when it points nowhere. */
  function Target(data: seq<Block>, n: Inode, s: Slot): (b: nat) {
    match s
    case Direct(k) => if k < 12 then n.direct[k] else 0
    case Single => n.single
    case Double => n.double
    case SLeaf(k) => Entry(data, n.single, k)
    case Inner(o) => Entry(data, n.double, o)
    case DLeaf(o, k) => Entry(data, Entry(data, n.double, o), k)
  }

  function T(v: Vol, i: nat, s: Slot): nat {
    if i < |v.table| then Target(v.data, v.table[i], s) else 0
  }

  /** The contents of logical block `index` of inode `i`; an unmapped block reads as zeros. */
  function Page(v: Vol, i: nat, index: nat): Block {
    var b := T(v, i, SlotOf(index));
    if b == 0 || b >= |v.data| then ZERO_BLOCK else v.data[b]
  }

  /** Ownership: every block a slot points to is an allocated data block, and no other slot of
      any inode points to it. */
  ghost predicate Safe(v: Vol, lo: nat) {
    && 0 < lo
    && forall i: nat, s: Slot {:trigger T(v, i, s)} ::
      T(v, i, s) != 0 ==>
        && lo <= T(v, i, s) < |v.data|
        && T(v, i, s) in v.used
        && T(v, i, s) in v.owner
        && v.owner[T(v, i, s)] == Ref(i, s)
  }

  /** No data block is free. */
  ghost predicate AllTaken(v: Vol, lo: nat) {
    forall c {:trigger c in v.used} :: lo <= c < |v.data| ==> c in v.used
  }

  /** Volume `v` with inode `i` replaced by a working copy. */
  function With(v: Vol, i: nat, n: Inode): Vol
    requires i < |v.table|
  {
    v.(table := v.table[i := n])
  }

  /** What ownership says without naming owners: a block is reached by one slot only. */
  lemma NoSharing(v: Vol, lo: nat, i: nat, s: Slot, j: nat, t: Slot)
    requires Safe(v, lo)
    requires T(v, i, s) == T(v, j, t) != 0
    ensures i == j && s == t
  {
    assert v.owner[T(v, i, s)] == Ref(i, s);
  }

  // ---------------------------------------------------------------- changes to the block array

  /** Overwriting a block that file data lives in moves no pointer. */
  lemma LeafWrite(v: Vol, lo: nat, i: nat, s: Slot, blk: Block, v': Vol)
    requires Safe(v, lo) && s.IsLeaf() && T(v, i, s) != 0
    requires v' == v.(data := v.data[T(v, i, s) := blk])
    ensures forall j: nat, t: Slot :: T(v', j, t) == T(v, j, t)
    ensures Safe(v', lo)
  {
    var b := T(v, i, s);
    forall j: nat, t: Slot
      ensures T(v', j, t) == T(v, j, t)
    {
      assert T(v, j, Single) != b && T(v, j, Double) != b;
      if t.DLeaf? {
        assert T(v, j, Inner(t.o)) != b;
      }
    }
  }

  /** Taking a free block and zeroing it moves no pointer. */
  lemma TakeBlock(v: Vol, lo: nat, b: nat, v': Vol)
    requires Safe(v, lo) && b !in v.used && lo <= b < |v.data|
    requires v' == v.(data := v.data[b := ZERO_BLOCK], used := v.used + {b})
    ensures forall j: nat, t: Slot :: T(v', j, t) == T(v, j, t) != b
    ensures Safe(v', lo)
  {
    hide PointerAt, SetPointer;
    forall j: nat, t: Slot
      ensures T(v', j, t) == T(v, j, t) != b
    {
      assert T(v, j, Single) != b && T(v, j, Double) != b;
      if t.DLeaf? {
        assert T(v, j, Inner(t.o)) != b;
      }
      assert T(v, j, t) != b;
    }
  }

  // ---------------------------------------------------------------- linking a new block

  /** `n'` has the pointers of `n` except that root slot `s` holds `b`. */
  predicate SetRoot(n: Inode, s: Slot, b: nat, n': Inode) {
    match s
    case Direct(k) => k < 12 && b < 0x1_0000_0000_0000_0000 && n'.direct == n.direct[k := b] && n'.single == n.single
      && n'.double == n.double
    case Single => n'.direct == n.direct && n'.single == b && n'.double == n.double
    case Double => n'.direct == n.direct && n'.single == n.single && n'.double == b
    case _ => false
  }

  /** `v'` is `v` with free block `b`, now zeroed, hung under slot `s` of inode `i`. */
  ghost predicate Linked(v: Vol, v': Vol, i: nat, s: Slot, b: nat) {
    && i < |v.table| == |v'.table|
    && |v'.data| == |v.data|
    && 0 < b < |v.data|
    && T(v, i, s) == 0
    && b !in v.used
    && v'.used == v.used + {b}
    && v'.owner == v.owner[b := Ref(i, s)]
    && (forall j: nat, t: Slot {:trigger T(v', j, t)} {:trigger T(v, j, t)} ::
      T(v', j, t) == if j == i && t == s then b else T(v, j, t))
    && v'.data[b] == ZERO_BLOCK
    && (forall j: nat, t: Slot {:trigger T(v, j, t)} :: t.IsLeaf() && 0 < T(v, j, t) < |v.data| ==>
      v'.data[T(v, j, t)] == v.data[T(v, j, t)])
  }

  /** Hanging a block under a pointer held by the inode itself. */
  lemma LinkRoot(v: Vol, lo: nat, i: nat, s: Slot, b: nat, n': Inode, v': Vol)
    requires Safe(v, lo) && i < |v.table| && b !in v.used && lo <= b < |v.data|
    requires T(v, i, s) == 0 && SetRoot(v.table[i], s, b, n')
    requires v' == Vol(v.table[i := n'], v.data[b := ZERO_BLOCK], v.used + {b}, v.owner[b := Ref(i, s)])
    ensures Linked(v, v', i, s, b)
  {
    hide PointerAt, SetPointer;
    var w := v.(data := v.data[b := ZERO_BLOCK], used := v.used + {b});
    TakeBlock(v, lo, b, w);
    AllNull(ZERO_BLOCK);
    forall j: nat, t: Slot
      ensures T(v', j, t) == if j == i && t == s then b else T(v, j, t)
    {
      assert T(w, j, t) == T(v, j, t);
      assert T(w, j, Double) == T(v, j, Double);
    }
  }

  /** The slot of the table that holds a non-root slot, and the entry in it. */
  function Parent(s: Slot): (Slot, nat)
    requires s.SLeaf? || s.Inner? || s.DLeaf?
  {
    match s
    case SLeaf(k) => (Single, k)
    case Inner(o) => (Double, o)
    case DLeaf(o, k) => (Inner(o), k)
  }

  /** Hanging a block under an entry of a pointer table. */
  lemma LinkEntry(v: Vol, lo: nat, i: nat, s: Slot, b: nat, v': Vol)
    requires Safe(v, lo) && i < |v.table| && b !in v.used && lo <= b < |v.data| <= 0x1_0000_0000_0000_0000
    requires s.SLeaf? || s.Inner? || s.DLeaf?
    requires Parent(s).1 < PTRS && T(v, i, s) == 0
    requires var table := T(v, i, Parent(s).0);
             && table != 0
             && v' == v.(data := v.data[b := ZERO_BLOCK][table := SetPointer(v.data[table], Parent(s).1, b)],
                         used := v.used + {b}, owner := v.owner[b := Ref(i, s)])
    ensures Linked(v, v', i, s, b)
  {
    hide PointerAt, SetPointer;
    var (p, k) := Parent(s);
    var nb := T(v, i, p);
    var w := v.(data := v.data[b := ZERO_BLOCK], used := v.used + {b});
    TakeBlock(v, lo, b, w);
    AllNull(ZERO_BLOCK);
    TableWrite(w, lo, i, p, k, b, v'.(owner := v.owner));
    forall j: nat, t: Slot
      ensures T(v', j, t) == if j == i && t == s then b else T(v, j, t)
    {
      assert T(w, j, t) == T(v, j, t);
      assert T(v'.(owner := v.owner), j, t) == T(v', j, t);
    }
  }

  /** What slot `t` of inode `j` points to once `b` is stored at entry `k` of the table under
      slot `p` of inode `i`. */
  function Rewired(v: Vol, v': Vol, i: nat, p: Slot, k: nat, b: nat, j: nat, t: Slot): nat {
    if j != i then T(v, j, t)
    else if p == Single && t == SLeaf(k) then b
    else if p == Double && t == Inner(k) then b
    else if p == Double && t.DLeaf? && t.o == k then Entry(v'.data, b, t.k)
    else if p.Inner? && t == DLeaf(p.o, k) then b
    else T(v, j, t)
  }

  /** Storing pointer `b` at entry `k` of the table under slot `p` changes that slot, and the
      slots below it, of inode `i` only. */
  lemma TableWrite(v: Vol, lo: nat, i: nat, p: Slot, k: nat, b: nat, v': Vol)
    requires Safe(v, lo) && i < |v.table| && k < PTRS && b < 0x1_0000_0000_0000_0000
    requires !p.IsLeaf() && T(v, i, p) != 0
    requires v' == v.(data := v.data[T(v, i, p) := SetPointer(v.data[T(v, i, p)], k, b)])
    ensures forall j: nat, t: Slot :: T(v', j, t) == Rewired(v, v', i, p, k, b, j, t)
  {
    forall j: nat, t: Slot
      ensures T(v', j, t) == Rewired(v, v', i, p, k, b, j, t)
    {
      if j < |v.table| {
        TableWriteAt(v, lo, i, p, k, b, v', j, t);
      }
    }
  }

  lemma TableWriteAt(v: Vol, lo: nat, i: nat, p: Slot, k: nat, b: nat, v': Vol, j: nat, t: Slot)
    requires Safe(v, lo) && i < |v.table| && k < PTRS && b < 0x1_0000_0000_0000_0000
    requires !p.IsLeaf() && T(v, i, p) != 0 && j < |v.table|
    requires v' == v.(data := v.data[T(v, i, p) := SetPointer(v.data[T(v, i, p)], k, b)])
    ensures T(v', j, t) == Rewired(v, v', i, p, k, b, j, t)
  {
    hide PointerAt, SetPointer;
    var nb, n := T(v, i, p), v.table[j];
    assert T(v, j, Single) == n.single == nb ==> j == i && p == Single;
    assert T(v, j, Double) == n.double == nb ==> j == i && p == Double;
    match t {
      case SLeaf(m) =>
        EntryAfter(v.data, nb, k, b, n.single, m);
      case Inner(o) =>
        EntryAfter(v.data, nb, k, b, n.double, o);
      case DLeaf(o, m) =>
        EntryAfter(v.data, nb, k, b, n.double, o);
        var inner := T(v, j, Inner(o));
        assert inner == nb ==> j == i && p == Inner(o);
        EntryAfter(v.data, nb, k, b, inner, m);
      case _ =>
    }
  }

  lemma EntryAfter(data: seq<Block>, nb: nat, k: nat, b: nat, c: nat, m: nat)
    requires 0 < nb < |data| && k < PTRS && b < 0x1_0000_0000_0000_0000
    ensures Entry(data[nb := SetPointer(data[nb], k, b)], c, m) ==
      if c == nb && m == k then b else Entry(data, c, m)
  {
    hide PointerAt, SetPointer;
    if m < PTRS {
      PointerAtSet(data[nb], k, b, m);
    }
  }

  // ---------------------------------------------------------------- exact accounting

  /** The blocks before the data region are all allocated, and every allocated data block is
      reached by the slot that owns it. */
  ghost predicate NoLeak(v: Vol, lo: nat) {
    forall b: nat {:trigger b in v.used} ::
      if b < lo then b in v.used
      else b in v.used ==> b in v.owner && T(v, v.owner[b].ino, v.owner[b].slot) == b
  }

  ghost predicate HasChild(v: Vol, i: nat, s: Slot) {
    match s
    case Single => exists k: nat :: T(v, i, SLeaf(k)) != 0
    case Double => exists o: nat :: T(v, i, Inner(o)) != 0
    case Inner(o) => exists k: nat :: T(v, i, DLeaf(o, k)) != 0
    case _ => true
  }

  /** No pointer table is kept without a pointer in it. */
  ghost predicate Full(v: Vol) {
    forall i: nat, s: Slot {:trigger T(v, i, s)} :: T(v, i, s) != 0 ==> HasChild(v, i, s)
  }

  /** The logical blocks of inode `i` that are mapped. */
  ghost function Mapped(v: Vol, i: nat): set<nat> {
    set index: nat | index < MAX_INDEX && T(v, i, SlotOf(index)) != 0
  }

  ghost predicate Counted(v: Vol) {
    forall i :: 0 <= i < |v.table| ==> v.table[i].blockCount == |Mapped(v, i)|
  }

  /** How far the stored block count of inode `i` is behind the blocks it maps, on 32 bits. */
  ghost function Shortfall(v: Vol, i: nat): nat {
    if i < |v.table| then (|Mapped(v, i)| - v.table[i].blockCount) % 0x1_0000_0000 else 0
  }

  /** Exact accounting: allocated means reachable, no empty pointer table, exact block counts. */
  ghost predicate Tight(v: Vol, lo: nat) {
    NoLeak(v, lo) && Full(v) && Counted(v)
  }

  /** Slot `t` is the leaf slot itself or a table slot above it. */
  predicate OnPath(t: Slot, leaf: Slot) {
    t == leaf || (leaf.SLeaf? && t == Single) || (leaf.DLeaf? && (t == Double || t == Inner(leaf.o)))
  }

  /** The slots on the way to a leaf. */
  function PathTo(leaf: Slot): (path: set<Slot>)
    ensures forall t: Slot {:trigger t in path} :: t in path <==> OnPath(t, leaf)
  {
    match leaf
    case SLeaf(_) => {Single, leaf}
    case DLeaf(o, _) => {Double, Inner(o), leaf}
    case _ => {leaf}
  }

  // ---------------------------------------------------------------- growth

  /** `v'` has the blocks of `v`; every block allocated since hangs under one of `slots` of inode
      `i` that held none, and no slot got a block that was allocated before. */
  ghost predicate Takes(v: Vol, v': Vol, i: nat, slots: set<Slot>) {
    && v.used <= v'.used
    && (forall t: Slot {:trigger T(v', i, t)} :: T(v, i, t) != 0 ==> T(v', i, t) == T(v, i, t))
    && (forall t: Slot {:trigger T(v', i, t)} ::
      T(v, i, t) == 0 && T(v', i, t) != 0 ==> t in slots && T(v', i, t) !in v.used && T(v', i, t) in v'.used)
    && (forall b: nat {:trigger b in v'.used} :: b in v'.used && b !in v.used ==>
      && 0 < b && b in v'.owner && v'.owner[b].ino == i && v'.owner[b].slot in slots
      && T(v, i, v'.owner[b].slot) == 0 && T(v', i, v'.owner[b].slot) == b)
  }

  lemma TakesRefl(v: Vol, i: nat, slots: set<Slot>)
    ensures Takes(v, v, i, slots)
  {
  }

  lemma TakesTrans(v: Vol, v1: Vol, v2: Vol, lo: nat, i: nat, slots: set<Slot>, slots': set<Slot>)
    requires Takes(v, v1, i, slots) && Takes(v1, v2, i, slots') && Safe(v2, lo)
    ensures Takes(v, v2, i, slots + slots')
  {
    forall b: nat | b in v2.used && b !in v.used
      ensures 0 < b && b in v2.owner && v2.owner[b].ino == i && v2.owner[b].slot in slots + slots'
      ensures T(v, i, v2.owner[b].slot) == 0 && T(v2, i, v2.owner[b].slot) == b
    {
      if b in v1.used {
        assert T(v2, i, v1.owner[b].slot) == b;
      } else {
        assert T(v1, i, v2.owner[b].slot) == 0;
      }
    }
  }

  /** `v'` has everything `v` has, and possibly more blocks on the path to one leaf of inode `i`;
      every logical block of every inode reads as before. */
  ghost predicate Grown(v: Vol, v': Vol, lo: nat, i: nat, leaf: Slot) {
    && |v'.table| == |v.table| && |v'.data| == |v.data|
    && Takes(v, v', i, PathTo(leaf))
    && Safe(v', lo)
    && (forall j: nat, t: Slot {:trigger T(v', j, t)} {:trigger T(v, j, t)} ::
      T(v, j, t) != 0 || j != i || !OnPath(t, leaf) ==> T(v', j, t) == T(v, j, t))
    && (forall j: nat, index: nat {:trigger Page(v', j, index)} :: Page(v', j, index) == Page(v, j, index))
    && (NoLeak(v, lo) ==> NoLeak(v', lo))
  }

  lemma GrownRefl(v: Vol, lo: nat, i: nat, leaf: Slot)
    requires Safe(v, lo)
    ensures Grown(v, v, lo, i, leaf)
  {
  }

  lemma GrownTrans(v: Vol, v1: Vol, v2: Vol, lo: nat, i: nat, leaf: Slot)
    requires Grown(v, v1, lo, i, leaf) && Grown(v1, v2, lo, i, leaf)
    ensures Grown(v, v2, lo, i, leaf)
  {
    TakesTrans(v, v1, v2, lo, i, PathTo(leaf), PathTo(leaf));
    assert PathTo(leaf) + PathTo(leaf) == PathTo(leaf);
    forall j: nat, t: Slot | T(v, j, t) != 0 || j != i || !OnPath(t, leaf)
      ensures T(v2, j, t) == T(v, j, t)
    {
      assert T(v1, j, t) == T(v, j, t);
    }
    forall j: nat, index: nat
      ensures Page(v2, j, index) == Page(v, j, index)
    {
      assert Page(v1, j, index) == Page(v, j, index);
    }
  }

  /** Hanging one new block on the path to a leaf is growth. */
  lemma LinkedGrows(v: Vol, v': Vol, lo: nat, i: nat, s: Slot, b: nat, leaf: Slot)
    requires Safe(v, lo) && Linked(v, v', i, s, b) && lo <= b
    requires leaf.IsLeaf() && OnPath(s, leaf)
    ensures Grown(v, v', lo, i, leaf)
  {
    forall j: nat, index: nat
      ensures Page(v', j, index) == Page(v, j, index)
    {
      assert T(v', j, SlotOf(index)) == if j == i && SlotOf(index) == s then b else T(v, j, SlotOf(index));
    }
    if NoLeak(v, lo) {
      forall c | c in v'.used && lo <= c
        ensures c in v'.owner && T(v', v'.owner[c].ino, v'.owner[c].slot) == c
      {
        assert c != b ==> c in v.used;
      }
    }
  }

  lemma LeafNeedsPath(v: Vol, i: nat, leaf: Slot, t: Slot)
    requires leaf.IsLeaf() && T(v, i, leaf) != 0 && OnPath(t, leaf)
    ensures T(v, i, t) != 0
    ensures HasChild(v, i, t)
  {
    match t {
      case Single => assert T(v, i, SLeaf(leaf.k)) != 0;
      case Double => assert T(v, i, Inner(leaf.o)) != 0;
      case Inner(o) => assert T(v, i, DLeaf(o, leaf.k)) != 0;
      case _ =>
    }
  }

  lemma ChildKept(v: Vol, v': Vol, i: nat, s: Slot)
    requires HasChild(v, i, s)
    requires forall t: Slot {:trigger T(v, i, t)} :: T(v, i, t) != 0 ==> T(v', i, t) != 0
    ensures HasChild(v', i, s)
  {
    match s {
      case Single =>
        var k: nat :| T(v, i, SLeaf(k)) != 0;
        assert T(v', i, SLeaf(k)) != 0;
      case Double =>
        var o: nat :| T(v, i, Inner(o)) != 0;
        assert T(v', i, Inner(o)) != 0;
      case Inner(o) =>
        var k: nat :| T(v, i, DLeaf(o, k)) != 0;
        assert T(v', i, DLeaf(o, k)) != 0;
      case _ =>
    }
  }

  /** Growth that reaches its leaf leaves no empty table behind. */
  lemma GrownFull(v: Vol, v': Vol, lo: nat, i: nat, leaf: Slot)
    requires leaf.IsLeaf() && Grown(v, v', lo, i, leaf) && T(v', i, leaf) != 0
    requires Full(v)
    ensures Full(v')
  {
    forall j: nat, s: Slot | T(v', j, s) != 0
      ensures HasChild(v', j, s)
    {
      if T(v, j, s) != 0 {
        ChildKept(v, v', j, s);
      } else {
        LeafNeedsPath(v', i, leaf, s);
      }
    }
  }

  lemma GrownMapped(v: Vol, v': Vol, lo: nat, i: nat, index: nat, j: nat)
    requires Grown(v, v', lo, i, SlotOf(index)) && index < MAX_INDEX
    ensures Mapped(v', j) == if j == i && T(v', i, SlotOf(index)) != 0 then Mapped(v, j) + {index} else Mapped(v, j)
  {
    forall m: nat | m < MAX_INDEX
      ensures m in Mapped(v', j) <==> m in Mapped(v, j) || (j == i && m == index && T(v', i, SlotOf(index)) != 0)
    {
      if m != index {
        if SlotOf(m) == SlotOf(index) { SlotOfInjective(m, index); }
        assert !OnPath(SlotOf(m), SlotOf(index));
      }
      assert T(v, j, SlotOf(m)) != 0 ==> T(v', j, SlotOf(m)) != 0;
    }
  }

  lemma {:induction false} CardBound(s: set<nat>, n: nat)
    requires forall x | x in s :: x < n
    ensures |s| <= n
  {
    if n > 0 {
      CardBound(s - {n - 1}, n - 1);
      assert s <= (s - {n - 1}) + {n - 1};
    } else {
      assert s == {};
    }
  }

  lemma MappedBound(v: Vol, i: nat)
    ensures |Mapped(v, i)| <= MAX_INDEX
  {
    CardBound(Mapped(v, i), MAX_INDEX);
  }

  /** `n'` keeps every pointer of `n`, and all its other fields but the block count. */
  predicate Extends(n: Inode, n': Inode) {
    && n' == n.(direct := n'.direct, single := n'.single, double := n'.double, blockCount := n'.blockCount)
    && (forall k :: 0 <= k < 12 ==> n.direct[k] == 0 || n.direct[k] == n'.direct[k])
    && (n.single == 0 || n.single == n'.single)
    && (n.double == 0 || n.double == n'.double)
  }

  /** One more mapped logical block, recorded in a block count that cannot wrap. */
  lemma LeafReached(v: Vol, v': Vol, lo: nat, i: nat, index: nat)
    requires index < MAX_INDEX && i < |v.table|
    requires Grown(v, v', lo, i, SlotOf(index)) && T(v', i, SlotOf(index)) != 0
    requires forall j :: 0 <= j < |v.table| && j != i ==> v'.table[j] == v.table[j]
    requires v'.table[i].blockCount == if T(v, i, SlotOf(index)) == 0 then Increment(v.table[i].blockCount)
      else v.table[i].blockCount
    ensures Full(v) ==> Full(v')
    ensures Counted(v) ==> Counted(v')
  {
    if Full(v) {
      GrownFull(v, v', lo, i, SlotOf(index));
    }
    if Counted(v) {
      forall j | 0 <= j < |v'.table|
        ensures v'.table[j].blockCount == |Mapped(v', j)|
      {
        GrownMapped(v, v', lo, i, index, j);
        MappedBound(v', j);
        assert j == i && T(v, i, SlotOf(index)) != 0 ==> Mapped(v', i) == Mapped(v, i);
      }
    }
  }

  // ---------------------------------------------------------------- removal

  /** The blocks a set of slots of inode `i` points to. */
  ghost function CutBlocks(v: Vol, i: nat, cut: set<Slot>): set<nat> {
    set s | s in cut && T(v, i, s) != 0 :: T(v, i, s)
  }

  /** `v'` is `v` with the slots in `cut` of inode `i` emptied and their blocks freed. */
  ghost predicate Removed(v: Vol, v': Vol, i: nat, cut: set<Slot>) {
    && |v'.table| == |v.table| && |v'.data| == |v.data|
    && v'.owner == v.owner
    && v'.used == v.used - CutBlocks(v, i, cut)
    && (forall j: nat, t: Slot {:trigger T(v', j, t)} {:trigger T(v, j, t)} ::
      T(v', j, t) == if j == i && t in cut then 0 else T(v, j, t))
    && (forall j: nat, t: Slot {:trigger T(v', j, t)} :: t.IsLeaf() && 0 < T(v', j, t) < |v.data| ==>
      v'.data[T(v', j, t)] == v.data[T(v', j, t)])
  }

  /** Emptying slots keeps ownership, keeps allocated blocks reachable and changes no logical
      block that was not cut. */
  lemma RemovedKeeps(v: Vol, v': Vol, lo: nat, i: nat, cut: set<Slot>)
    requires Safe(v, lo) && Removed(v, v', i, cut)
    ensures Safe(v', lo)
    ensures forall j: nat, index: nat {:trigger Page(v', j, index)} ::
      Page(v', j, index) == if j == i && SlotOf(index) in cut then ZERO_BLOCK else Page(v, j, index)
    ensures NoLeak(v, lo) ==> NoLeak(v', lo)
  {
    forall j: nat, t: Slot | T(v', j, t) != 0
      ensures T(v', j, t) in v'.used
    {
      var b := T(v, j, t);
      forall s | s in cut && T(v, i, s) == b
        ensures false
      {
        NoSharing(v, lo, i, s, j, t);
      }
    }
    if NoLeak(v, lo) {
      forall b | b in v'.used && lo <= b
        ensures b in v'.owner && T(v', v'.owner[b].ino, v'.owner[b].slot) == b
      {
        assert b in v.used;
        var r := v.owner[b];
        assert T(v, r.ino, r.slot) == b;
      }
    }
  }

  /** Cutting one leaf and the tables it leaves empty keeps every remaining table non-empty. */
  lemma RemovedFull(v: Vol, v': Vol, i: nat, leaf: Slot, cut: set<Slot>)
    requires leaf.IsLeaf() && Removed(v, v', i, cut) && Full(v)
    requires forall t | t in cut :: OnPath(t, leaf)
    requires forall t | OnPath(t, leaf) && T(v', i, t) != 0 :: HasChild(v', i, t)
    ensures Full(v')
  {
    forall j: nat, s: Slot | T(v', j, s) != 0
      ensures HasChild(v', j, s)
    {
      assert T(v, j, s) != 0;
      if j != i || !OnPath(s, leaf) {
        ChildLeft(v, v', i, leaf, cut, j, s);
      }
    }
  }

  /** The children of a table off the cut path stay. */
  lemma ChildLeft(v: Vol, v': Vol, i: nat, leaf: Slot, cut: set<Slot>, j: nat, s: Slot)
    requires Removed(v, v', i, cut) && HasChild(v, j, s)
    requires forall t | t in cut :: OnPath(t, leaf)
    requires leaf.IsLeaf() && (j != i || !OnPath(s, leaf))
    ensures HasChild(v', j, s)
  {
    hide T;
    match s {
      case Single =>
        var k: nat :| T(v, j, SLeaf(k)) != 0;
        assert T(v', j, SLeaf(k)) != 0;
      case Double =>
        var o: nat :| T(v, j, Inner(o)) != 0;
        assert T(v', j, Inner(o)) != 0;
      case Inner(o) =>
        var k: nat :| T(v, j, DLeaf(o, k)) != 0;
        assert T(v', j, DLeaf(o, k)) != 0;
      case _ =>
    }
  }

  lemma RemovedMapped(v: Vol, v': Vol, i: nat, index: nat, cut: set<Slot>, j: nat)
    requires Removed(v, v', i, cut) && index < MAX_INDEX
    requires SlotOf(index) in cut && forall t | t in cut :: OnPath(t, SlotOf(index))
    ensures Mapped(v', j) == if j == i then Mapped(v, j) - {index} else Mapped(v, j)
  {
    forall m: nat | m < MAX_INDEX
      ensures m in Mapped(v', j) <==> m in Mapped(v, j) && !(j == i && m == index)
    {
      if SlotOf(m) in cut {
        assert SlotOf(m) == SlotOf(index);
        SlotOfInjective(m, index);
      }
      assert T(v', j, SlotOf(m)) == if j == i && SlotOf(m) in cut then 0 else T(v, j, SlotOf(m));
    }
  }

  predicate SamePointers(n: Inode, n': Inode) {
    n'.direct == n.direct && n'.single == n.single && n'.double == n.double
  }

  /** Emptying a pointer the inode itself holds, when no table hangs under it. */
  lemma CutDirect(v: Vol, lo: nat, i: nat, k: nat, n': Inode, v': Vol)
    requires Safe(v, lo) && i < |v.table| && k < 12
    requires SetRoot(v.table[i], Direct(k), 0, n')
    requires v' == v.(table := v.table[i := n'], used := v.used - CutBlocks(v, i, {Direct(k)}))
    ensures Removed(v, v', i, {Direct(k)})
  {
    forall j: nat, t: Slot
      ensures T(v', j, t) == if j == i && t in {Direct(k)} then 0 else T(v, j, t)
    {
    }
  }

  /** The pointer table that entry `k` was emptied in, as it stands in memory. */
  function Emptied(ptrs: Block, k: nat): Block
    requires k < PTRS
  {
    if PointerAt(ptrs, k) != 0 then SetPointer(ptrs, k, 0) else ptrs
  }

  lemma EmptiedEntry(ptrs: Block, k: nat, j: nat)
    requires k < PTRS && j < PTRS
    ensures PointerAt(Emptied(ptrs, k), j) == if j == k then 0 else PointerAt(ptrs, j)
  {
    PointerAtSet(ptrs, k, 0, j);
  }

  /** The table is written back with entry `k` empty. */
  lemma CutEntry(v: Vol, lo: nat, i: nat, p: Slot, k: nat, s: Slot, n': Inode, v': Vol)
    requires Safe(v, lo) && i < |v.table| && k < PTRS
    requires s.IsLeaf() && !s.Direct? && Parent(s) == (p, k) && T(v, i, p) != 0
    requires SamePointers(v.table[i], n')
    requires v' == v.(table := v.table[i := n'],
                      data := v.data[T(v, i, p) := Emptied(v.data[T(v, i, p)], k)],
                      used := v.used - CutBlocks(v, i, {s}))
    ensures Removed(v, v', i, {s})
    ensures Emptied(v.data[T(v, i, p)], k) != ZERO_BLOCK ==> HasChild(v', i, p)
  {
    hide PointerAt, SetPointer;
    var nb := T(v, i, p);
    var w := v'.(table := v.table, used := v.used);
    if PointerAt(v.data[nb], k) != 0 {
      TableWrite(v, lo, i, p, k, 0, w);
    } else {
      assert v.data[nb := v.data[nb]] == v.data;
    }
    forall j: nat, t: Slot
      ensures T(v', j, t) == if j == i && t in {s} then 0 else T(v, j, t)
    {
      assert T(w, j, t) == T(v', j, t);
    }
    if Emptied(v.data[nb], k) != ZERO_BLOCK {
      NonEmptyTable(v', i, p);
    }
  }

  lemma NonEmptyTable(v: Vol, i: nat, p: Slot)
    requires !p.IsLeaf() && 0 < T(v, i, p) < |v.data|
    requires v.data[T(v, i, p)] != ZERO_BLOCK
    ensures HasChild(v, i, p)
  {
    var ptrs := v.data[T(v, i, p)];
    AllNull(ptrs);
    var k :| 0 <= k < PTRS && PointerAt(ptrs, k) != 0;
    match p {
      case Single => assert T(v, i, SLeaf(k)) != 0;
      case Double => assert T(v, i, Inner(k)) != 0;
      case Inner(o) => assert T(v, i, DLeaf(o, k)) != 0;
      case _ =>
    }
  }

  /** The last pointer of the single-indirect table goes, and the table with it. */
  lemma CutSingle(v: Vol, lo: nat, i: nat, k: nat, n': Inode, v': Vol)
    requires Safe(v, lo) && i < |v.table| && k < PTRS
    requires T(v, i, Single) != 0 && Emptied(v.data[T(v, i, Single)], k) == ZERO_BLOCK
    requires SetRoot(v.table[i], Single, 0, n')
    requires v' == v.(table := v.table[i := n'], used := v.used - CutBlocks(v, i, {SLeaf(k), Single}))
    ensures Removed(v, v', i, {SLeaf(k), Single})
  {
    hide PointerAt, SetPointer;
    var ptrs := v.data[T(v, i, Single)];
    AllNull(ZERO_BLOCK);
    forall j: nat, t: Slot
      ensures T(v', j, t) == if j == i && t in {SLeaf(k), Single} then 0 else T(v, j, t)
    {
      if t.SLeaf? && t.k < PTRS {
        EmptiedEntry(ptrs, k, t.k);
      }
    }
  }

  /** The last pointer of an inner table goes, the outer table keeps others. */
  lemma CutInner(v: Vol, lo: nat, i: nat, o: nat, k: nat, n': Inode, v': Vol)
    requires Safe(v, lo) && i < |v.table| && o < PTRS && k < PTRS
    requires T(v, i, Inner(o)) != 0 && Emptied(v.data[T(v, i, Inner(o))], k) == ZERO_BLOCK
    requires var outer := T(v, i, Double);
             && outer != 0
             && SamePointers(v.table[i], n')
             && v' == v.(table := v.table[i := n'],
                         data := v.data[outer := SetPointer(v.data[outer], o, 0)],
                         used := v.used - CutBlocks(v, i, {DLeaf(o, k), Inner(o)}))
    ensures Removed(v, v', i, {DLeaf(o, k), Inner(o)})
    ensures SetPointer(v.data[T(v, i, Double)], o, 0) != ZERO_BLOCK ==> HasChild(v', i, Double)
  {
    hide PointerAt, SetPointer;
    var w := v'.(table := v.table, used := v.used);
    TableWrite(v, lo, i, Double, o, 0, w);
    AllNull(ZERO_BLOCK);
    forall j: nat, t: Slot
      ensures T(v', j, t) == if j == i && t in {DLeaf(o, k), Inner(o)} then 0 else T(v, j, t)
    {
      assert T(w, j, t) == T(v', j, t);
      if t.DLeaf? && t.o == o && t.k < PTRS {
        EmptiedEntry(v.data[T(v, i, Inner(o))], k, t.k);
      }
    }
    if SetPointer(v.data[T(v, i, Double)], o, 0) != ZERO_BLOCK {
      NonEmptyTable(v', i, Double);
    }
  }

  /** The last pointer below the double-indirect table goes, and both tables with it. */
  lemma CutDouble(v: Vol, lo: nat, i: nat, o: nat, k: nat, n': Inode, v': Vol)
    requires Safe(v, lo) && i < |v.table| && o < PTRS && k < PTRS
    requires T(v, i, Double) != 0 && SetPointer(v.data[T(v, i, Double)], o, 0) == ZERO_BLOCK
    requires T(v, i, Inner(o)) != 0 && Emptied(v.data[T(v, i, Inner(o))], k) == ZERO_BLOCK
    requires SetRoot(v.table[i], Double, 0, n')
    requires v' == v.(table := v.table[i := n'], used := v.used - CutBlocks(v, i, {DLeaf(o, k), Inner(o), Double}))
    ensures Removed(v, v', i, {DLeaf(o, k), Inner(o), Double})
  {
    hide PointerAt, SetPointer;
    var outer := v.data[T(v, i, Double)];
    AllNull(ZERO_BLOCK);
    forall j: nat, t: Slot
      ensures T(v', j, t) == if j == i && t in {DLeaf(o, k), Inner(o), Double} then 0 else T(v, j, t)
    {
      if (t.Inner? || t.DLeaf?) && t.o < PTRS {
        PointerAtSet(outer, o, 0, t.o);
      }
      if t.DLeaf? && t.o == o && t.k < PTRS {
        EmptiedEntry(v.data[T(v, i, Inner(o))], k, t.k);
      }
    }
  }

  // ---------------------------------------------------------------- shrinking

  /** `v'` has lost slots of inode `i` only, and the blocks they pointed to. */
  ghost predicate Shrunk(v: Vol, v': Vol, lo: nat, i: nat) {
    && |v'.table| == |v.table| && |v'.data| == |v.data|
    && v'.owner == v.owner
    && Safe(v', lo)
    && v'.used <= v.used
    && (forall b {:trigger b in v'.used} :: b in v.used && b !in v'.used ==>
      0 < b && b in v.owner && v.owner[b].ino == i && T(v, i, v.owner[b].slot) == b)
    && (forall j: nat, t: Slot {:trigger T(v', j, t)} :: T(v', j, t) == T(v, j, t) || (j == i && T(v', j, t) == 0))
    && (forall j: nat, index: nat {:trigger Page(v', j, index)} :: j != i ==> Page(v', j, index) == Page(v, j, index))
    && (NoLeak(v, lo) ==> NoLeak(v', lo))
    && (Full(v) ==> Full(v'))
    && (Counted(v) ==> Counted(v'))
    && Shortfall(v', i) == Shortfall(v, i)
  }

  lemma ShrunkRefl(v: Vol, lo: nat, i: nat)
    requires Safe(v, lo)
    ensures Shrunk(v, v, lo, i)
  {
  }

  lemma ShrunkTrans(v: Vol, v1: Vol, v2: Vol, lo: nat, i: nat)
    requires Safe(v, lo) && Shrunk(v, v1, lo, i) && Shrunk(v1, v2, lo, i)
    ensures Shrunk(v, v2, lo, i)
  {
    hide T, Page, Safe, NoLeak, Full, Counted, Shortfall;
    forall j: nat, t: Slot
      ensures T(v2, j, t) == T(v, j, t) || (j == i && T(v2, j, t) == 0)
    {
      assert T(v1, j, t) == T(v, j, t) || (j == i && T(v1, j, t) == 0);
    }
    forall j: nat, index: nat | j != i
      ensures Page(v2, j, index) == Page(v, j, index)
    {
      assert Page(v1, j, index) == Page(v, j, index);
    }
    forall b | b in v.used && b !in v2.used
      ensures 0 < b && b in v.owner && v.owner[b].ino == i && T(v, i, v.owner[b].slot) == b
    {
      if b in v1.used {
        var s := v1.owner[b].slot;
        assert T(v1, i, s) == b;
      }
    }
  }

  /** Cutting the path to logical block `index` shrinks inode `i` and clears that block. */
  lemma CutShrinks(v: Vol, v': Vol, lo: nat, i: nat, index: nat, cut: set<Slot>)
    requires Safe(v, lo) && index < MAX_INDEX && i < |v.table| && Removed(v, v', i, cut)
    requires SlotOf(index) in cut && forall t | t in cut :: OnPath(t, SlotOf(index))
    requires forall t | OnPath(t, SlotOf(index)) && T(v', i, t) != 0 :: HasChild(v', i, t)
    requires forall j :: 0 <= j < |v.table| && j != i ==> v'.table[j] == v.table[j]
    requires v'.table[i].blockCount == if T(v, i, SlotOf(index)) != 0 then Decrement(v.table[i].blockCount)
      else v.table[i].blockCount
    ensures Shrunk(v, v', lo, i)
    ensures T(v', i, SlotOf(index)) == 0
    ensures forall m: nat {:trigger Page(v', i, m)} ::
      Page(v', i, m) == if m == index then ZERO_BLOCK else Page(v, i, m)
    ensures Mapped(v', i) == Mapped(v, i) - {index}
  {
    hide T, Page, NoLeak, HasChild, Shortfall, Mapped;
    RemovedKeeps(v, v', lo, i, cut);
    RemovedMapped(v, v', i, index, cut, i);
    ShortfallDrop(v, v', i, index);
    forall m: nat | SlotOf(m) in cut
      ensures m == index
    {
      SlotOfInjective(m, index);
    }
    forall b | b in v.used && b !in v'.used
      ensures 0 < b && b in v.owner && v.owner[b].ino == i && T(v, i, v.owner[b].slot) == b
    {
      var s :| s in cut && T(v, i, s) == b && b != 0;
      assert v.owner[b] == Ref(i, s);
    }
    if Full(v) {
      RemovedFull(v, v', i, SlotOf(index), cut);
    }
    if Counted(v) {
      forall j | 0 <= j < |v'.table|
        ensures v'.table[j].blockCount == |Mapped(v', j)|
      {
        RemovedMapped(v, v', i, index, cut, j);
        MappedDrop(v, i, index);
      }
    }
  }

  /** The block count follows the mapped blocks down. */
  lemma ShortfallDrop(v: Vol, v': Vol, i: nat, index: nat)
    requires i < |v.table| == |v'.table| && index < MAX_INDEX && Mapped(v', i) == Mapped(v, i) - {index}
    requires v'.table[i].blockCount == if T(v, i, SlotOf(index)) != 0 then Decrement(v.table[i].blockCount)
      else v.table[i].blockCount
    ensures Shortfall(v', i) == Shortfall(v, i)
  {
    hide T, SlotOf, Mapped;
    MappedDrop(v, i, index);
    var n, b := |Mapped(v, i)| as int, v.table[i].blockCount as int;
    if T(v, i, SlotOf(index)) != 0 && b == 0 {
      assert (n - 1 - 0xFFFF_FFFF) % 0x1_0000_0000 == (n - 0x1_0000_0000) % 0x1_0000_0000 == n % 0x1_0000_0000;
    }
  }

  lemma MappedDrop(v: Vol, i: nat, index: nat)
    requires index < MAX_INDEX
    ensures |Mapped(v, i) - {index}| == |Mapped(v, i)| - if T(v, i, SlotOf(index)) != 0 then 1 else 0
  {
    if T(v, i, SlotOf(index)) == 0 {
      assert Mapped(v, i) - {index} == Mapped(v, i);
    }
  }

  /** What unmapping logical block `index` of inode `i` does: the inode loses slots on the path
      to it and their blocks, that block reads as zeros, every other block as before. */
  ghost predicate BlockRemoved(v: Vol, v': Vol, lo: nat, i: nat, index: nat) {
    && Shrunk(v, v', lo, i)
    && T(v', i, SlotOf(index)) == 0
    && (forall m: nat {:trigger Page(v', i, m)} :: Page(v', i, m) == if m == index then ZERO_BLOCK else Page(v, i, m))
    && Mapped(v', i) == Mapped(v, i) - {index}
  }

  lemma NothingRemoved(v: Vol, lo: nat, i: nat, index: nat)
    requires Safe(v, lo) && T(v, i, SlotOf(index)) == 0
    ensures BlockRemoved(v, v, lo, i, index)
  {
    ShrunkRefl(v, lo, i);
    assert Mapped(v, i) - {index} == Mapped(v, i);
  }

  /** The block mapped at `index` of inode `i`, if any. */
  function LookupResult(v: Vol, i: nat, index: nat): Result<Option<nat>> {
    if index >= MAX_INDEX then Err(BadBlock(index))
    else
      var b := T(v, i, SlotOf(index));
      Ok(if b == 0 then None else Some(b))
  }
}
