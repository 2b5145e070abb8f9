/** How a volume lies in the block array, and that the block array determines it. */
module Mounts {
  import opened Layout
  import opened Wrappers
  import opened Primitives
  import opened PhysicalBlocks
  import Manifests
  import opened BlockStores
  import opened BitmapBlocks
  import opened Inodes
  import opened Geometry
  import opened Volume
  import opened Files
  import opened DirTree
  import Namespaces
  import opened FsTree
  import Reachability
  import RootedTrees

  /** Volume `v` is what the block array and the bitmap hold. */
  ghost predicate Ties(g: Geometry, v: Vol, contents: seq<Block>, marked: set<nat>)
    requires g.Sound()
  {
    && |v.data| == |contents| == g.total
    && |v.table| == g.inodeCount + 1
    && v.used == marked
    && v.table[0] == FREE_INODE
    && (forall b {:trigger v.data[b]} :: g.dataStart <= b < g.total ==> v.data[b] == contents[b])
    && (forall i {:trigger InodeAt(g, contents, i)} :: 1 <= i <= g.inodeCount ==> InodeAt(g, contents, i) == v.table[i])
  }

  /** The images of `carriers` give every block of the pool, and hold volume `v`. */
  ghost predicate OnImages(g: Geometry, p: Primitives, keys: Option<StoreKeys>, carriers: seq<CarrierSlot>, v: Vol)
    requires g.Sound()
  {
    && p.Lawful() && Manifests.Contiguous(Ranges(carriers))
    && Manifests.End(Ranges(carriers), |carriers|) == g.total
    && (forall i {:trigger carriers[i]} :: 0 <= i < |carriers| ==> Usable(keys, carriers[i].file))
    && (forall slot :: slot in carriers ==> slot.file.WellFormed())
    && MediaBlank(p, keys, carriers, g.total) == {}
    && Recorded(g, MediaContents(p, keys, carriers, g.total), v.used)
    && Ties(g, v, MediaContents(p, keys, carriers, g.total), v.used)
  }

  lemma ReadImages(g: Geometry, p: Primitives, keys: Option<StoreKeys>, carriers: seq<CarrierSlot>, v: Vol)
    requires g.Sound() && p.Lawful() && Manifests.Contiguous(Ranges(carriers))
    requires Manifests.End(Ranges(carriers), |carriers|) == g.total
    requires forall i {:trigger carriers[i]} :: 0 <= i < |carriers| ==> Usable(keys, carriers[i].file)
    requires forall slot :: slot in carriers ==> slot.file.WellFormed()
    requires MediaBlank(p, keys, carriers, g.total) == {}
    requires Recorded(g, MediaContents(p, keys, carriers, g.total), v.used)
    requires Ties(g, v, MediaContents(p, keys, carriers, g.total), v.used)
    ensures OnImages(g, p, keys, carriers, v)
  {
    hide Recorded, Ties, MediaBlank, MediaContents;
  }

  /** A flush puts on the images what the store holds. */
  lemma FlushedImages(g: Geometry, store: BlockStore, v: Vol)
    requires g.Sound() && store.Valid() && store.Flushed() && store.Blank == {} && store.total == g.total
    requires Recorded(g, store.Contents, v.used) && Ties(g, v, store.Contents, v.used)
    ensures OnImages(g, store.p, store.keys, store.Remains(), v)
  {
    hide BlockStore.Valid, Ties, Recorded, MediaBlank, MediaContents, Dropped, Holds, Usable;
    FlushedStore(store);
    HeldUsable(store.p, store.keys, store.carriers, store.Contents, {});
    DroppedContents(store.p, store.keys, store.carriers, store.Contents);
    forall i | 0 <= i < |store.Remains()|
      ensures Usable(store.keys, store.Remains()[i].file)
    {
      assert Usable(store.keys, Images(store.carriers)[i]);
      assert store.Remains()[i] == store.carriers[i].(buffer := None, dirty := false);
    }
  }

  lemma TiesSizes(g: Geometry, v: Vol, contents: seq<Block>, marked: set<nat>)
    requires g.Sound() && Ties(g, v, contents, marked)
    ensures |v.data| == |contents| == g.total && |v.table| == g.inodeCount + 1 && v.used == marked
  {
    hide InodeAt;
  }

  /** Storing a data block stores it in the volume. */
  lemma TiesData(g: Geometry, v: Vol, contents: seq<Block>, marked: set<nat>, b: nat, blk: Block)
    requires g.Sound() && Ties(g, v, contents, marked) && g.dataStart <= b < g.total
    ensures b < |v.data| && b < |contents| && Ties(g, v.(data := v.data[b := blk]), contents[b := blk], marked)
  {
    hide InodeOfBytes;
    forall i | 1 <= i <= g.inodeCount
      ensures InodeAt(g, contents[b := blk], i) == v.table[i]
    {
      assert InodeAt(g, contents, i) == v.table[i];
    }
  }

  /** Storing an inode record stores it in the volume. */
  lemma TiesInode(g: Geometry, v: Vol, contents: seq<Block>, marked: set<nat>, ino: nat, n: Inode)
    requires g.Sound() && Ties(g, v, contents, marked) && 0 < ino <= g.inodeCount
    ensures ino < |v.table| && InodeLocation(g, ino).0 < |contents|
    ensures Ties(g, v.(table := v.table[ino := n]), StoreInode(g, contents, ino, n), marked)
  {
    hide InodeOfBytes, EncodeInode, Patch, InodeAt;
    forall i | 1 <= i <= g.inodeCount
      ensures InodeAt(g, StoreInode(g, contents, ino, n), i) == v.table[ino := n][i]
    {
      InodeAtStored(g, contents, ino, n, i);
      assert InodeAt(g, contents, i) == v.table[i];
    }
  }

  /** The bitmap's region is no part of the volume. */
  lemma TiesBitmap(g: Geometry, v: Vol, contents: seq<Block>, contents': seq<Block>, marked: set<nat>)
    requires g.Sound() && Ties(g, v, contents, marked) && |contents'| == |contents|
    requires forall b :: 0 <= b < g.total && !(g.bitmapStart <= b < g.inodeTableStart) ==> contents'[b] == contents[b]
    ensures Ties(g, v, contents', marked)
  {
    hide InodeOfBytes;
    forall i | 1 <= i <= g.inodeCount
      ensures InodeAt(g, contents', i) == v.table[i]
    {
      assert InodeAt(g, contents, i) == v.table[i];
    }
  }

  /** The volume a block array and a set of allocated blocks stand for. */
  function VolumeOf(g: Geometry, contents: seq<Block>, marked: set<nat>, owner: map<nat, Ref>): (v: Vol)
    requires g.Sound() && |contents| == g.total
    ensures |v.table| == g.inodeCount + 1
  {
    Vol([FREE_INODE] + seq(g.inodeCount, i requires 0 <= i < g.inodeCount => InodeAt(g, contents, i + 1)), contents,
        marked, owner)
  }

  lemma VolumeTies(g: Geometry, contents: seq<Block>, marked: set<nat>, owner: map<nat, Ref>)
    requires g.Sound() && |contents| == g.total
    ensures Ties(g, VolumeOf(g, contents, marked, owner), contents, marked)
  {
    hide InodeAt;
  }

  lemma VolumeUsed(g: Geometry, contents: seq<Block>, marked: set<nat>, owner: map<nat, Ref>)
    requires g.Sound() && |contents| == g.total
    ensures VolumeOf(g, contents, marked, owner).used == marked && VolumeOf(g, contents, marked, owner).owner == owner
  {
  }

  /** Owners that make the volume safe, if there are any. */
  ghost function AnyOwner(g: Geometry, contents: seq<Block>, marked: set<nat>): (owner: map<nat, Ref>)
    requires g.Sound() && |contents| == g.total
    ensures forall o {:trigger VolumeOf(g, contents, marked, o)} ::
      Safe(VolumeOf(g, contents, marked, o), g.dataStart) ==> Safe(VolumeOf(g, contents, marked, owner), g.dataStart)
  {
    if exists o {:trigger VolumeOf(g, contents, marked, o)} :: Safe(VolumeOf(g, contents, marked, o), g.dataStart) then
      var o {:trigger VolumeOf(g, contents, marked, o)} :| Safe(VolumeOf(g, contents, marked, o), g.dataStart);
      o
    else map[]
  }

  /** The same inodes, the same blocks under them, the same contents. */
  ghost predicate SameVolume(v: Vol, v': Vol) {
    && v'.table == v.table && v'.used == v.used && |v'.data| == |v.data|
    && (forall j: nat, t: Slot {:trigger T(v', j, t)} :: T(v', j, t) == T(v, j, t))
    && (forall j: nat, m: nat {:trigger Page(v', j, m)} :: Page(v', j, m) == Page(v, j, m))
  }

  /** A block array and a set of allocated blocks stand for one volume only. */
  lemma TiedOnce(g: Geometry, v: Vol, v': Vol, contents: seq<Block>)
    requires g.Sound() && Ties(g, v, contents, v.used) && Ties(g, v', contents, v.used)
    requires Safe(v, g.dataStart)
    ensures SameVolume(v, v') && Safe(v'.(owner := v.owner), g.dataStart)
  {
    TiedTables(g, v, v', contents);
    DataAbove(v, v', g.dataStart);
  }

  lemma TiedTables(g: Geometry, v: Vol, v': Vol, contents: seq<Block>)
    requires g.Sound() && Ties(g, v, contents, v.used) && Ties(g, v', contents, v.used)
    ensures v'.table == v.table && v'.used == v.used && |v'.data| == |v.data|
    ensures forall b {:trigger v'.data[b]} :: g.dataStart <= b < |v.data| ==> v'.data[b] == v.data[b]
  {
    hide InodeAt;
    forall i | 0 <= i < |v.table|
      ensures v'.table[i] == v.table[i]
    {
      if i > 0 {
        assert InodeAt(g, contents, i) == v.table[i];
      }
    }
    forall b | g.dataStart <= b < |v.data|
      ensures v'.data[b] == v.data[b]
    {
      assert v.data[b] == contents[b];
    }
  }

  /** In a safe volume only the data region matters. */
  lemma DataAbove(v: Vol, v': Vol, lo: nat)
    requires Safe(v, lo) && v'.table == v.table && v'.used == v.used && |v'.data| == |v.data|
    requires forall b {:trigger v'.data[b]} :: lo <= b < |v.data| ==> v'.data[b] == v.data[b]
    ensures SameVolume(v, v') && Safe(v'.(owner := v.owner), lo)
  {
    forall j: nat, t: Slot
      ensures T(v', j, t) == T(v, j, t)
    {
      if j < |v.table| {
        SameTarget(v, v', lo, j, t);
      }
    }
    forall j: nat, m: nat
      ensures Page(v', j, m) == Page(v, j, m)
    {
      assert T(v', j, SlotOf(m)) == T(v, j, SlotOf(m));
    }
    var w := v'.(owner := v.owner);
    forall j: nat, t: Slot
      ensures T(w, j, t) == T(v, j, t)
    {
      assert T(w, j, t) == T(v', j, t);
    }
  }

  lemma SameTarget(v: Vol, v': Vol, lo: nat, j: nat, t: Slot)
    requires Safe(v, lo) && v'.table == v.table && |v'.data| == |v.data| && j < |v.table|
    requires forall b {:trigger v'.data[b]} :: lo <= b < |v.data| ==> v'.data[b] == v.data[b]
    ensures T(v', j, t) == T(v, j, t)
  {
    assert T(v, j, Single) == v.table[j].single && T(v, j, Double) == v.table[j].double;
    if t.DLeaf? {
      assert T(v, j, Inner(t.o)) == Entry(v.data, v.table[j].double, t.o);
    }
  }

  /** The invariants speak of the volume, not of who is noted as owner. */
  lemma SameInvariants(v: Vol, v': Vol, lo: nat)
    requires SameVolume(v, v') && Safe(v, lo) && Safe(v', lo)
    ensures Exact(v, lo) ==> Exact(v', lo)
    ensures Ns(v') == Ns(v) && (Shaped(v) ==> Shaped(v')) && (TreeOk(v) ==> TreeOk(v'))
    ensures RootedTrees.RootedTree(v) ==> RootedTrees.RootedTree(v')
    ensures forall j :: 0 <= j < |v.table| ==> Contents(v', j) == Contents(v, j)
  {
    hide T, Page, Safe, DirOk, Recs, NodeOf, Namespaces.NsOk, Reachability.Rooted, Exact;
    assert OthersKept(v, v', |v.table|);
    forall j: nat | j < |v.table|
      ensures NodeOf(v', j) == NodeOf(v, j) && (DirOk(v, j) ==> DirOk(v', j))
    {
      NodeKept(v, v', |v.table|, j);
    }
    assert Ns(v') == Ns(v);
    if Exact(v, lo) {
      SameExact(v, v', lo);
    }
    forall j | 0 <= j < |v.table|
      ensures Contents(v', j) == Contents(v, j)
    {
      forall pos: nat
        ensures Byte(v', j, pos) == Byte(v, j, pos)
      {
        assert Page(v', j, pos / 4032) == Page(v, j, pos / 4032);
      }
    }
  }

  lemma SameExact(v: Vol, v': Vol, lo: nat)
    requires SameVolume(v, v') && Safe(v, lo) && Safe(v', lo) && Exact(v, lo)
    ensures Exact(v', lo)
  {
    hide T, Page, SlotOf;
    forall b: nat | b in v'.used && lo <= b
      ensures b in v'.owner && T(v', v'.owner[b].ino, v'.owner[b].slot) == b
    {
      var r := v.owner[b];
      assert T(v', r.ino, r.slot) == T(v, r.ino, r.slot) == b;
    }
    forall j: nat, s: Slot | T(v', j, s) != 0
      ensures HasChild(v', j, s)
    {
      assert T(v, j, s) != 0;
      ChildKept(v, v', j, s);
    }
    forall j | 0 <= j < |v.table|
      ensures Mapped(v', j) == Mapped(v, j)
    {
    }
    forall i | 0 <= i < |v.table|
      ensures TrimAt(v', i)
    {
      assert TrimAt(v, i);
      SameTrim(v, v', i);
    }
  }
}
