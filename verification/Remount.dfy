/** What a pool holds after a sync is what opening it again finds. */
module Remounting {
  import Layout
  import opened Wrappers
  import opened Primitives
  import opened PhysicalBlocks
  import opened Manifests
  import opened BlockStores
  import BitmapBlocks
  import opened Geometry
  import opened Volume
  import Files
  import FsTree
  import RootedTrees
  import opened Mounts
  import opened Album

  /** Ending the program, with a sync or without, and opening the pool again gives the volume of the
      last sync: every inode, every block under it and all contents, with the invariants they had.
      Whatever was done since is gone. */
  method Remount(fs: AlbumFs) returns (again: AlbumFs)
    requires fs.Valid() && Safe(fs.saved, fs.geo.dataStart)
    ensures fresh(again) && fresh(again.store) && fresh(again.bitmap) && again.Valid() && again.geo == fs.geo
    ensures Safe(again.vol, again.geo.dataStart) && again.saved == again.vol
    ensures SameVolume(fs.saved, again.vol)
    ensures Files.Exact(fs.saved, fs.geo.dataStart) ==> Files.Exact(again.vol, again.geo.dataStart)
    ensures FsTree.TreeOk(fs.saved) ==> FsTree.TreeOk(again.vol)
    ensures RootedTrees.RootedTree(fs.saved) ==> RootedTrees.RootedTree(again.vol)
  {
    hide BlockStore.Valid, Safe, Files.Exact, FsTree.TreeOk, RootedTrees.RootedTree, Holds, MediaBlank, MediaContents,
        Dropped, Unloaded, InodeAt, SameVolume, VolumeOf, FirstUnread, BitmapRead, Ties, Usable;
    var carriers := fs.store.Remains();
    ghost var contents, saved := MediaContents(fs.store.p, fs.store.keys, carriers, fs.geo.total), fs.saved;
    DroppedAre(fs.store.carriers);
    Again(carriers);
    NoneUnread(fs.geo, fs.store.p, fs.store.keys, carriers);
    var reopened := AlbumFs.Open(fs.geo, fs.store.p, fs.store.keys, Images(carriers), Primaries(carriers),
        Ranges(carriers));
    again := reopened.value;
    BitmapBlocks.RecordedOnce(fs.geo, contents, saved.used, again.vol.used);
    VolumeTies(fs.geo, contents, saved.used, saved.owner);
    TiedOnce(fs.geo, saved, VolumeOf(fs.geo, contents, saved.used, saved.owner), contents);
    VolumeOwner(fs.geo, contents, saved.used, saved.owner);
    VolumeTies(fs.geo, contents, again.vol.used, again.vol.owner);
    TiedOnce(fs.geo, saved, again.vol, contents);
    SameInvariants(saved, again.vol, fs.geo.dataStart);
  }

  /** Dropping nothing changes nothing. */
  lemma Again(carriers: seq<CarrierSlot>)
    requires forall i {:trigger carriers[i]} :: 0 <= i < |carriers| ==> carriers[i].buffer.None? && !carriers[i].dirty
    ensures Unloaded(Images(carriers), Primaries(carriers), Ranges(carriers)) == carriers
  {
    assert Unloaded(Images(carriers), Primaries(carriers), Ranges(carriers)) == carriers;
  }

  /** When every block can be read, so can the bitmap. */
  lemma NoneUnread(g: Geometry, p: Primitives, keys: Option<StoreKeys>, carriers: seq<CarrierSlot>)
    requires g.Sound() && p.Lawful() && forall slot :: slot in carriers ==> slot.file.WellFormed()
    requires MediaBlank(p, keys, carriers, g.total) == {}
    ensures forall e :: !FirstUnread(g, p, keys, carriers, e)
  {
    hide MediaBlock, MediaBlank;
    forall b: nat | g.bitmapStart <= b < g.inodeTableStart
      ensures MediaBlock(p, keys, carriers, b).Ok?
    {
      assert b !in MediaBlank(p, keys, carriers, g.total);
    }
  }

  lemma DroppedAre(carriers: seq<CarrierSlot>)
    ensures Dropped(carriers) == Unloaded(Images(carriers), Primaries(carriers), Ranges(carriers))
  {
  }

  lemma VolumeOwner(g: Geometry, contents: seq<Layout.Block>, marked: set<nat>, owner: map<nat, Ref>)
    requires g.Sound() && |contents| == g.total
    ensures VolumeOf(g, contents, marked, owner).(owner := owner) == VolumeOf(g, contents, marked, owner)
    ensures VolumeOf(g, contents, marked, owner).used == marked
  {
  }
}
