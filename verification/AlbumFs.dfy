/** The mounted filesystem and its operations. */
module Album {
  import opened Bytes
  import opened Layout
  import opened Wrappers
  import opened Pointers
  import opened Inodes
  import opened Geometry
  import opened Volume
  import opened Space
  import Bitmaps
  import opened BlockStores
  import opened BitmapBlocks
  import opened Files
  import opened Dirents
  import opened DirBlocks
  import opened Directories
  import opened DirTree
  import opened Mapping
  import opened Mounts
  import opened Primitives
  import opened PhysicalBlocks
  import Manifests
  import Chunks
  import opened FileOps
  import opened Namespaces
  import opened FsTree
  import opened FsOps
  import opened Renames

  class AlbumFs {
    const geo: Geometry
    const store: BlockStore
    const bitmap: Bitmaps.Bitmap
    /** The volume, and what of it the images held after the last sync. */
    ghost var vol: Vol
    ghost var saved: Vol

    ghost predicate Valid()
      reads this, store, bitmap
      ensures Valid() ==> geo.Sound() && |vol.data| == geo.total && |vol.table| == geo.inodeCount + 1
    {
      && geo.Sound()
      && store.total == bitmap.total == geo.total
      && store.Valid() && store.Blank == {}
      && bitmap.Valid()
      && Ties(geo, vol, store.Contents, bitmap.Marked)
      && OnImages(geo, store.p, store.keys, store.Remains(), saved)
    }

    /** The filesystem over a store and a bitmap; it is valid if they hold volume `vol`, as the images
        do, and every block can be read. */
    constructor Over(geo: Geometry, store: BlockStore, bitmap: Bitmaps.Bitmap, ghost vol: Vol)
      ensures this.geo == geo && this.store == store && this.bitmap == bitmap && this.vol == vol
      ensures saved == vol
      ensures geo.Sound() && store.total == bitmap.total == geo.total && store.Valid() && store.Blank == {} &&
              bitmap.Valid() && Ties(geo, vol, store.Contents, bitmap.Marked) &&
              OnImages(geo, store.p, store.keys, store.Remains(), vol) ==>
        Valid()
    {
      hide BlockStore.Valid, OnImages;
      this.geo, this.store, this.bitmap, this.vol, this.saved := geo, store, bitmap, vol, vol;
    }

    /** The filesystem on carriers formatted before: its volume is what their images hold.  The
        first block of the bitmap that cannot be read is an error; other blocks are not looked at.
        The program does not record which slot a block hangs under; if any assignment of owners
        makes the volume safe, such an assignment is taken. */
    static method Open(geo: Geometry, p: Primitives, keys: Option<StoreKeys>, files: seq<Chunks.Medium>,
        primary: seq<bool>,
        manifest: seq<Manifests.CarrierRange>) returns (r: Result<AlbumFs>)
      requires geo.Sound() && p.Lawful() && |files| == |manifest| == |primary| && Manifests.Contiguous(manifest)
      requires Manifests.End(manifest, |manifest|) == geo.total
      requires forall i {:trigger files[i]} :: 0 <= i < |files| ==> Usable(keys, files[i])
      ensures forall slot :: slot in Unloaded(files, primary, manifest) ==> slot.file.WellFormed()
      ensures r.Err? ==> FirstUnread(geo, p, keys, Unloaded(files, primary, manifest), r.error)
      ensures r.Ok? ==>
        && BitmapRead(geo, p, keys, Unloaded(files, primary, manifest))
        && fresh(r.value) && fresh(r.value.store) && fresh(r.value.bitmap) && r.value.geo == geo
        && r.value.saved == r.value.vol
        && Opened(r.value, MediaContents(p, keys, Unloaded(files, primary, manifest), geo.total))
        && (MediaBlank(p, keys, Unloaded(files, primary, manifest), geo.total) == {} ==> r.value.Valid())
    {
      hide BlockStore.Valid, OnImages, BlockStore.Remains, BlockStore.Stored, MediaContents, MediaBlank, MediaBlock,
          Unloaded, Safe, Recorded, VolumeOf, Ties, Manifests.Contiguous, BitmapHit, Usable;
      assert forall i {:trigger Unloaded(files, primary, manifest)[i]} :: 0 <= i < |files| ==>
          Usable(keys, Unloaded(files, primary, manifest)[i].file);
      UsableFiles(keys, Unloaded(files, primary, manifest));
      var store := new BlockStore.FromManifest(p, keys, files, primary, manifest);
      var bitmap :- LoadBitmap(geo, store);
      ReadNotBlank(geo, p, keys, Unloaded(files, primary, manifest));
      ghost var owner := AnyOwner(geo, store.Contents, bitmap.Marked);
      ghost var vol := VolumeOf(geo, store.Contents, bitmap.Marked, owner);
      VolumeTies(geo, store.Contents, bitmap.Marked, owner);
      VolumeUsed(geo, store.Contents, bitmap.Marked, owner);
      if MediaBlank(p, keys, Unloaded(files, primary, manifest), geo.total) == {} {
        ReadImages(geo, p, keys, Unloaded(files, primary, manifest), vol);
      }
      var fs := new AlbumFs.Over(geo, store, bitmap, vol);
      return Ok(fs);
    }

    method FreeBlocks() returns (n: nat)
      requires Valid()
      ensures n == geo.total - |vol.used|
    {
      n := bitmap.CountFree();
    }

    method ReadInode(ino: nat) returns (r: Result<Inode>)
      requires Valid()
      modifies store
      ensures Valid()
      ensures r == if 0 < ino <= geo.inodeCount then Ok(vol.table[ino]) else Err(NotFound)
    {
      hide BlockStore.Valid, OnImages, BlockStore.Remains;
      if ino == 0 || ino > geo.inodeCount {
        return Err(NotFound);
      }
      var (block, offset) := InodeLocation(geo, ino);
      var payload := store.ReadBlock(block);
      assert vol.table[ino] == InodeAt(geo, store.Contents, ino);
      return Ok(InodeOfBytes(payload.value[offset..offset + INODE_SIZE]));
    }

    method WriteInode(ino: nat, inode: Inode) returns (r: Result<()>)
      requires Valid()
      modifies store, this`vol
      ensures Valid()
      ensures if 0 < ino <= geo.inodeCount
              then r == Ok(()) && vol == old(vol).(table := old(vol).table[ino := inode])
              else r == Err(NotFound) && vol == old(vol)
    {
      hide BlockStore.Valid, OnImages, BlockStore.Remains, Ties, EncodeInode, Patch;
      if ino == 0 || ino > geo.inodeCount {
        return Err(NotFound);
      }
      TiesSizes(geo, vol, store.Contents, bitmap.Marked);
      TiesInode(geo, vol, store.Contents, bitmap.Marked, ino, inode);
      var (block, offset) := InodeLocation(geo, ino);
      var payload := store.ReadBlock(block);
      var updated := Patch(payload.value, offset, EncodeInode(inode));
      r := store.WriteBlock(block, updated);
      vol := vol.(table := vol.table[ino := inode]);
    }

    method AllocInode() returns (r: Result<nat>)
      requires Valid()
      modifies store
      ensures Valid()
      ensures match r
              case Ok(ino) => 0 < ino <= geo.inodeCount && !vol.table[ino].Live() && forall j :: 0 < j < ino ==>
                vol.table[j].Live()
              case Err(e) => e == NoSpace && forall j :: 0 < j <= geo.inodeCount ==> vol.table[j].Live()
    {
      hide BlockStore.Valid, OnImages, BlockStore.Remains;
      var ino := 1;
      while ino <= geo.inodeCount
        invariant 1 <= ino
        invariant Valid()
        invariant forall j :: 0 < j < ino && j <= geo.inodeCount ==> vol.table[j].Live()
      {
        var inode := ReadInode(ino);
        if inode.value.mode == 0 {
          return Ok(ino);
        }
        ino := ino + 1;
      }
      return Err(NoSpace);
    }

    method GetAttr(ino: nat) returns (r: Result<Inode>)
      requires Valid()
      modifies store
      ensures Valid()
      ensures r == if 0 < ino <= geo.inodeCount && vol.table[ino].Live() then Ok(vol.table[ino]) else Err(NotFound)
    {
      hide BlockStore.Valid, OnImages, BlockStore.Remains;
      var inode :- ReadInode(ino);
      if inode.mode == 0 {
        return Err(NotFound);
      }
      return Ok(inode);
    }

    /** A data block read through the store. */
    method ReadData(b: nat) returns (payload: Block)
      requires Valid() && geo.dataStart <= b < geo.total
      modifies store
      ensures Valid() && payload == vol.data[b]
    {
      hide BlockStore.Valid, OnImages, BlockStore.Remains;
      var r := store.ReadBlock(b);
      payload := r.value;
    }

    method WriteData(b: nat, payload: seq<byte>)
      requires Valid() && geo.dataStart <= b < geo.total && |payload| <= UB
      modifies store, this`vol
      ensures Valid() && vol == old(vol).(data := old(vol).data[b := Pad(payload)])
    {
      hide BlockStore.Valid, OnImages, BlockStore.Remains, Ties;
      TiesSizes(geo, vol, store.Contents, bitmap.Marked);
      TiesData(geo, vol, store.Contents, bitmap.Marked, b, Pad(payload));
      var r := store.WriteBlock(b, payload);
      vol := vol.(data := vol.data[b := Pad(payload)]);
    }

    /** Record which slot a block hangs under. */
    ghost method Own(b: nat, r: Ref)
      requires Valid()
      modifies this`vol
      ensures Valid() && vol == old(vol).(owner := old(vol).owner[b := r])
    {
      hide BlockStore.Valid, OnImages, BlockStore.Remains;
      vol := vol.(owner := vol.owner[b := r]);
    }

    method AllocateBlock() returns (r: Result<nat>)
      requires Valid()
      modifies store, bitmap, this`vol
      ensures Valid()
      ensures match r
              case Ok(b) =>
                && geo.dataStart <= b < geo.total && b !in old(vol).used
                && (forall c {:trigger c in old(vol).used} :: geo.dataStart <= c < b ==> c in old(vol).used)
                && vol == old(vol).(data := old(vol).data[b := ZERO_BLOCK], used := old(vol).used + {b})
              case Err(e) =>
                && e == NoSpace && vol == old(vol) && AllTaken(vol, geo.dataStart)
    {
      hide BlockStore.Valid, OnImages, BlockStore.Remains;
      var block :- bitmap.AllocFrom(geo.dataStart);
      vol := vol.(used := vol.used + {block});
      WriteData(block, []);
      return Ok(block);
    }

    /** The block that holds logical block `index` of `inode`, a working copy of inode `ino`.
        With `allocate` a missing block is allocated, and the tables leading to it. */
    method Bmap(ghost ino: nat, inode: Inode, index: nat, allocate: bool)
      returns (r: Result<Option<nat>>, inode': Inode)
      requires Valid() && ino < |vol.table| && Safe(With(vol, ino, inode), geo.dataStart)
      modifies store, bitmap, this`vol
      ensures Valid() && vol.table == old(vol).table
      ensures index >= MAX_INDEX ==> r == Err(BadBlock(index)) && inode' == inode && vol == old(vol)
      ensures index < MAX_INDEX ==>
        BlockMapped(geo, With(old(vol), ino, inode), With(vol, ino, inode'), ino, index, allocate, r)
      ensures index < MAX_INDEX && allocate ==> (r.Ok? <==> CanMap(geo, With(old(vol), ino, inode), ino, index))
      ensures !allocate ==> inode' == inode && vol == old(vol)
    {
      hide BlockStore.Valid, OnImages;
      if index < 12 {
        r, inode' := BmapDirect(ino, inode, index, allocate);
        return;
      }
      var relative := index - 12;
      if relative < PTRS {
        r, inode' := BmapSingle(ino, inode, index, allocate);
        return;
      }
      relative := relative - PTRS;
      if relative >= PTRS * PTRS {
        return Err(BadBlock(index)), inode;
      }
      r, inode' := BmapDouble(ino, inode, index, allocate);
    }

    /** `Bmap` without allocation, for the stored inode `ino`: what the block there holds. */
    method MappedBlock(ghost ino: nat, inode: Inode, index: nat) returns (r: Result<Option<nat>>)
      requires Valid() && Safe(vol, geo.dataStart) && ino < |vol.table| && inode == vol.table[ino]
      modifies store, bitmap, this`vol
      ensures Valid() && vol == old(vol)
      ensures r == LookupResult(vol, ino, index)
      ensures r.Ok? ==> match r.value
                        case None => Page(vol, ino, index) == ZERO_BLOCK
                        case Some(b) => geo.dataStart <= b < geo.total && Page(vol, ino, index) == vol.data[b]
    {
      hide Valid, Grown, T, Full, Counted, Safe, Page, BlockStore.Valid, OnImages;
      assert With(vol, ino, inode) == vol;
      PageOfTarget(vol, geo.dataStart, ino, index);
      var found, _ := Bmap(ino, inode, index, false);
      return found;
    }

    /** The part of `Bmap` for the pointers in the inode. */
    method BmapDirect(ghost ino: nat, inode: Inode, index: nat, allocate: bool)
      returns (r: Result<Option<nat>>, inode': Inode)
      requires Valid() && ino < |vol.table| && Safe(With(vol, ino, inode), geo.dataStart)
      requires index < 12
      modifies store, bitmap, this`vol
      ensures Valid() && vol.table == old(vol).table
      ensures BlockMapped(geo, With(old(vol), ino, inode), With(vol, ino, inode'), ino, index, allocate, r)
      ensures allocate ==> (r.Ok? <==> CanMap(geo, With(old(vol), ino, inode), ino, index))
      ensures !allocate ==> inode' == inode && vol == old(vol)
    {
      hide Valid, Safe, Grown, Full, Counted, NoLeak, Page, Linked, BlockStore.Valid, OnImages, Ties;
      inode' := inode;
      ghost var lo, leaf := geo.dataStart, SlotOf(index);
      ghost var v := With(vol, ino, inode);
      GrownRefl(v, lo, ino, leaf);
      if inode'.direct[index] == 0 && allocate {
        var got := AllocateBlock();
        if got.Err? {
          r := Err(got.error);
          MappedIff(geo, v, With(vol, ino, inode'), ino, index, r);
          return;
        }
        var block := got.value;
        inode' := inode'.(direct := inode'.direct[index := block], blockCount := Increment(inode'.blockCount));
        Own(block, Ref(ino, leaf));
        RootLinked(v, v, With(vol, ino, inode'), lo, ino, leaf, block, inode', leaf);
      }
      if inode'.direct[index] == 0 {
        return Ok(None), inode';
      }
      r := Ok(Some(inode'.direct[index]));
      if allocate {
        LeafReached(v, With(vol, ino, inode'), lo, ino, index);
        MappedIff(geo, v, With(vol, ino, inode'), ino, index, r);
      }
    }

    /** The part of `Bmap` for the single-indirect table. */
    method BmapSingle(ghost ino: nat, inode: Inode, index: nat, allocate: bool)
      returns (r: Result<Option<nat>>, inode': Inode)
      requires Valid() && ino < |vol.table| && Safe(With(vol, ino, inode), geo.dataStart)
      requires 12 <= index < 516
      modifies store, bitmap, this`vol
      ensures Valid() && vol.table == old(vol).table
      ensures BlockMapped(geo, With(old(vol), ino, inode), With(vol, ino, inode'), ino, index, allocate, r)
      ensures allocate ==> (r.Ok? <==> CanMap(geo, With(old(vol), ino, inode), ino, index))
      ensures !allocate ==> inode' == inode && vol == old(vol)
    {
      hide T, Grown, Full, Counted, NoLeak, Page, Linked, Valid, Safe, SetPointer, HasChild, BlockStore.Valid, OnImages,
          Ties;
      var relative := index - 12;
      ghost var lo, leaf := geo.dataStart, SlotOf(index);
      ghost var v := With(vol, ino, inode);
      var table: Result<nat>;
      table, inode' := SingleTable(ino, inode, allocate, leaf);
      if table.Err? {
        r := Err(table.error);
        MappedIff(geo, v, With(vol, ino, inode'), ino, index, r);
        return;
      }
      ghost var v1 := With(vol, ino, inode');
      Roots(v1, ino);
      if table.value == 0 {
        return Ok(None), inode';
      }
      EntryOf(v1, lo, ino, leaf);
      var pointers := ReadData(table.value);
      var pointer := PointerAt(pointers, relative);
      if pointer == 0 && allocate {
        var got := AllocateBlock();
        if got.Err? {
          r := Err(got.error);
          MappedIff(geo, v, v1, ino, index, r);
          return;
        }
        var block := got.value;
        pointers := SetPointer(pointers, relative, block);
        WriteData(table.value, pointers);
        inode' := inode'.(blockCount := Increment(inode'.blockCount));
        Own(block, Ref(ino, leaf));
        ghost var v2 := With(vol, ino, inode');
        EntryLinked(v, v1, v2, lo, ino, leaf, block, inode', leaf);
        LeafReached(v, v2, lo, ino, index);
        r := Ok(Some(block));
        MappedIff(geo, v, v2, ino, index, r);
        return;
      }
      if pointer == 0 {
        return Ok(None), inode';
      }
      r := Ok(Some(pointer));
      if allocate {
        LeafReached(v, v1, lo, ino, index);
        MappedIff(geo, v, v1, ino, index, r);
      }
    }

    /** The single-indirect table, 0 when there is none and none is to be made. */
    method SingleTable(ghost ino: nat, inode: Inode, allocate: bool, ghost leaf: Slot)
      returns (r: Result<nat>, inode': Inode)
      requires Valid() && ino < |vol.table| && Safe(With(vol, ino, inode), geo.dataStart)
      requires leaf.SLeaf?
      modifies store, bitmap, this`vol
      ensures Valid() && vol.table == old(vol).table
      ensures !allocate ==> inode' == inode && vol == old(vol)
      ensures inode' == inode.(single := inode'.single) && (inode.single == 0 || inode'.single == inode.single)
      ensures var v, v' := With(old(vol), ino, inode), With(vol, ino, inode');
              && Safe(v', geo.dataStart)
              && Grown(v, v', geo.dataStart, ino, leaf)
              && T(v', ino, leaf) == T(v, ino, leaf)
              && (r.Ok? ==> r.value == T(v', ino, Single) && (allocate ==> r.value != 0))
              && (r.Err? ==> allocate && r == Err(NoSpace) && T(v', ino, leaf) == 0 && AllTaken(v', geo.dataStart))
    {
      hide Grown, Full, Counted, NoLeak, Page, Valid, Safe, T, BlockStore.Valid, OnImages;
      inode' := inode;
      ghost var lo := geo.dataStart;
      ghost var v := With(vol, ino, inode);
      GrownRefl(v, lo, ino, leaf);
      Roots(v, ino);
      if inode'.single == 0 && allocate {
        var table :- AllocateBlock();
        inode' := inode'.(single := table);
        Own(table, Ref(ino, Single));
        RootLinked(v, v, With(vol, ino, inode'), lo, ino, Single, table, inode', leaf);
      }
      return Ok(inode'.single), inode';
    }

    /** The part of `Bmap` for the double-indirect tables. */
    method BmapDouble(ghost ino: nat, inode: Inode, index: nat, allocate: bool)
      returns (r: Result<Option<nat>>, inode': Inode)
      requires Valid() && ino < |vol.table| && Safe(With(vol, ino, inode), geo.dataStart)
      requires 516 <= index < MAX_INDEX
      modifies store, bitmap, this`vol
      ensures Valid() && vol.table == old(vol).table
      ensures BlockMapped(geo, With(old(vol), ino, inode), With(vol, ino, inode'), ino, index, allocate, r)
      ensures allocate ==> (r.Ok? <==> CanMap(geo, With(old(vol), ino, inode), ino, index))
      ensures !allocate ==> inode' == inode && vol == old(vol)
    {
      hide T, Grown, Full, Counted, NoLeak, Page, Linked, Valid, Safe, SetPointer, HasChild, BlockStore.Valid, OnImages,
          Ties;
      var relative := index - 516;
      var outerIndex, innerIndex := relative / PTRS, relative % PTRS;
      ghost var lo, leaf := geo.dataStart, SlotOf(index);
      ghost var v := With(vol, ino, inode);
      var table: Result<nat>;
      table, inode' := InnerTable(ino, inode, outerIndex, allocate, leaf);
      if table.Err? {
        r := Err(table.error);
        MappedIff(geo, v, With(vol, ino, inode'), ino, index, r);
        return;
      }
      var innerBlock := table.value;
      ghost var v1 := With(vol, ino, inode');
      Roots(v1, ino);
      if innerBlock == 0 {
        return Ok(None), inode';
      }
      EntryOf(v1, lo, ino, leaf);
      var inner := ReadData(innerBlock);
      var pointer := PointerAt(inner, innerIndex);
      if pointer == 0 && allocate {
        var got := AllocateBlock();
        if got.Err? {
          r := Err(got.error);
          MappedIff(geo, v, v1, ino, index, r);
          return;
        }
        var block := got.value;
        inner := SetPointer(inner, innerIndex, block);
        WriteData(innerBlock, inner);
        inode' := inode'.(blockCount := Increment(inode'.blockCount));
        Own(block, Ref(ino, leaf));
        ghost var v2 := With(vol, ino, inode');
        EntryLinked(v, v1, v2, lo, ino, leaf, block, inode', leaf);
        LeafReached(v, v2, lo, ino, index);
        r := Ok(Some(block));
        MappedIff(geo, v, v2, ino, index, r);
        return;
      }
      if pointer == 0 {
        return Ok(None), inode';
      }
      r := Ok(Some(pointer));
      if allocate {
        LeafReached(v, v1, lo, ino, index);
        MappedIff(geo, v, v1, ino, index, r);
      }
    }

    /** The inner pointer table at entry `o` of the double-indirect table, 0 when there is none
        and none is to be made. */
    method InnerTable(ghost ino: nat, inode: Inode, o: nat, allocate: bool, ghost leaf: Slot)
      returns (r: Result<nat>, inode': Inode)
      requires Valid() && ino < |vol.table| && Safe(With(vol, ino, inode), geo.dataStart)
      requires o < PTRS && leaf.DLeaf? && leaf.o == o
      modifies store, bitmap, this`vol
      ensures Valid() && vol.table == old(vol).table
      ensures !allocate ==> inode' == inode && vol == old(vol)
      ensures inode' == inode.(double := inode'.double) && (inode.double == 0 || inode'.double == inode.double)
      ensures var v, v' := With(old(vol), ino, inode), With(vol, ino, inode');
              && Safe(v', geo.dataStart)
              && Grown(v, v', geo.dataStart, ino, leaf)
              && T(v', ino, leaf) == T(v, ino, leaf)
              && (r.Ok? ==> r.value == T(v', ino, Inner(o)) && (allocate ==> r.value != 0))
              && (r.Err? ==> allocate && r == Err(NoSpace) && T(v', ino, leaf) == 0 && AllTaken(v', geo.dataStart))
    {
      hide Grown, Full, Counted, NoLeak, Page, Valid, Safe, T, BlockStore.Valid, OnImages, Ties;
      inode' := inode;
      ghost var lo := geo.dataStart;
      ghost var v := With(vol, ino, inode);
      ghost var v1 := v;
      GrownRefl(v, lo, ino, leaf);
      Roots(v, ino);
      if inode'.double == 0 {
        if !allocate {
          return Ok(0), inode';
        }
        var table :- AllocateBlock();
        inode' := inode'.(double := table);
        Own(table, Ref(ino, Double));
        v1 := With(vol, ino, inode');
        RootLinked(v, v, v1, lo, ino, Double, table, inode', leaf);
      }
      Roots(v1, ino);
      EntryOf(v1, lo, ino, Inner(o));
      var outer := ReadData(inode'.double);
      var innerBlock := PointerAt(outer, o);
      if innerBlock == 0 {
        if !allocate {
          return Ok(0), inode';
        }
        var table :- AllocateBlock();
        innerBlock := table;
        outer := SetPointer(outer, o, innerBlock);
        WriteData(inode'.double, outer);
        Own(innerBlock, Ref(ino, Inner(o)));
        EntryLinked(v, v1, With(vol, ino, inode'), lo, ino, Inner(o), innerBlock, inode', leaf);
      }
      return Ok(innerBlock), inode';
    }

    /** Mark a block free again. */
    method ReleaseBlock(b: nat)
      requires Valid()
      modifies bitmap, this`vol
      ensures Valid() && vol == old(vol).(used := old(vol).used - {b})
    {
      hide BlockStore.Valid, OnImages, BlockStore.Remains;
      bitmap.Clear(b);
      vol := vol.(used := vol.used - {b});
    }

    /** Unmap logical block `index` of `inode`, a working copy of inode `ino`, and free it with
        every pointer table that is left empty. */
    method RemoveMappedBlock(ghost ino: nat, inode: Inode, index: nat) returns (inode': Inode)
      requires Valid() && ino < |vol.table| && Safe(With(vol, ino, inode), geo.dataStart)
      modifies store, bitmap, this`vol
      ensures Valid() && vol.table == old(vol).table
      ensures inode' == inode.(direct := inode'.direct, single := inode'.single, double := inode'.double,
        blockCount := inode'.blockCount)
      ensures index >= MAX_INDEX ==> inode' == inode && vol == old(vol)
      ensures index < MAX_INDEX ==>
        BlockRemoved(With(old(vol), ino, inode), With(vol, ino, inode'), geo.dataStart, ino, index)
    {
      hide BlockStore.Valid, OnImages;
      if index < 12 {
        inode' := RemoveDirect(ino, inode, index);
        return;
      }
      var relative := index - 12;
      if relative < PTRS {
        inode' := RemoveSingle(ino, inode, index);
        return;
      }
      relative := relative - PTRS;
      if relative >= PTRS * PTRS {
        return inode;
      }
      inode' := RemoveDouble(ino, inode, index);
    }

    method RemoveDirect(ghost ino: nat, inode: Inode, index: nat) returns (inode': Inode)
      requires Valid() && ino < |vol.table| && Safe(With(vol, ino, inode), geo.dataStart)
      requires index < 12
      modifies store, bitmap, this`vol
      ensures Valid() && vol.table == old(vol).table
      ensures inode' == inode.(direct := inode'.direct, blockCount := inode'.blockCount)
      ensures BlockRemoved(With(old(vol), ino, inode), With(vol, ino, inode'), geo.dataStart, ino, index)
    {
      hide Valid, Safe, BlockStore.Valid, OnImages, Ties;
      ghost var v := With(vol, ino, inode);
      var block := inode.direct[index];
      inode' := inode.(direct := inode.direct[index := 0]);
      if block != 0 {
        ReleaseBlock(block);
        inode' := inode'.(blockCount := Decrement(inode'.blockCount));
      }
      ghost var v' := With(vol, ino, inode');
      CutOne(v, ino, Direct(index));
      CutDirect(v, geo.dataStart, ino, index, inode', v');
      CutShrinks(v, v', geo.dataStart, ino, index, {Direct(index)});
    }

    method RemoveSingle(ghost ino: nat, inode: Inode, index: nat) returns (inode': Inode)
      requires Valid() && ino < |vol.table| && Safe(With(vol, ino, inode), geo.dataStart)
      requires 12 <= index < 516
      modifies store, bitmap, this`vol
      ensures Valid() && vol.table == old(vol).table
      ensures inode' == inode.(single := inode'.single, blockCount := inode'.blockCount)
      ensures BlockRemoved(With(old(vol), ino, inode), With(vol, ino, inode'), geo.dataStart, ino, index)
    {
      hide Valid, Safe, HasChild, T, Shrunk, BlockStore.Valid, OnImages, Ties, SetPointer, CutBlocks, BlockRemoved;
      inode' := inode;
      var relative := index - 12;
      ghost var v, lo := With(vol, ino, inode), geo.dataStart;
      Roots(v, ino);
      if inode.single == 0 {
        NothingRemoved(v, lo, ino, index);
        return;
      }
      EntryOf(v, lo, ino, SLeaf(relative));
      var pointers := ReadData(inode.single);
      var block := PointerAt(pointers, relative);
      if block != 0 {
        ReleaseBlock(block);
        inode' := inode'.(blockCount := Decrement(inode'.blockCount));
        pointers := SetPointer(pointers, relative, 0);
      }
      assert pointers == Emptied(v.data[inode.single], relative);
      if pointers == ZERO_BLOCK {
        ReleaseBlock(inode.single);
        inode' := inode'.(single := 0);
        SingleFreed(v, With(vol, ino, inode'), lo, ino, index, inode', block);
      } else {
        WriteData(inode.single, pointers);
        SingleKept(v, With(vol, ino, inode'), lo, ino, index, inode', block);
      }
    }

    method RemoveDouble(ghost ino: nat, inode: Inode, index: nat) returns (inode': Inode)
      requires Valid() && ino < |vol.table| && Safe(With(vol, ino, inode), geo.dataStart)
      requires 516 <= index < MAX_INDEX
      modifies store, bitmap, this`vol
      ensures Valid() && vol.table == old(vol).table
      ensures inode' == inode.(double := inode'.double, blockCount := inode'.blockCount)
      ensures BlockRemoved(With(old(vol), ino, inode), With(vol, ino, inode'), geo.dataStart, ino, index)
    {
      hide Valid, Safe, HasChild, T, Shrunk, BlockStore.Valid, OnImages, Ties, SetPointer, CutBlocks;
      inode' := inode;
      var relative := index - 516;
      var outerIndex, innerIndex := relative / PTRS, relative % PTRS;
      ghost var v, lo := With(vol, ino, inode), geo.dataStart;
      ghost var leaf, above := DLeaf(outerIndex, innerIndex), Inner(outerIndex);
      Roots(v, ino);
      if inode.double == 0 {
        NothingRemoved(v, lo, ino, index);
        return;
      }
      EntryOf(v, lo, ino, above);
      var outer := ReadData(inode.double);
      var innerBlock := PointerAt(outer, outerIndex);
      if innerBlock == 0 {
        NothingRemoved(v, lo, ino, index);
        return;
      }
      EntryOf(v, lo, ino, leaf);
      var inner := ReadData(innerBlock);
      var block := PointerAt(inner, innerIndex);
      if block != 0 {
        ReleaseBlock(block);
        inode' := inode'.(blockCount := Decrement(inode'.blockCount));
        inner := SetPointer(inner, innerIndex, 0);
      }
      if innerBlock == inode.double {
        NoSharing(v, lo, ino, above, ino, Double);
      }
      if inner == ZERO_BLOCK {
        ReleaseBlock(innerBlock);
        outer := SetPointer(outer, outerIndex, 0);
      } else {
        WriteData(innerBlock, inner);
      }
      if outer == ZERO_BLOCK {
        ReleaseBlock(inode.double);
        inode' := inode'.(double := 0);
      } else {
        WriteData(inode.double, outer);
      }
      ghost var v' := With(vol, ino, inode');
      if inner != ZERO_BLOCK {
        AllNull(outer);
        assert v'.data == v.data[innerBlock := inner];
        InnerKept(v, v', lo, ino, index, inode', block, innerBlock);
      } else if outer != ZERO_BLOCK {
        InnerFreed(v, v', lo, ino, index, inode', block, innerBlock);
      } else {
        BothFreed(v, v', lo, ino, index, inode', block, innerBlock);
      }
    }

    /** Free everything `inode`, a working copy of inode `ino`, maps below its size. */
    method FreeAllBlocks(ghost ino: nat, inode: Inode) returns (inode': Inode)
      requires Valid() && ino < |vol.table| && Safe(With(vol, ino, inode), geo.dataStart)
      modifies store, bitmap, this`vol
      ensures Valid() && vol.table == old(vol).table
      ensures Cleared(With(old(vol), ino, inode), With(vol, ino, inode'), geo.dataStart, ino, 0,
        DivCeil(inode.size, 4032))
      ensures inode' == inode.(direct := inode'.direct, single := inode'.single, double := inode'.double,
        blockCount := inode'.blockCount, size := 0)
    {
      hide Valid, Safe, Cleared, T, Page, BlockStore.Valid, OnImages;
      ghost var v, lo := With(vol, ino, inode), geo.dataStart;
      inode' := inode;
      ClearedStart(v, lo, ino, 0);
      inode' := RemoveRange(ino, inode', 0, DivCeil(inode.size, 4032));
      ghost var v1 := With(vol, ino, inode');
      inode' := inode'.(size := 0);
      ClearedResize(v, v1, lo, ino, 0, DivCeil(inode.size, 4032), inode');
      assert With(v1, ino, inode') == With(vol, ino, inode');
    }

    /** The loop of `FreeAllBlocks` and of a shrinking `Truncate`. */
    method RemoveRange(ghost ino: nat, inode: Inode, from: nat, to: nat) returns (inode': Inode)
      requires Valid() && ino < |vol.table| && Safe(With(vol, ino, inode), geo.dataStart) && from <= to
      modifies store, bitmap, this`vol
      ensures Valid() && vol.table == old(vol).table
      ensures Cleared(With(old(vol), ino, inode), With(vol, ino, inode'), geo.dataStart, ino, from, to)
      ensures inode' == inode.(direct := inode'.direct, single := inode'.single, double := inode'.double,
        blockCount := inode'.blockCount)
      ensures from >= MAX_INDEX ==> inode' == inode && vol == old(vol)
    {
      hide Valid, Safe, Shrunk, T, Page, BlockRemoved, BlockStore.Valid, OnImages;
      ghost var v, lo := With(vol, ino, inode), geo.dataStart;
      inode' := inode;
      ClearedStart(v, lo, ino, from);
      for index := from to to
        invariant Valid() && vol.table == old(vol).table
        invariant Cleared(v, With(vol, ino, inode'), lo, ino, from, index)
        invariant inode' == inode.(direct := inode'.direct, single := inode'.single, double := inode'.double,
          blockCount := inode'.blockCount)
        invariant from >= MAX_INDEX ==> inode' == inode && vol == old(vol)
      {
        ghost var v1 := With(vol, ino, inode');
        ShrunkSafe(v, v1, lo, ino);
        inode' := RemoveMappedBlock(ino, inode', index);
        ClearedStep(v, v1, With(vol, ino, inode'), lo, ino, from, index);
      }
    }

    /** Write the bitmap to its blocks and flush the carriers. */
    method Sync() returns (r: Result<()>)
      requires Valid()
      modifies store, this`saved
      ensures Valid() && r == Ok(()) && Durable() && saved == vol
    {
      hide BlockStore.Valid, OnImages, BlockStore.Remains, Ties, Recorded;
      ghost var before := store.Contents;
      TiesSizes(geo, vol, before, bitmap.Marked);
      WriteBitmap(geo, store, bitmap);
      TiesBitmap(geo, vol, before, store.Contents, bitmap.Marked);
      r := store.Flush();
      saved := vol;
      FlushedImages(geo, store, vol);
    }

    /** Everything the volume says is on the carriers. */
    ghost predicate Durable()
      requires Valid()
      reads this, store, bitmap
    {
      Recorded(geo, store.Contents, vol.used) && store.Flushed()
    }

    /** The clock. */
    method Now() returns (t: u64) {
      t := *;
    }

    method Read(ino: nat, offset: u64, len: u64) returns (r: Result<seq<byte>>)
      requires Valid() && Safe(vol, geo.dataStart)
      modifies store, bitmap, this`vol
      ensures Valid() && vol == old(vol)
      ensures r == ReadResult(geo, vol, ino, offset, len)
    {
      hide Valid, Safe, T, Page, Byte, Contents, SlotOf, BlockStore.Valid, OnImages, Ties, ReadResult, LookupResult;
      ReadEarly(geo, vol, ino, offset, len);
      var inode :- GetAttr(ino);
      if inode.IsDir() {
        return Err(IsDir);
      }
      if offset >= inode.size || len == 0 {
        return Ok([]);
      }
      var end := Min(inode.size, Min(offset + len, MAX_U64));
      var position := offset;
      var output: seq<byte> := [];
      while position < end
        invariant Valid() && vol == old(vol) && offset <= position <= end
        invariant position > offset ==> (position - 1) / 4032 < MAX_INDEX
        invariant output == ByteRange(vol, ino, offset, position)
        decreases end - position
      {
        var logical, within := position / 4032, position % 4032;
        var take := Min(end - position, 4032 - within);
        var chunk := ReadPiece(ino, inode, logical, within, take);
        if chunk.Err? {
          ReadStops(geo, vol, ino, offset, len, position);
          return Err(chunk.error);
        }
        RangeStep(vol, ino, offset, position, take);
        output := output + chunk.value;
        position := position + take;
      }
      RangeIsContents(vol, ino, offset, end);
      ReadEnds(geo, vol, ino, offset, len);
      return Ok(output);
    }

    /** One block's share of a read; a hole reads as zeros. */
    method ReadPiece(ghost ino: nat, inode: Inode, logical: nat, within: nat, take: nat) returns (r: Result<seq<byte>>)
      requires Valid() && Safe(vol, geo.dataStart) && ino < |vol.table| && inode == vol.table[ino]
      requires within + take <= 4032
      modifies store, bitmap, this`vol
      ensures Valid() && vol == old(vol)
      ensures r == if logical >= MAX_INDEX then Err(BadBlock(logical))
        else Ok(Page(vol, ino, logical)[within..within + take])
    {
      hide Valid, Safe, T, Page, SlotOf, BlockStore.Valid, OnImages, Ties, LookupResult;
      var block := MappedBlock(ino, inode, logical);
      LookupCases(vol, ino, logical);
      if block.Err? {
        return Err(block.error);
      }
      if block.value.Some? {
        var payload := ReadData(block.value.value);
        return Ok(payload[within..within + take]);
      }
      ZeroSlice(within, take);
      return Ok(Zeros(take));
    }

    method Write(ino: nat, offset: u64, data: seq<byte>) returns (r: Result<nat>)
      requires Valid() && Safe(vol, geo.dataStart)
      modifies store, bitmap, this`vol, this`saved
      ensures Valid() && Safe(vol, geo.dataStart)
      ensures r == WriteResult(geo, old(vol), ino, offset, |data|)
      ensures match r
              case Ok(n) => Durable() && WriteDone(geo, old(vol), vol, ino, offset, data)
              case Err(e) => WriteFailed(geo, old(vol), vol, ino, offset, data, e)
      ensures saved == if r.Ok? then vol else old(saved)
    {
      hide Valid, Safe, T, Page, Grown, Written, Full, Counted, Tight, Durable, BlockStore.Valid, OnImages,
          WriteAborted;
      var inode :- GetAttr(ino);
      if inode.IsDir() {
        return Err(IsDir);
      }
      var end := offset + |data|;
      if end > MAX_U64 {
        return Err(Manifest);
      }
      ghost var v, lo := vol, geo.dataStart;
      assert With(vol, ino, inode) == vol;
      var copied, inode' := WriteBlocks(ino, inode, offset, data);
      if copied.Err? {
        return Err(copied.error);
      }
      inode := inode';
      ghost var v1 := With(vol, ino, inode);
      WrittenFacts(v, v1, lo, ino, offset, data, |data|, |data|);
      if end > inode.size {
        inode := inode.(size := end);
      }
      var timestamp := Now();
      inode := inode.(mtime := timestamp, ctime := timestamp);
      var stored := WriteInode(ino, inode);
      assert vol == v1.(table := v1.table[ino := inode]);
      WriteFinished(v, v1, vol, lo, ino, offset, data, inode);
      DoneResult(geo, v, vol, ino, offset, data);
      var synced := Sync();
      return Ok(|data|);
    }

    /** The loop of `Write`: one block after the other. */
    method WriteBlocks(ino: nat, inode: Inode, offset: u64, data: seq<byte>)
      returns (r: Result<()>, inode': Inode)
      requires Valid() && Safe(vol, geo.dataStart) && ino < |vol.table| && inode == vol.table[ino]
      modifies store, bitmap, this`vol
      ensures Valid() && vol.table == old(vol).table
      ensures r == CopyResult(geo, old(vol), ino, offset, |data|)
      ensures r.Ok? ==>
        && Written(old(vol), With(vol, ino, inode'), geo.dataStart, ino, offset, data, |data|, |data|)
        && Takes(old(vol), With(vol, ino, inode'), ino, Paths(offset, |data|))
        && (data != [] ==> (offset + |data| - 1) / 4032 < MAX_INDEX)
        && (Full(old(vol)) ==> Full(With(vol, ino, inode')))
        && (Counted(old(vol)) ==> Counted(With(vol, ino, inode')))
      ensures r.Err? ==>
        Safe(vol, geo.dataStart) && exists consumed: nat ::
          WriteAborted(geo, old(vol), vol, ino, offset, data, consumed, r.error)
    {
      hide Valid, Safe, T, Page, Written, Full, Counted, WriteAborted, BlockStore.Valid, OnImages, Ties, Takes, Paths,
          CopyResult, CanMap;
      ghost var v, lo := vol, geo.dataStart;
      inode' := inode;
      var position := offset;
      var consumed := 0;
      WrittenStart(v, lo, ino, offset, data);
      TakesRefl(v, ino, Paths(offset, 0));
      assert With(vol, ino, inode) == vol;
      while consumed < |data|
        invariant Valid() && vol.table == v.table && consumed <= |data| && position == offset + consumed
        invariant Written(v, With(vol, ino, inode'), lo, ino, offset, data, consumed, consumed)
        invariant Takes(v, With(vol, ino, inode'), ino, Paths(offset, consumed))
        invariant Full(v) ==> Full(With(vol, ino, inode'))
        invariant Counted(v) ==> Counted(With(vol, ino, inode'))
        invariant position > offset ==> (position - 1) / 4032 < MAX_INDEX
        invariant 0 < consumed < |data| ==> position % 4032 == 0
      {
        var take := Min(|data| - consumed, 4032 - position % 4032);
        r, inode' := WritePiece(v, ino, inode', offset, data, consumed, take);
        if r.Err? {
          AbortedResult(geo, v, vol, ino, offset, data, consumed, r.error);
          return;
        }
        position := position + take;
        consumed := consumed + take;
      }
      CopiedResult(geo, v, With(vol, ino, inode'), ino, offset, data);
      return Ok(()), inode';
    }

    /** One turn of that loop: map the block, then read, modify and write it back. */
    method WritePiece(ghost v: Vol, ino: nat, inode: Inode, offset: u64, data: seq<byte>, consumed: nat, take: nat)
      returns (r: Result<()>, inode': Inode)
      requires Valid() && vol.table == v.table && ino < |v.table| && Safe(v, geo.dataStart)
      requires Written(v, With(vol, ino, inode), geo.dataStart, ino, offset, data, consumed, consumed)
      requires Takes(v, With(vol, ino, inode), ino, Paths(offset, consumed))
      requires 0 < take && consumed + take <= |data| && (offset + consumed) % 4032 + take <= 4032
      requires consumed > 0 ==> (offset + consumed) % 4032 == 0 && (offset + consumed - 1) / 4032 < MAX_INDEX
      modifies store, bitmap, this`vol
      ensures Valid() && vol.table == v.table
      ensures var logical := (offset + consumed) / 4032;
              r.Ok? <==> logical < MAX_INDEX && CanMap(geo, With(old(vol), ino, inode), ino, logical)
      ensures r.Ok? ==>
        && (offset + consumed) / 4032 < MAX_INDEX
        && Written(v, With(vol, ino, inode'), geo.dataStart, ino, offset, data, consumed + take, consumed + take)
        && Takes(v, With(vol, ino, inode'), ino, Paths(offset, consumed + take))
        && (Full(With(old(vol), ino, inode)) ==> Full(With(vol, ino, inode')))
        && (Counted(With(old(vol), ino, inode)) ==> Counted(With(vol, ino, inode')))
      ensures r.Err? ==> Safe(vol, geo.dataStart) && WriteAborted(geo, v, vol, ino, offset, data, consumed, r.error)
    {
      hide Valid, Safe, T, Page, Grown, Written, Full, Counted, OthersKept, WriteAborted, Byte, SlotOf, Extends,
          BlockStore.Valid, OnImages, Ties, Patch, Mapped, AllTaken, Takes, Paths, CanMap, PathTo;
      ghost var lo, v1 := geo.dataStart, With(vol, ino, inode);
      WrittenFacts(v, v1, lo, ino, offset, data, consumed, consumed);
      var position := offset + consumed;
      var logical, within := position / 4032, position % 4032;
      var mapped: Result<Option<nat>>;
      mapped, inode' := Bmap(ino, inode, logical, true);
      ghost var v2 := With(vol, ino, inode');
      if mapped.Err? {
        assert vol == v2.(table := v2.table[ino := v.table[ino]]);
        AbortedWrite(geo, v, v1, v2, vol, ino, offset, data, consumed, mapped.error);
        return Err(mapped.error), inode';
      }
      WrittenMap(v, v1, v2, lo, ino, offset, data, consumed, take);
      GrownSafe(v1, v2, lo, ino, SlotOf(logical));
      GrownTakes(v1, v2, lo, ino, SlotOf(logical));
      TakesTrans(v, v1, v2, lo, ino, Paths(offset, consumed), PathTo(SlotOf(logical)));
      PathsMore(offset, consumed, take);
      var block := mapped.value.value;
      WrittenFacts(v, v2, lo, ino, offset, data, consumed, consumed + take);
      PageOfTarget(v2, lo, ino, logical);
      Overlay(block, within, data[consumed..consumed + take]);
      CopyTakes(v, v2, With(vol, ino, inode'), lo, ino, logical, Paths(offset, consumed + take));
      WrittenCopy(v, v2, With(vol, ino, inode'), lo, ino, offset, data, consumed, take);
      return Ok(()), inode';
    }

    /** Read, modify and write back one data block. */
    method Overlay(b: nat, within: nat, piece: seq<byte>)
      requires Valid() && geo.dataStart <= b < geo.total && within + |piece| <= UB
      modifies store, this`vol
      ensures Valid() && vol == old(vol).(data := old(vol).data[b := Patch(old(vol).data[b], within, piece)])
    {
      hide BlockStore.Valid, OnImages, BlockStore.Remains, Ties, Patch;
      var payload := ReadData(b);
      payload := Patch(payload, within, piece);
      WriteData(b, payload);
    }

    method Truncate(ino: nat, newSize: u64) returns (r: Result<()>)
      requires Valid() && Safe(vol, geo.dataStart)
      modifies store, bitmap, this`vol, this`saved
      ensures Valid() && Safe(vol, geo.dataStart)
      ensures r == TruncateOutcome(geo, old(vol), ino, newSize)
      ensures ino == 0 || ino > geo.inodeCount || old(vol).table[ino].mode == 0 ==> r == Err(NotFound)
      ensures 0 < ino <= geo.inodeCount && old(vol).table[ino].mode != 0 && old(vol).table[ino].IsDir() ==>
        r == Err(IsDir)
      ensures IsFile(geo, old(vol), ino) ==>
        if newSize >= old(vol).table[ino].size || newSize % 4032 == 0 || newSize / 4032 < 12 + 504 + 504 * 504
        then r == Ok(()) else r == Err(BadBlock(newSize / 4032))
      ensures r.Err? ==> vol == old(vol)
      ensures r.Ok? ==>
        && Durable()
        && Resized(old(vol), vol, geo.dataStart, ino, newSize)
        && (Exact(old(vol), geo.dataStart) ==> Exact(vol, geo.dataStart))
      ensures saved == if r.Ok? then vol else old(saved)
    {
      hide Valid, Safe, T, Page, Resized, Exact, Durable, TailZeroed, Cleared, BlockStore.Valid, OnImages;
      var inode :- GetAttr(ino);
      if inode.IsDir() {
        return Err(IsDir);
      }
      ghost var v, lo := vol, geo.dataStart;
      if newSize < inode.size {
        r := Shrink(ino, inode, newSize);
        if r.Err? {
          return r;
        }
      } else {
        inode := inode.(size := newSize);
        var timestamp := Now();
        inode := inode.(mtime := timestamp, ctime := timestamp);
        var stored := WriteInode(ino, inode);
        GrowFinished(v, vol, lo, ino, newSize, inode);
      }
      ResizedSafe(v, vol, lo, ino, newSize);
      r := Sync();
    }

    /** Zero one data block from byte `tail` on. */
    method ZeroTail(b: nat, tail: nat)
      requires Valid() && geo.dataStart <= b < geo.total && tail <= UB
      modifies store, this`vol
      ensures Valid() && vol == old(vol).(data := old(vol).data[b := CutAt(old(vol).data[b], tail)])
    {
      hide BlockStore.Valid, OnImages, BlockStore.Remains, Ties;
      var payload := ReadData(b);
      payload := CutAt(payload, tail);
      WriteData(b, payload);
    }

    /** The shrinking half of `Truncate`, up to storing the inode. */
    method Shrink(ino: nat, inode: Inode, newSize: u64) returns (r: Result<()>)
      requires Valid() && Safe(vol, geo.dataStart)
      requires 0 < ino <= geo.inodeCount && inode == vol.table[ino] && inode.Live() && newSize < inode.size
      modifies store, bitmap, this`vol
      ensures Valid()
      ensures r == if newSize % 4032 != 0 && newSize / 4032 >= MAX_INDEX then Err(BadBlock(newSize / 4032)) else Ok(())
      ensures r.Err? ==> vol == old(vol)
      ensures r.Ok? ==>
        && Resized(old(vol), vol, geo.dataStart, ino, newSize)
        && (Exact(old(vol), geo.dataStart) ==> Exact(vol, geo.dataStart))
    {
      hide Valid, Safe, T, Page, Resized, Exact, TailZeroed, Cleared, BlockStore.Valid, OnImages, Ties;
      ghost var v, lo := vol, geo.dataStart;
      assert With(vol, ino, inode) == vol;
      var keepBlocks, oldBlocks := DivCeil(newSize, 4032), DivCeil(inode.size, 4032);
      var inode' := RemoveRange(ino, inode, keepBlocks, oldBlocks);
      ghost var v1 := With(vol, ino, inode');
      ClearedSafe(v, v1, lo, ino, keepBlocks, oldBlocks);
      var tail := newSize % 4032;
      if tail != 0 {
        var mapped, _ := Bmap(ino, inode', keepBlocks - 1, false);
        if mapped.Err? {
          assert keepBlocks - 1 >= MAX_INDEX && vol == v;
          return Err(mapped.error);
        }
        PageOfTarget(v1, lo, ino, keepBlocks - 1);
        if mapped.value.Some? {
          ZeroTail(mapped.value.value, tail);
          TailMapped(v1, With(vol, ino, inode'), lo, ino, newSize);
        } else {
          TailUnmapped(v1, lo, ino, newSize);
        }
      } else {
        TailUnmapped(v1, lo, ino, newSize);
      }
      ghost var v2 := With(vol, ino, inode');
      inode' := inode'.(size := newSize);
      var timestamp := Now();
      inode' := inode'.(mtime := timestamp, ctime := timestamp);
      r := WriteInode(ino, inode');
      assert vol == v2.(table := v2.table[ino := inode']);
      TailTable(v1, v2, lo, ino, newSize);
      ShrinkFinished(v, v1, v2, vol, lo, ino, newSize, inode');
    }

    // -------------------------------------------------------------- directories

    /** All records of directory `inode`, block after block. */
    method DirectoryEntries(ghost ino: nat, inode: Inode) returns (r: Result<seq<DirEntry>>)
      requires Valid() && Safe(vol, geo.dataStart) && ino < |vol.table| && inode == vol.table[ino]
      modifies store, bitmap, this`vol
      ensures Valid() && vol == old(vol)
      ensures r == Entries(vol, ino, 0, DivCeil(inode.size, 4032))
    {
      hide Valid, Safe, T, Page, Walk, Utf8, BlockStore.Valid, OnImages;
      var blocks := DivCeil(inode.size, 4032);
      var entries: seq<DirEntry> := [];
      NothingBefore(Entries(vol, ino, 0, blocks));
      for logical := 0 to blocks
        invariant Valid() && vol == old(vol)
        invariant Entries(vol, ino, 0, blocks) == Before(entries, Entries(vol, ino, logical, blocks))
      {
        var mapped :- MappedBlock(ino, inode, logical);
        if mapped.None? {
          continue;
        }
        var payload := ReadData(mapped.value);
        ghost var before := entries;
        var recs :- WalkBlock(payload);
        entries := entries + recs;
        match Entries(vol, ino, logical + 1, blocks) {
          case Ok(rest) => assert before + (recs + rest) == entries + rest;
          case Err(_) =>
        }
      }
      assert entries + [] == entries;
      return Ok(entries);
    }

    method Lookup(parentIno: nat, name: Name) returns (r: Result<Option<nat>>)
      requires Valid() && Safe(vol, geo.dataStart)
      modifies store, bitmap, this`vol
      ensures Valid() && vol == old(vol)
      ensures r == LookupName(vol, parentIno, name)
    {
      hide Valid, Safe, Entries, Utf8, BlockStore.Valid, OnImages;
      var parent :- GetAttr(parentIno);
      if !parent.IsDir() {
        return Err(NotDir);
      }
      var entries :- DirectoryEntries(parentIno, parent);
      for k := 0 to |entries|
        invariant Valid() && vol == old(vol)
        invariant FindNamed(entries[..k], name) == k
      {
        var entry := entries[k];
        if entry.inode != 0 && entry.name == name {
          FindAt(entries[..k], entry, entries[k + 1..], name);
          assert entries[..k] + [entry] + entries[k + 1..] == entries;
          return Ok(Some(entry.inode));
        }
        FindMore(entries[..k], entry, name);
        assert entries[..k] + [entry] == entries[..k + 1];
      }
      assert entries[..|entries|] == entries;
      return Ok(None);
    }

    /** Store a directory's inode with new times. */
    method BumpDirectory(ino: nat, inode: Inode) returns (r: Result<()>)
      requires Valid() && 0 < ino <= geo.inodeCount
      modifies store, this`vol
      ensures Valid() && r == Ok(())
      ensures vol.table[ino] == inode.(mtime := vol.table[ino].mtime, ctime := vol.table[ino].mtime)
      ensures vol == old(vol).(table := old(vol).table[ino := vol.table[ino]])
    {
      hide BlockStore.Valid, OnImages, BlockStore.Remains;
      var timestamp := Now();
      r := WriteInode(ino, inode.(mtime := timestamp, ctime := timestamp));
    }

    /** Enter `name` in directory `parentIno`. */
    method AddDirEntry(parentIno: nat, ino: u64, name: Name, fileType: byte) returns (r: Result<()>)
      requires Valid() && Safe(vol, geo.dataStart)
      modifies store, bitmap, this`vol
      ensures Valid()
      ensures r == AddResult(old(vol), |FreeData(old(vol), geo.dataStart)|, parentIno, name)
      ensures r.Ok? ==>
        IsDirectory(geo, old(vol), parentIno) && DirAdded(old(vol), vol, geo.dataStart, parentIno, ino, name, fileType)
      ensures r.Err? ==> EntryLeft(old(vol), vol, geo.dataStart, parentIno, name, r.error)
    {
      hide Valid, Safe, T, Page, Utf8, EntryLeft, PageChanged, PageAppended, NoRoom, RequiredLen, AllTaken,
          BlockStore.Valid, OnImages, PutFrom, FreeData, Lacking, LookupResult;
      ghost var v, lo := vol, geo.dataStart;
      LeftRefl(v, lo, parentIno, name);
      var parent :- GetAttr(parentIno);
      if !parent.IsDir() {
        return Err(NotDir);
      }
      var needed := RequiredLen(|name|);
      LongNames(|name|);
      if needed > UB || |name| > 0xFF {
        return Err(NoSpace);
      }
      var blockCount := DivCeil(parent.size, 4032);
      AddScanRoom(v, parentIno, 0, blockCount, ino, name, fileType);
      for logical := 0 to blockCount
        invariant Valid() && vol == v
        invariant AddScan(v, parentIno, 0, blockCount, ino, name, fileType)
               == AddScan(v, parentIno, logical, blockCount, ino, name, fileType)
      {
        var inserted :- AddToBlock(parentIno, parent, logical, ino, name, fileType);
        if inserted {
          return Ok(());
        }
      }
      r := AppendEntry(parentIno, parent, ino, name, fileType);
    }

    /** One block's turn in `AddDirEntry`. */
    method AddToBlock(parentIno: nat, parent: Inode, logical: nat, ino: u64, name: Name, fileType: byte)
        returns (r: Result<bool>)
      requires Valid() && Safe(vol, geo.dataStart) && 0 < parentIno <= geo.inodeCount && parent == vol.table[parentIno]
      requires logical < DivCeil(parent.size, 4032) && |name| < 0x100
      modifies store, bitmap, this`vol
      ensures Valid()
      ensures r != Ok(true) ==> vol == old(vol)
      ensures r == Rewritten(BlockPut(old(vol), parentIno, logical, ino, name, fileType))
      ensures r == Ok(true) ==> BlockRewritten(old(vol), vol, geo.dataStart, parentIno, logical,
                                               BlockPut(old(vol), parentIno, logical, ino, name, fileType))
    {
      hide Valid, Safe, T, Page, Utf8, PageChanged, BlockStore.Valid, OnImages, PutFrom;
      ghost var v, lo := vol, geo.dataStart;
      var mapped := MappedBlock(parentIno, parent, logical);
      if mapped.Err? {
        return Err(mapped.error);
      }
      if mapped.value.None? {
        return Err(Manifest);
      }
      var block := mapped.value.value;
      var payload := ReadData(block);
      var inserted :- TryInsert(payload, ino, name, fileType);
      if inserted.None? {
        return Ok(false);
      }
      WriteData(block, inserted.value);
      ghost var v1 := vol;
      var stored := BumpDirectory(parentIno, parent);
      PageStored(v, v1, vol, lo, parentIno, logical, inserted.value, vol.table[parentIno]);
      return Ok(true);
    }

    /** The end of `AddDirEntry`: a block of its own for the new entry. */
    method AppendEntry(parentIno: nat, parent: Inode, ino: u64, name: Name, fileType: byte) returns (r: Result<()>)
      requires Valid() && Safe(vol, geo.dataStart) && 0 < parentIno <= geo.inodeCount && parent == vol.table[parentIno]
      requires |name| < 0x100
      modifies store, bitmap, this`vol
      ensures Valid()
      ensures r == AppendResult(old(vol), |FreeData(old(vol), geo.dataStart)|, parentIno)
      ensures r.Ok? ==> PageAppended(old(vol), vol, geo.dataStart, parentIno, NewPage(ino, name, fileType))
      ensures r.Err? ==> EntryLeft(old(vol), vol, geo.dataStart, parentIno, name, r.error)
    {
      hide Valid, Safe, T, Page, Utf8, PageAppended, Grown, Full, Counted, AllTaken, BlockStore.Valid, OnImages,
          FreeData, Lacking, Unseen, LeftOver;
      ghost var v, lo := vol, geo.dataStart;
      LeftRefl(v, lo, parentIno, name);
      var logical := DivCeil(parent.size, 4032);
      assert With(vol, parentIno, parent) == vol;
      var mapped, parent' := Bmap(parentIno, parent, logical, true);
      ghost var v1 := With(vol, parentIno, parent');
      if mapped.Err? {
        if logical < MAX_INDEX {
          GrownDropped(v, v1, vol, lo, parentIno, SlotOf(logical));
          SameTaken(v1, vol, lo);
        }
        return Err(mapped.error);
      }
      GrownSafe(v, v1, lo, parentIno, SlotOf(logical));
      PageOfTarget(v1, lo, parentIno, logical);
      WriteData(mapped.value.value, NewPage(ino, name, fileType));
      ghost var v2 := With(vol, parentIno, parent');
      parent' := parent'.(size := parent'.size + 4032);
      ghost var before := vol;
      r := BumpDirectory(parentIno, parent');
      assert vol == v2.(table := v2.table[parentIno := vol.table[parentIno]]);
      AppendStored(v, v1, v2, vol, lo, parentIno, NewPage(ino, name, fileType), vol.table[parentIno]);
    }

    /** Take `name` out of directory `parentIno`. */
    method RemoveDirEntry(parentIno: nat, name: Name) returns (r: Result<()>)
      requires Valid() && Safe(vol, geo.dataStart)
      modifies store, bitmap, this`vol
      ensures Valid()
      ensures r == RemoveResult(old(vol), parentIno, name)
      ensures r.Ok? ==>
        && IsDirectory(geo, old(vol), parentIno)
        && DirRemoved(old(vol), vol, geo.dataStart, parentIno, name)
      ensures r.Err? ==> vol == old(vol)
    {
      hide Valid, Safe, T, Page, Utf8, PageChanged, BlockStore.Valid, OnImages, TakeFrom, LookupResult;
      ghost var v, lo := vol, geo.dataStart;
      var parent :- GetAttr(parentIno);
      if !parent.IsDir() {
        return Err(NotDir);
      }
      var blocks := DivCeil(parent.size, 4032);
      for logical := 0 to blocks
        invariant Valid() && vol == v
        invariant RemoveScan(v, parentIno, 0, blocks, name) == RemoveScan(v, parentIno, logical, blocks, name)
      {
        var taken :- RemoveFromBlock(parentIno, parent, logical, name);
        if taken {
          return Ok(());
        }
      }
      return Err(NotFound);
    }

    /** One block's turn in `RemoveDirEntry`. */
    method RemoveFromBlock(parentIno: nat, parent: Inode, logical: nat, name: Name) returns (r: Result<bool>)
      requires Valid() && Safe(vol, geo.dataStart) && 0 < parentIno <= geo.inodeCount && parent == vol.table[parentIno]
      requires logical < DivCeil(parent.size, 4032)
      modifies store, bitmap, this`vol
      ensures Valid()
      ensures r != Ok(true) ==> vol == old(vol)
      ensures r == Rewritten(BlockTaken(old(vol), parentIno, logical, name))
      ensures r == Ok(true) ==>
        BlockRewritten(old(vol), vol, geo.dataStart, parentIno, logical, BlockTaken(old(vol), parentIno, logical, name))
    {
      hide Valid, Safe, T, Page, Utf8, PageChanged, BlockStore.Valid, OnImages, TakeFrom;
      ghost var v, lo := vol, geo.dataStart;
      var mapped := MappedBlock(parentIno, parent, logical);
      if mapped.Err? {
        return Err(mapped.error);
      }
      if mapped.value.None? {
        return Err(Manifest);
      }
      var block := mapped.value.value;
      var payload := ReadData(block);
      var taken :- TryRemove(payload, name);
      if taken.None? {
        return Ok(false);
      }
      WriteData(block, taken.value);
      ghost var v1 := vol;
      var stored := BumpDirectory(parentIno, parent);
      PageStored(v, v1, vol, lo, parentIno, logical, taken.value, vol.table[parentIno]);
      return Ok(true);
    }

    /** Point the `..` entry of a directory at `newParent`; `directory` may be an earlier copy
        of inode `ino`. */
    method UpdateDotdot(ghost ino: nat, directory: Inode, newParent: u64) returns (r: Result<()>)
      requires Valid() && Safe(vol, geo.dataStart) && 0 < ino <= geo.inodeCount
      requires OlderPointers(directory, vol.table[ino])
      modifies store, bitmap, this`vol
      ensures Valid()
      ensures r == TurnResult(old(vol), directory, ino, newParent)
      ensures r.Ok? ==> DirRedirected(old(vol), vol, geo.dataStart, ino, DOTDOT, newParent)
      ensures r.Err? ==> vol == old(vol)
    {
      hide Valid, Safe, Utf8, PageChanged, TurnFrom, Grown, BlockStore.Valid, OnImages;
      ghost var v, lo := vol, geo.dataStart;
      OlderSafe(v, lo, ino, directory);
      var mapped, _ := Bmap(ino, directory, 0, false);
      OlderTarget(v.data, directory, v.table[ino], SlotOf(0));
      if mapped.value.None? {
        return Err(Manifest);
      }
      var block := mapped.value.value;
      PageOfTarget(v, lo, ino, 0);
      var payload := ReadData(block);
      var redirected :- TryRedirect(payload, DOTDOT, newParent);
      if redirected.None? {
        return Err(Manifest);
      }
      WriteData(block, redirected.value);
      assert vol.table == vol.table[ino := v.table[ino]];
      PageStored(v, vol, vol, lo, ino, 0, redirected.value, v.table[ino]);
      return Ok(());
    }

    // -------------------------------------------------------------- names

    method FreeInode(ino: nat) returns (r: Result<()>)
      requires Valid()
      modifies store, this`vol
      ensures Valid()
      ensures if 0 < ino <= geo.inodeCount
              then r == Ok(()) && vol == old(vol).(table := old(vol).table[ino := FREE_INODE])
              else r == Err(NotFound) && vol == old(vol)
    {
      hide BlockStore.Valid, OnImages, BlockStore.Remains;
      r := WriteInode(ino, FREE_INODE);
    }

    /** Free the blocks and the record of inode `ino`, of which `inode` is a copy. */
    method Discard(ino: nat, inode: Inode)
      requires Valid() && Safe(vol, geo.dataStart) && 0 < ino <= geo.inodeCount
      requires SamePointers(vol.table[ino], inode) && inode.size == vol.table[ino].size
      requires inode.blockCount == vol.table[ino].blockCount
      modifies store, bitmap, this`vol
      ensures Valid() && Safe(vol, geo.dataStart)
      ensures OthersKept(old(vol), vol, ino) && vol.table[ino] == FREE_INODE
      ensures Exact(old(vol), geo.dataStart) ==>
        && Exact(vol, geo.dataStart)
        && vol.used == old(vol).used - Owned(old(vol), ino)
    {
      hide Valid, Safe, T, Page, Exact, Cleared, Owned, BlockStore.Valid, OnImages;
      ghost var v, lo := vol, geo.dataStart;
      SameTree(v, ino, inode, With(v, ino, inode), lo);
      var inode' := FreeAllBlocks(ino, inode);
      ghost var v1 := With(vol, ino, inode');
      var freed := FreeInode(ino);
      assert vol == v1.(table := v1.table[ino := FREE_INODE]);
      Discarded(v, inode, v1, vol, lo, ino);
    }

    method Create(parentIno: nat, name: Name, mode: u32) returns (r: Result<nat>)
      requires Valid() && Safe(vol, geo.dataStart)
      modifies store, bitmap, this`vol, this`saved
      ensures Valid() && Safe(vol, geo.dataStart)
      ensures match CreateResult(old(vol), geo.dataStart, parentIno, name)
              case Ok(_) => r.Ok?
              case Err(e) =>
                && r == Err(e)
                && CreateLeft(old(vol), vol, geo.dataStart, name, e, CreateTakes(old(vol), parentIno, name))
      ensures r.Ok? ==> Durable() && CreateDone(old(vol), vol, geo.dataStart, parentIno, name, r.value)
      ensures r.Ok? ==> NewFile(old(vol), vol, r.value, mode)
      ensures r.Ok? ==>
        && vol.table[r.value].mode == 0x8000 + mode % 0x1000 && vol.table[r.value].nlink == 1
        && vol.table[r.value].uid == 0 && vol.table[r.value].gid == 0
      ensures saved == if r.Ok? then vol else old(saved)
    {
      hide Valid, Safe, LookupName, Utf8, T, Page, DirAdded, AddResult, EntryLeft, Orphaned, Durable, CreateDone,
          AllTaken, BlockStore.Valid, OnImages, FreeData;
      ghost var v, lo := vol, geo.dataStart;
      var found :- Lookup(parentIno, name);
      if found.Some? {
        return Err(Exists);
      }
      var ino :- AllocInode();
      assert UnusedInode(v, ino);
      var now := Now();
      var inode := FREE_INODE.(mode := 0x8000 + mode % 0x1000, nlink := 1, atime := now, mtime := now, ctime := now);
      var stored := WriteInode(ino, inode);
      ghost var v1 := vol;
      FreshStored(v, v1, lo, ino, inode);
      FoundDirectory(v, parentIno, name);
      SameFree(v, v1, lo);
      var added := AddDirEntry(parentIno, ino, name, FILE_TYPE_FILE);
      if added.Err? {
        EntryRefused(v, v1, vol, lo, ino, parentIno, name, |FreeData(v, lo)|, added.error);
        return Err(added.error);
      }
      AddResultElsewhere(v, v1, ino, |FreeData(v, lo)|, parentIno, name);
      CreateFinished(v, v1, vol, lo, parentIno, name, ino, inode);
      AddedNode(v1, vol, lo, parentIno, ino, name, FILE_TYPE_FILE);
      OthersTable(v1, vol, parentIno);
      var synced := Sync();
      return Ok(ino);
    }

    /** Store directory `ino` with its first block, which holds `.` and `..`. */
    method StoreDirectory(ino: nat, parentIno: nat, block: nat, inode: Inode)
      requires Valid() && 0 < ino <= geo.inodeCount && 0 < parentIno <= geo.inodeCount
      requires geo.dataStart <= block < geo.total
      modifies store, this`vol
      ensures Valid()
      ensures vol == Vol(old(vol).table[ino := inode], old(vol).data[block := InitialBlock(ino, parentIno)],
                         old(vol).used, old(vol).owner[block := Ref(ino, Direct(0))])
    {
      hide Valid, InitialBlock, BlockStore.Valid, OnImages;
      WriteData(block, InitialBlock(ino, parentIno));
      Own(block, Ref(ino, Direct(0)));
      var stored := WriteInode(ino, inode);
    }

    method Mkdir(parentIno: nat, name: Name, mode: u32) returns (r: Result<nat>)
      requires Valid() && Safe(vol, geo.dataStart)
      modifies store, bitmap, this`vol, this`saved
      ensures Valid() && Safe(vol, geo.dataStart)
      ensures match MkdirResult(old(vol), geo.dataStart, parentIno, name)
              case Ok(_) => r.Ok?
              case Err(e) =>
                && r == Err(e)
                && CreateLeft(old(vol), vol, geo.dataStart, name, e,
                     MkdirTakes(old(vol), geo.dataStart, parentIno, name))
      ensures r.Ok? ==> Durable() && MkdirDone(old(vol), vol, geo.dataStart, parentIno, name, r.value)
      ensures r.Ok? ==> NewDirectory(old(vol), vol, r.value, mode)
      ensures r.Ok? ==>
        && vol.table[r.value].mode == 0x4000 + mode % 0x1000 && vol.table[r.value].nlink == 2
        && vol.table[r.value].uid == 0 && vol.table[r.value].gid == 0
      ensures saved == if r.Ok? then vol else old(saved)
    {
      hide Valid, Safe, LookupName, Utf8, T, Page, DirAdded, AddResult, EntryLeft, Orphaned, Durable, MkdirDone,
          InitialBlock, AllTaken, OthersKept, Exact, BlockStore.Valid, OnImages, Ties, FreeData, SaturatingDecrement,
          OlderPointers, Pad, PathTo, Aligned, SameAttributes;
      ghost var v, lo := vol, geo.dataStart;
      var found :- Lookup(parentIno, name);
      if found.Some? {
        return Err(Exists);
      }
      FoundDirectory(v, parentIno, name);
      var attr := GetAttr(parentIno);
      if !attr.value.IsDir() {
        return Err(NotDir);
      }
      var ino :- AllocInode();
      assert UnusedInode(v, ino);
      NoneFree(v, lo);
      var block :- AllocateBlock();
      var now := Now();
      var inode := FREE_INODE.(mode := 0x4000 + mode % 0x1000, nlink := 2, size := UB, atime := now, mtime := now,
                               ctime := now, blockCount := 1, direct := NO_POINTERS[0 := block]);
      StoreDirectory(ino, parentIno, block, inode);
      ghost var v1 := vol;
      assert v1.data == v.data[block := InitialBlock(ino, parentIno)];
      DirStored(v, v1, lo, ino, block, InitialBlock(ino, parentIno), inode);
      OneLessFree(v, v1, lo, block);
      var added := AddDirEntry(parentIno, ino, name, FILE_TYPE_DIR);
      if added.Err? {
        EntryRefused(v, v1, vol, lo, ino, parentIno, name, |FreeData(v, lo)| - 1, added.error);
        return Err(added.error);
      }
      AddResultElsewhere(v, v1, ino, |FreeData(v, lo)| - 1, parentIno, name);
      ghost var v2 := vol;
      AddedNode(v1, v2, lo, parentIno, ino, name, FILE_TYPE_DIR);
      OthersTable(v1, v2, parentIno);
      var got := GetAttr(parentIno);
      var parent' := got.value.(nlink := Increment(got.value.nlink), mtime := now, ctime := now);
      var stored := WriteInode(parentIno, parent');
      MkdirFinished(v, v1, v2, vol, lo, parentIno, name, ino, block, inode, parent');
      var synced := Sync();
      return Ok(ino);
    }

    method Readdir(ino: nat) returns (r: Result<seq<Listed>>)
      requires Valid() && Safe(vol, geo.dataStart)
      modifies store, bitmap, this`vol
      ensures Valid() && vol == old(vol)
      ensures r == ListingOf(vol, ino)
    {
      hide Valid, Safe, Entries, Utf8, BlockStore.Valid, OnImages;
      var inode :- GetAttr(ino);
      if !inode.IsDir() {
        return Err(NotDir);
      }
      var entries :- DirectoryEntries(ino, inode);
      var listed: seq<Listed> := [];
      for k := 0 to |entries|
        invariant Valid() && vol == old(vol)
        invariant listed == Listing(entries[..k])
      {
        assert entries[..k + 1][..k] == entries[..k];
        var entry := entries[k];
        if entry.inode != 0 {
          listed := listed + [Listed(entry.inode, entry.name, entry.fileType)];
        }
      }
      assert entries[..|entries|] == entries;
      return Ok(listed);
    }

    method Unlink(parentIno: nat, name: Name) returns (r: Result<()>)
      requires Valid() && Safe(vol, geo.dataStart)
      modifies store, bitmap, this`vol, this`saved
      ensures Valid() && Safe(vol, geo.dataStart)
      ensures r == UnlinkResult(old(vol), parentIno, name)
      ensures r.Err? ==> vol == old(vol)
      ensures r.Ok? ==>
        Durable() && UnlinkDone(old(vol), vol, geo.dataStart, parentIno, name,
            LookupName(old(vol), parentIno, name).value.value)
      ensures saved == if r.Ok? then vol else old(saved)
    {
      hide Valid, Safe, LookupName, Utf8, T, Page, DirRemoved, Durable, UnlinkDone, Exact, Owned, Blocks, Names, Recs,
          RemoveResult, BlockStore.Valid, OnImages;
      ghost var v, lo := vol, geo.dataStart;
      var found :- Lookup(parentIno, name);
      if found.None? {
        return Err(NotFound);
      }
      var ino := found.value;
      var inode :- GetAttr(ino);
      if inode.IsDir() {
        return Err(IsDir);
      }
      FoundDirectory(v, parentIno, name);
      var removed :- RemoveDirEntry(parentIno, name);
      ghost var v1 := vol;
      RemovedNode(v, v1, lo, parentIno, name);
      OthersTable(v, v1, parentIno);
      inode := inode.(nlink := SaturatingDecrement(inode.nlink));
      if inode.nlink == 0 {
        Discard(ino, inode);
        UnlinkFinished(v, v1, vol, lo, parentIno, name, ino);
      } else {
        var now := Now();
        inode := inode.(ctime := now);
        var stored := WriteInode(ino, inode);
        SameTree(v1, ino, inode, vol, lo);
        UnlinkKept(v, v1, vol, lo, parentIno, name, ino, inode);
      }
      r := Sync();
    }

    method Rmdir(parentIno: nat, name: Name) returns (r: Result<()>)
      requires Valid() && Safe(vol, geo.dataStart)
      modifies store, bitmap, this`vol, this`saved
      ensures Valid() && Safe(vol, geo.dataStart)
      ensures r == RmdirResult(old(vol), parentIno, name)
      ensures r.Err? ==> RmdirLeft(old(vol), vol, geo.dataStart, parentIno, name) && Spared(old(vol), vol, {parentIno})
      ensures r.Ok? ==>
        Durable() && RmdirDone(old(vol), vol, geo.dataStart, parentIno, name,
            LookupName(old(vol), parentIno, name).value.value)
      ensures saved == if r.Ok? then vol else old(saved)
    {
      hide Valid, Safe, LookupName, Utf8, T, Page, DirRemoved, Durable, RmdirDone, Exact, Owned, Blocks, Names,
          Recs, Spared, Empty, ListingOf, IsDot, Shaped, RemoveResult, BlockStore.Valid, OnImages;
      ghost var v, lo := vol, geo.dataStart;
      SparedRefl(v, {parentIno});
      var found :- Lookup(parentIno, name);
      if found.None? {
        return Err(NotFound);
      }
      var ino := found.value;
      FoundDirectory(v, parentIno, name);
      var inode :- GetAttr(ino);
      if !inode.IsDir() {
        return Err(NotDir);
      }
      var listed :- Readdir(ino);
      for k := 0 to |listed|
        invariant Valid() && vol == v
        invariant forall j :: 0 <= j < k ==> IsDot(listed[j].name)
      {
        if !IsDot(listed[k].name) {
          return Err(NotEmpty);
        }
      }
      AllDots(v, ino);
      var removed :- RemoveDirEntry(parentIno, name);
      ghost var v1 := vol;
      RemovedNode(v, v1, lo, parentIno, name);
      OthersTable(v, v1, parentIno);
      Discard(ino, inode);
      ghost var v2 := vol;
      var attr := GetAttr(parentIno);
      if attr.Err? {
        RemovedSelf(v, v1, v2, ino, parentIno);
        OthersTrans(v, v1, v2, parentIno);
        AlignedSteps(v, v1, v2, parentIno, ino);
        return Err(attr.error);
      }
      var now := Now();
      var parent := attr.value.(nlink := SaturatingDecrement(attr.value.nlink), mtime := now, ctime := now);
      var stored := WriteInode(parentIno, parent);
      RmdirFinished(v, v1, v2, vol, lo, parentIno, name, ino, parent);
      r := Sync();
    }

    method Rename(parentIno: nat, name: Name, newParentIno: nat, newName: Name) returns (r: Result<()>, ghost mid: Vol)
      requires Valid() && Safe(vol, geo.dataStart)
      modifies store, bitmap, this`vol, this`saved
      ensures Valid() && Safe(vol, geo.dataStart)
      ensures r.Ok? ==> RenameDone(old(vol), mid, vol, geo.dataStart, parentIno, name, newParentIno, newName)
      ensures r.Ok? && LookupName(old(vol), newParentIno, newName) != LookupName(old(vol), parentIno, name) ==>
        Durable()
      ensures r.Err? ==> Spared(old(vol), vol, Involved(old(vol), parentIno, name, newParentIno, newName))
      ensures r.Err? ==> RenameRefused(old(vol), mid, vol, geo.dataStart, parentIno, name, newParentIno, newName,
        r.error)
      ensures Safe(mid, geo.dataStart)
      ensures r.Ok? ==> saved == vol || (vol == old(vol) && saved == old(saved))
      ensures r.Err? ==> (mid == old(vol) && saved == old(saved)) || saved == mid
    {
      hide Valid, Safe, LookupName, Utf8, T, Page, Durable, RmdirDone, UnlinkDone, Exact, Spared, Carried,
          BlockStore.Valid, OnImages, MoveStopped, RmdirResult, UnlinkResult, RmdirLeft;
      ghost var v, lo := vol, geo.dataStart;
      mid := vol;
      ghost var scope := Involved(v, parentIno, name, newParentIno, newName);
      SparedRefl(v, scope);
      SparedRefl(v, {newParentIno});
      if parentIno == newParentIno && name == newName {
        return Ok(()), mid;
      }
      var found :- Lookup(parentIno, name);
      if found.None? {
        return Err(NotFound), mid;
      }
      var ino := found.value;
      var source :- GetAttr(ino);
      var target :- Lookup(newParentIno, newName);
      if target.Some? {
        if target.value == ino {
          return Ok(()), mid;
        }
        var attr :- GetAttr(target.value);
        if source.IsDir() && !attr.IsDir() {
          return Err(NotDir), mid;
        }
        if !source.IsDir() && attr.IsDir() {
          return Err(IsDir), mid;
        }
        var gone: Result<()>;
        if source.IsDir() {
          gone := Rmdir(newParentIno, newName);
        } else {
          gone := Unlink(newParentIno, newName);
        }
        if gone.Err? {
          SparedMore(v, vol, {newParentIno}, scope);
          return gone, mid;
        }
      }
      mid := vol;
      SourceStays(v, mid, lo, parentIno, name, newParentIno, newName, ino);
      r := MoveEntry(parentIno, name, newParentIno, newName, ino, source);
      if r.Err? {
        SparedTrans(v, mid, vol, scope, {ino, parentIno, newParentIno});
        SparedMore(v, vol, scope + {ino, parentIno, newParentIno}, scope);
      }
    }

    /** The second half of `Rename`: enter the new name, take out the old one, and turn a moved
        directory's `..` and link. */
    method MoveEntry(parentIno: nat, name: Name, newParentIno: nat, newName: Name, ino: nat,
        source: Inode) returns (r: Result<()>)
      requires Valid() && Safe(vol, geo.dataStart)
      requires 0 < ino <= geo.inodeCount && vol.table[ino].Live() && source.IsDir() == vol.table[ino].IsDir()
      requires OlderPointers(source, vol.table[ino])
      modifies store, bitmap, this`vol, this`saved
      ensures Valid() && Safe(vol, geo.dataStart)
      ensures r.Ok? ==> Durable() && Carried(old(vol), vol, geo.dataStart, parentIno, name, newParentIno, newName, ino)
      ensures r.Err? ==> Spared(old(vol), vol, {ino, parentIno, newParentIno})
      ensures r.Err? ==>
        MoveStopped(old(vol), vol, geo.dataStart, parentIno, name, newParentIno, newName, ino, source, r.error)
      ensures saved == if r.Ok? then vol else old(saved)
    {
      hide Valid, Safe, Utf8, T, Page, Durable, Exact, Spared, Carried, DirAdded, DirRemoved, DirRedirected, Kept,
          EntryLeft, OlderPointers, AddResult, RemoveResult, TurnResult, BlockStore.Valid, OnImages;
      ghost var v, lo := vol, geo.dataStart;
      var fileType := if source.IsDir() then FILE_TYPE_DIR else FILE_TYPE_FILE;
      var added := AddDirEntry(newParentIno, ino, newName, fileType);
      if added.Err? {
        LeftUnseen(v, vol, lo, newParentIno, newName, added.error);
        SparedUnseen(v, vol, lo, {ino, parentIno, newParentIno});
        UnseenSafe(v, vol, lo);
        return added;
      }
      ghost var v2 := vol;
      AddedNode(v, v2, lo, newParentIno, ino, newName, fileType);
      SparedOthers(v, v2, newParentIno, {ino, parentIno, newParentIno});
      var removed := RemoveDirEntry(parentIno, name);
      if removed.Err? {
        assert StoppedAfter(v2, vol, lo, parentIno, name, newParentIno, ino, source, removed.error);
        return removed;
      }
      ghost var v3 := vol;
      DirStays(v, v2, newParentIno, parentIno);
      EntryMoved(v, v2, v3, lo, parentIno, name, newParentIno, newName, ino, fileType);
      KeptLength(v, v3, {parentIno, newParentIno});
      if source.IsDir() && parentIno != newParentIno {
        SourceOlder(source, v, v3, parentIno, newParentIno, ino);
        ghost var v4, n5, n6;
        r, v4, n5, n6 := TurnLink(parentIno, newParentIno, ino, source);
        if r.Err? {
          MoveSpared(v, v3, parentIno, newParentIno, ino);
          assert StoppedAfter(v2, vol, lo, parentIno, name, newParentIno, ino, source, r.error);
          return;
        }
        CarriedTurned(v, v2, v3, v4, v4.(table := v4.table[parentIno := n5]), vol, lo, parentIno, name, newParentIno,
            newName, ino, n5, n6);
      } else {
        CarriedPlain(v, v2, v3, lo, parentIno, name, newParentIno, newName, ino);
      }
      r := Sync();
    }

    /** The end of `MoveEntry` for a directory that changes parents. */
    method TurnLink(parentIno: nat, newParentIno: nat, ino: nat, directory: Inode)
      returns (r: Result<()>, ghost turned: Vol, ghost left: Inode, ghost joined: Inode)
      requires Valid() && Safe(vol, geo.dataStart) && 0 < ino <= geo.inodeCount
      requires 0 < parentIno && 0 < newParentIno && parentIno != newParentIno
      requires DirInode(vol, ino) && DirInode(vol, parentIno) && DirInode(vol, newParentIno)
      requires OlderPointers(directory, vol.table[ino])
      modifies store, bitmap, this`vol
      ensures Valid()
      ensures r.Err? ==> vol == old(vol)
      ensures r == TurnResult(old(vol), directory, ino, newParentIno)
      ensures r.Ok? ==>
        && DirRedirected(old(vol), turned, geo.dataStart, ino, DOTDOT, newParentIno)
        && parentIno < |turned.table| && newParentIno < |turned.table|
        && SameButTimes(turned.table[parentIno].(nlink := SaturatingDecrement(turned.table[parentIno].nlink)), left)
        && SameButTimes(turned.table[newParentIno].(nlink := Increment(turned.table[newParentIno].nlink)), joined)
        && vol == turned.(table := turned.table[parentIno := left][newParentIno := joined])
        && left.Stamped() && joined.Stamped()
    {
      hide Valid, Safe, Utf8, T, Page, DirRedirected, OlderPointers, TurnFrom, BlockStore.Valid, OnImages;
      ghost var v, lo := vol, geo.dataStart;
      turned, left, joined := vol, directory, directory;
      r := UpdateDotdot(ino, directory, newParentIno);
      if r.Err? {
        return;
      }
      turned := vol;
      RedirectedTable(v, turned, lo, ino, newParentIno);
      var timestamp := Now();
      var attr := GetAttr(parentIno);
      var oldParent := attr.value.(nlink := SaturatingDecrement(attr.value.nlink), mtime := timestamp,
          ctime := timestamp);
      left := oldParent;
      r := WriteInode(parentIno, oldParent);
      attr := GetAttr(newParentIno);
      var newParent := attr.value.(nlink := Increment(attr.value.nlink), mtime := timestamp, ctime := timestamp);
      joined := newParent;
      r := WriteInode(newParentIno, newParent);
    }
  }

  /** Block `b` of the bitmap is the first that the images do not give, and `e` is why. */
  ghost predicate FirstUnread(g: Geometry, p: Primitives, keys: Option<StoreKeys>, carriers: seq<CarrierSlot>,
      e: FsError)
    requires p.Lawful() && forall slot :: slot in carriers ==> slot.file.WellFormed()
  {
    exists b: nat {:trigger MediaBlock(p, keys, carriers, b)} ::
      && g.bitmapStart <= b < g.inodeTableStart && MediaBlock(p, keys, carriers, b) == Err(e)
      && forall c: nat {:trigger MediaBlock(p, keys, carriers, c)} :: g.bitmapStart <= c < b ==>
        MediaBlock(p, keys, carriers, c).Ok?
  }

  /** The images give every block of the bitmap. */
  ghost predicate BitmapRead(g: Geometry, p: Primitives, keys: Option<StoreKeys>, carriers: seq<CarrierSlot>)
    requires p.Lawful() && forall slot :: slot in carriers ==> slot.file.WellFormed()
  {
    forall b: nat {:trigger MediaBlock(p, keys, carriers, b)} :: g.bitmapStart <= b < g.inodeTableStart ==>
      MediaBlock(p, keys, carriers, b).Ok?
  }

  lemma ReadNotBlank(g: Geometry, p: Primitives, keys: Option<StoreKeys>, carriers: seq<CarrierSlot>)
    requires p.Lawful() && (forall slot :: slot in carriers ==> slot.file.WellFormed())
    requires BitmapRead(g, p, keys, carriers)
    ensures !BitmapHit(g, MediaBlank(p, keys, carriers, g.total))
  {
    hide MediaBlock;
  }

  /** A filesystem opened on images that hold `contents`. */
  ghost predicate Opened(fs: AlbumFs, contents: seq<Block>)
    reads fs, fs.store
    requires fs.geo.Sound() && |contents| == fs.geo.total
  {
    && fs.store.Contents == contents
    && Recorded(fs.geo, contents, fs.vol.used) && fs.vol == VolumeOf(fs.geo, contents, fs.vol.used, fs.vol.owner)
    && forall owner {:trigger VolumeOf(fs.geo, contents, fs.vol.used, owner)} ::
      Safe(VolumeOf(fs.geo, contents, fs.vol.used, owner), fs.geo.dataStart) ==> Safe(fs.vol, fs.geo.dataStart)
  }

  /** `n` with its three times set to the same moment. */
  predicate Stamped(n: Inode, n': Inode) {
    n' == n.(atime := n'.atime, mtime := n'.atime, ctime := n'.atime)
  }

  /** The first free inode has become an empty file with the permission bits of `mode`. */
  ghost predicate NewFile(v: Vol, v': Vol, c: nat, mode: u32) {
    && 0 < c < |v.table| == |v'.table| && (forall j :: 0 < j < c ==> v.table[j].Live())
    && Stamped(FREE_INODE.(mode := 0x8000 + mode % 0x1000, nlink := 1), v'.table[c])
  }

  /** The first free inode has become a directory of one block with the permission bits of `mode`. */
  ghost predicate NewDirectory(v: Vol, v': Vol, c: nat, mode: u32) {
    && 0 < c < |v.table| == |v'.table| && (forall j :: 0 < j < c ==> v.table[j].Live())
    && var n := v'.table[c];
    && Stamped(FREE_INODE.(mode := 0x4000 + mode % 0x1000, nlink := 2, size := 4032, blockCount := 1,
      direct := NO_POINTERS[0 := n.direct[0]]), n)
  }

  /** A live directory. */
  predicate IsDirectory(g: Geometry, v: Vol, ino: nat) {
    0 < ino <= g.inodeCount && ino < |v.table| && v.table[ino].Live() && v.table[ino].IsDir()
  }
}
