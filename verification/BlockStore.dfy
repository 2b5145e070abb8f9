/** The block array, kept on carriers that are loaded when first used and written back when
    flushed. */
module BlockStores {
  import opened Bytes
  import opened Layout
  import opened Wrappers
  import opened Primitives
  import opened PhysicalBlocks
  import opened Manifests
  import opened Chunks

  /** A carrier: its range of blocks, the bytes loaded from it, whether they have been changed
      since, and the image itself. */
  datatype CarrierSlot = CarrierSlot(range: CarrierRange, isPrimary: bool, buffer: Option<seq<byte>>, dirty: bool,
      file: Medium)

  function Ranges(carriers: seq<CarrierSlot>): (r: seq<CarrierRange>)
    ensures |r| == |carriers|
    ensures forall i {:trigger r[i]} {:trigger carriers[i]} :: 0 <= i < |r| ==> r[i] == carriers[i].range
  {
    seq(|carriers|, i requires 0 <= i < |carriers| => carriers[i].range)
  }

  function Size(r: CarrierRange): nat {
    r.blockCount * 4096
  }

  function WriteMode(keys: Option<StoreKeys>, slot: CarrierSlot): ChunkWrite {
    if keys.Some? then MarkerlessWrite(slot.range.chunkIndex)
    else FramedWrite(ChunkMeta(slot.range.chunkIndex, if slot.isPrimary then 1 else 0))
  }

  function ReadMode(keys: Option<StoreKeys>, slot: CarrierSlot): ChunkRead {
    if keys.Some? then MarkerlessRead(slot.range.chunkIndex, Size(slot.range)) else FramedRead
  }

  function OrderKey(keys: Option<StoreKeys>): seq<byte> {
    match keys
    case Some(k) => k.order
    case None => []
  }

  /** The block numbers below `n`. */
  ghost function Below(n: nat): (s: set<nat>)
    ensures forall x: nat {:trigger x in s} :: x in s <==> x < n
    ensures |s| == n
  {
    if n == 0 then {} else Below(n - 1) + {n - 1}
  }

  lemma BelowNext(n: nat)
    ensures Below(n) + {n} == Below(n + 1)
  {
  }

  /** The bytes the carrier's image holds for its range. */
  function OnFile(p: Primitives, keys: Option<StoreKeys>, slot: CarrierSlot): (r: Result<seq<byte>>)
    requires p.Lawful() && slot.file.WellFormed()
    ensures r.Ok? ==> |r.value| == Size(slot.range)
  {
    match ChunkIn(p, slot.file, ReadMode(keys, slot), OrderKey(keys))
    case Err(e) => Err(e)
    case Ok((meta, payload)) =>
      if meta.chunkIndex != slot.range.chunkIndex || |payload| != Size(slot.range) then Err(Manifest)
      else Ok(payload)
  }

  /** What an image has to hold to be read: a chunk under the carrier's index, of the carrier's size;
      in a plain store the header says both, in an encrypted one they are part of the question. */
  lemma ImageRead(p: Primitives, keys: Option<StoreKeys>, slot: CarrierSlot, bytes: seq<byte>)
    requires p.Lawful() && slot.file.WellFormed()
    ensures keys.None? ==>
      match ChunkIn(p, slot.file, FramedRead, [])
      case Err(e) => OnFile(p, keys, slot) == Err(e)
      case Ok((meta, payload)) =>
        OnFile(p, keys, slot) ==
          if meta.chunkIndex == slot.range.chunkIndex && |payload| == 4096 * slot.range.blockCount then Ok(payload)
          else Err(Manifest)
    ensures keys.Some? ==>
      match ChunkIn(p, slot.file, MarkerlessRead(slot.range.chunkIndex, 4096 * slot.range.blockCount), keys.value.order)
      case Err(e) => OnFile(p, keys, slot) == Err(e)
      case Ok((_, payload)) => OnFile(p, keys, slot) == Ok(payload)
  {
    hide Slots, Low;
  }

  /** The bytes the carrier stands for now: those loaded, or else those its image holds. */
  function Loaded(p: Primitives, keys: Option<StoreKeys>, slot: CarrierSlot): Result<seq<byte>>
    requires p.Lawful() && slot.file.WellFormed()
  {
    match slot.buffer
    case Some(bytes) => Ok(bytes)
    case None => OnFile(p, keys, slot)
  }

  /** The image has room for the carrier's range. */
  predicate Roomy(keys: Option<StoreKeys>, m: Medium, size: nat) {
    && m.WellFormed()
    && match keys
       case None => size <= 0xFFFF_FFFF && CHUNK_HEADER_LEN + size <= Capacity(m)
       case Some(k) => |k.order| == 32 && size <= Capacity(m)
  }

  /** An image, and a key for it of the right length. */
  predicate Usable(keys: Option<StoreKeys>, m: Medium) {
    m.WellFormed() && (keys.Some? ==> |keys.value.order| == 32)
  }

  /** A carrier's loaded bytes have the right size; they differ from the image's only if it is
      marked dirty. */
  ghost predicate SlotOk(p: Primitives, keys: Option<StoreKeys>, slot: CarrierSlot)
    requires p.Lawful()
  {
    && Usable(keys, slot.file)
    && (slot.dirty ==> slot.buffer.Some?)
    && (slot.buffer.Some? ==>
      && Roomy(keys, slot.file, Size(slot.range))
      && |slot.buffer.value| == Size(slot.range)
      && (!slot.dirty ==> OnFile(p, keys, slot) == Ok(slot.buffer.value)))
  }

  /** An image that can be read has room for what is read from it. */
  lemma ReadableRoomy(p: Primitives, keys: Option<StoreKeys>, slot: CarrierSlot)
    requires p.Lawful() && Usable(keys, slot.file) && OnFile(p, keys, slot).Ok?
    ensures Roomy(keys, slot.file, Size(slot.range))
  {
    hide Slots, Low, Capacity, OrderPositions;
    SlotsFit(slot.file);
  }

  /** The `k`-th physical block of a carrier's bytes. */
  function Sector(bytes: seq<byte>, k: nat): (s: seq<byte>)
    requires (k + 1) * 4096 <= |bytes|
    ensures |s| == PB
  {
    bytes[k * 4096..k * 4096 + 4096]
  }

  lemma SectorInside(r: CarrierRange, lba: nat)
    requires InCarrier(r, lba)
    ensures (lba - r.blockStart + 1) * 4096 <= Size(r)
  {
  }

  /** Block `lba` as the carrier's bytes give it. */
  function BlockIn(p: Primitives, keys: Option<StoreKeys>, r: CarrierRange, bytes: seq<byte>, lba: nat): Result<Block>
    requires InCarrier(r, lba) && |bytes| == Size(r)
  {
    SectorInside(r, lba);
    Decoded(p, keys, lba, Sector(bytes, lba - r.blockStart))
  }

  /** The carrier's bytes give the contents of all its blocks but the blank ones. */
  ghost predicate Gives(p: Primitives, keys: Option<StoreKeys>, r: CarrierRange, bytes: seq<byte>,
      contents: seq<Block>, blank: set<nat>)
    requires |bytes| == Size(r)
  {
    forall lba: nat {:trigger BlockIn(p, keys, r, bytes, lba)} ::
      InCarrier(r, lba) && lba !in blank ==> lba < |contents| && BlockIn(p, keys, r, bytes, lba) == Ok(contents[lba])
  }

  /** The carrier holds the contents of all its blocks but the blank ones; all are blank when it
      cannot be read. */
  ghost predicate Holds(p: Primitives, keys: Option<StoreKeys>, slot: CarrierSlot, contents: seq<Block>,
      blank: set<nat>)
    requires p.Lawful()
  {
    && SlotOk(p, keys, slot)
    && match Loaded(p, keys, slot)
       case Ok(bytes) => Gives(p, keys, slot.range, bytes, contents, blank)
       case Err(_) => forall lba: nat {:trigger lba in blank} :: InCarrier(slot.range, lba) ==> lba in blank
  }

  /** The blocks of a carrier are lost exactly when it cannot be read. */
  ghost predicate Loses(p: Primitives, keys: Option<StoreKeys>, slot: CarrierSlot, lost: set<nat>)
    requires p.Lawful()
  {
    && slot.file.WellFormed()
    && forall lba: nat {:trigger lba in lost} :: InCarrier(slot.range, lba) ==>
      (lba in lost <==> Loaded(p, keys, slot).Err?)
  }

  /** Block `lba` as the carrier gives it. */
  function StoredIn(p: Primitives, keys: Option<StoreKeys>, slot: CarrierSlot, lba: nat): Result<Block>
    requires p.Lawful() && slot.file.WellFormed() && InCarrier(slot.range, lba)
    requires slot.buffer.Some? ==> |slot.buffer.value| == Size(slot.range)
  {
    match Loaded(p, keys, slot)
    case Err(e) => Err(e)
    case Ok(bytes) => BlockIn(p, keys, slot.range, bytes, lba)
  }

  /** Every carrier holds its part of the contents, and loses its part of what is lost. */
  ghost predicate AllHold(p: Primitives, keys: Option<StoreKeys>, carriers: seq<CarrierSlot>, contents: seq<Block>,
      blank: set<nat>, lost: set<nat>)
    requires p.Lawful()
  {
    forall i {:trigger carriers[i]} :: 0 <= i < |carriers| ==>
      Holds(p, keys, carriers[i], contents, blank) && Loses(p, keys, carriers[i], lost)
  }

  /** Block `lba` as the carrier it lies in gives it. */
  function GivenBy(p: Primitives, keys: Option<StoreKeys>, carriers: seq<CarrierSlot>, lba: nat): Result<Block>
    requires p.Lawful() && forall i {:trigger carriers[i]} :: 0 <= i < |carriers| ==> SlotOk(p, keys, carriers[i])
  {
    var i := Find(Ranges(carriers), lba);
    if i >= |carriers| then Err(BadBlock(lba))
    else
      assert SlotOk(p, keys, carriers[i]);
      StoredIn(p, keys, carriers[i], lba)
  }

  /** In a plain store, reading a block ends with a checksum error exactly when bytes 40 to 43 of the
      block, as they stand in the bytes of its carrier, are not the checksum of its bytes from 64 on. */
  lemma ChecksumError(p: Primitives, slot: CarrierSlot, lba: nat, bytes: seq<byte>)
    requires p.Lawful() && slot.file.WellFormed() && InCarrier(slot.range, lba)
    requires |bytes| == Size(slot.range) && (slot.buffer.Some? ==> |slot.buffer.value| == |bytes|)
    requires Loaded(p, None, slot) == Ok(bytes)
    ensures var at := (lba - slot.range.blockStart) * 4096;
            && 0 <= at && at + 4096 <= |bytes|
            && var blk := bytes[at..at + 4096];
            StoredIn(p, None, slot, lba) ==
              if blk[40..44] != ToLe(p.crc32(blk[64..4096]), 4) then Err(BlockCrc(lba)) else Ok(blk[64..4096])
  {
    hide OnFile, FromLe, ToLe, Loaded;
    SectorInside(slot.range, lba);
    var at := (lba - slot.range.blockStart) * 4096;
    var blk := bytes[at..at + 4096];
    FieldIs(blk[40..44], p.crc32(blk[64..4096]));
  }

  lemma AllOk(p: Primitives, keys: Option<StoreKeys>, carriers: seq<CarrierSlot>, contents: seq<Block>, blank: set<nat>,
      lost: set<nat>)
    requires p.Lawful() && AllHold(p, keys, carriers, contents, blank, lost)
    ensures forall i {:trigger carriers[i]} :: 0 <= i < |carriers| ==> SlotOk(p, keys, carriers[i])
  {
    hide SlotOk, Loaded, Gives;
    forall i | 0 <= i < |carriers|
      ensures SlotOk(p, keys, carriers[i])
    {
      assert Holds(p, keys, carriers[i], contents, blank);
    }
  }

  /** Loading a carrier changes nothing. */
  lemma LoadHolds(p: Primitives, keys: Option<StoreKeys>, carriers: seq<CarrierSlot>, i: nat, bytes: seq<byte>,
      contents: seq<Block>, blank: set<nat>, lost: set<nat>)
    requires p.Lawful() && AllHold(p, keys, carriers, contents, blank, lost) && i < |carriers|
    requires carriers[i].buffer.None? && carriers[i].file.WellFormed() && OnFile(p, keys, carriers[i]) == Ok(bytes)
    ensures var carriers' := carriers[i := carriers[i].(buffer := Some(bytes))];
            && AllHold(p, keys, carriers', contents, blank, lost) && Ranges(carriers') == Ranges(carriers)
  {
    hide OnFile, Gives, Roomy;
    var carriers' := carriers[i := carriers[i].(buffer := Some(bytes))];
    assert Ranges(carriers') == Ranges(carriers);
    assert Holds(p, keys, carriers[i], contents, blank) && Loses(p, keys, carriers[i], lost);
    assert !carriers[i].dirty;
    ReadableRoomy(p, keys, carriers[i]);
    assert OnFile(p, keys, carriers'[i]) == OnFile(p, keys, carriers[i]) by {
      SameFile(p, keys, carriers[i], bytes);
    }
    forall j | 0 <= j < |carriers'|
      ensures Holds(p, keys, carriers'[j], contents, blank) && Loses(p, keys, carriers'[j], lost)
    {
      assert Holds(p, keys, carriers[j], contents, blank) && Loses(p, keys, carriers[j], lost);
    }
  }

  /** What an image holds does not depend on what has been loaded from it. */
  lemma SameFile(p: Primitives, keys: Option<StoreKeys>, slot: CarrierSlot, bytes: seq<byte>)
    requires p.Lawful() && slot.file.WellFormed()
    ensures OnFile(p, keys, slot.(buffer := Some(bytes))) == OnFile(p, keys, slot)
  {
  }

  lemma LoadGives(p: Primitives, keys: Option<StoreKeys>, carriers: seq<CarrierSlot>, i: nat, bytes: seq<byte>,
      lba: nat)
    requires p.Lawful() && i < |carriers| && carriers[i].buffer.None? && carriers[i].file.WellFormed()
    requires OnFile(p, keys, carriers[i]) == Ok(bytes)
    requires forall j {:trigger carriers[j]} :: 0 <= j < |carriers| ==> SlotOk(p, keys, carriers[j])
    requires var carriers' := carriers[i := carriers[i].(buffer := Some(bytes))];
             forall j {:trigger carriers'[j]} :: 0 <= j < |carriers'| ==> SlotOk(p, keys, carriers'[j])
    ensures GivenBy(p, keys, carriers[i := carriers[i].(buffer := Some(bytes))], lba) == GivenBy(p, keys, carriers, lba)
  {
    hide OnFile, BlockIn, Roomy, Find;
    assert Ranges(carriers[i := carriers[i].(buffer := Some(bytes))]) == Ranges(carriers);
  }

  /** Overwriting one block of a carrier's bytes. */
  lemma SectorWritten(p: Primitives, keys: Option<StoreKeys>, r: CarrierRange, bytes: seq<byte>,
      contents: seq<Block>, blank: set<nat>, lba: nat, blk: seq<byte>, b: Block)
    requires |bytes| == Size(r) && Gives(p, keys, r, bytes, contents, blank) && InCarrier(r, lba) && lba < |contents|
    requires |blk| == PB && Decoded(p, keys, lba, blk) == Ok(b)
    ensures (lba - r.blockStart + 1) * 4096 <= |bytes|
    ensures var bytes' := Patch(bytes, (lba - r.blockStart) * 4096, blk);
            |bytes'| == Size(r) && Gives(p, keys, r, bytes', contents[lba := b], blank - {lba})
  {
    hide Decoded;
    SectorInside(r, lba);
    var at := (lba - r.blockStart) * 4096;
    var bytes' := Patch(bytes, at, blk);
    forall x: nat | InCarrier(r, x) && x !in blank - {lba}
      ensures x < |contents| && BlockIn(p, keys, r, bytes', x) == Ok(contents[lba := b][x])
    {
      SectorInside(r, x);
      var k := x - r.blockStart;
      if x == lba {
        assert Sector(bytes', k) == blk;
      } else {
        PatchElsewhere(bytes, at, blk, k * 4096, k * 4096 + 4096);
        assert Sector(bytes', k) == Sector(bytes, k);
        var here := BlockIn(p, keys, r, bytes, x);
      }
    }
  }

  /** A block of another carrier may change. */
  lemma GivesElsewhere(p: Primitives, keys: Option<StoreKeys>, r: CarrierRange, bytes: seq<byte>,
      contents: seq<Block>, blank: set<nat>, lba: nat, b: Block)
    requires |bytes| == Size(r) && Gives(p, keys, r, bytes, contents, blank) && !InCarrier(r, lba) && lba < |contents|
    ensures Gives(p, keys, r, bytes, contents[lba := b], blank - {lba})
  {
    hide BlockIn;
    forall x: nat | InCarrier(r, x) && x !in blank - {lba}
      ensures x < |contents| && BlockIn(p, keys, r, bytes, x) == Ok(contents[lba := b][x])
    {
      var here := BlockIn(p, keys, r, bytes, x);
    }
  }

  /** What a clean carrier's image holds. */
  lemma {:induction false} CleanSlot(p: Primitives, keys: Option<StoreKeys>, slot: CarrierSlot,
      contents: seq<Block>, blank: set<nat>, lba: nat)
    requires p.Lawful() && Holds(p, keys, slot, contents, blank) && !slot.dirty && InCarrier(slot.range, lba)
    requires lba !in blank
    ensures slot.file.WellFormed() && OnFile(p, keys, slot).Ok?
    ensures lba < |contents| && BlockIn(p, keys, slot.range, OnFile(p, keys, slot).value, lba) == Ok(contents[lba])
  {
    hide OnFile, BlockIn;
    var here := BlockIn(p, keys, slot.range, OnFile(p, keys, slot).value, lba);
  }

  /** The other carriers hold what they held when a block of one changes. */
  lemma {:induction false} OthersHold(p: Primitives, keys: Option<StoreKeys>, carriers: seq<CarrierSlot>, i: nat,
      contents: seq<Block>, blank: set<nat>, lba: nat, b: Block, j: nat)
    requires p.Lawful() && i < |carriers| && j < |carriers| && i != j && lba < |contents|
    requires Contiguous(Ranges(carriers)) && InCarrier(carriers[i].range, lba)
    requires Holds(p, keys, carriers[j], contents, blank)
    ensures Holds(p, keys, carriers[j], contents[lba := b], blank - {lba})
  {
    hide SlotOk, Gives, Roomy, OnFile;
    OneCarrierEach(Ranges(carriers), lba);
    assert InCarrier(Ranges(carriers)[i], lba) && !InCarrier(Ranges(carriers)[j], lba);
    SlotFacts(p, keys, carriers[j]);
    if Loaded(p, keys, carriers[j]).Ok? {
      GivesElsewhere(p, keys, carriers[j].range, Loaded(p, keys, carriers[j]).value, contents, blank, lba, b);
    }
  }

  lemma {:induction false} SlotFacts(p: Primitives, keys: Option<StoreKeys>, slot: CarrierSlot)
    requires p.Lawful() && SlotOk(p, keys, slot)
    ensures slot.file.WellFormed() && (Loaded(p, keys, slot).Ok? ==> |Loaded(p, keys, slot).value| == Size(slot.range))
  {
    hide OnFile;
  }

  /** The carrier whose bytes were overwritten holds the new contents. */
  lemma {:induction false} WrittenHolds(p: Primitives, keys: Option<StoreKeys>, slot: CarrierSlot,
      contents: seq<Block>, blank: set<nat>, lba: nat, blk: seq<byte>, b: Block)
    requires p.Lawful() && Holds(p, keys, slot, contents, blank) && slot.buffer.Some? && InCarrier(slot.range, lba)
    requires lba < |contents|
    requires |blk| == PB && Decoded(p, keys, lba, blk) == Ok(b)
    ensures (lba - slot.range.blockStart) * 4096 + 4096 <= |slot.buffer.value|
    ensures Holds(p, keys, slot.(buffer := Some(Patch(slot.buffer.value, (lba - slot.range.blockStart) * 4096, blk)),
      dirty := true), contents[lba := b], blank - {lba})
  {
    hide Gives, OnFile, Decoded, Patch;
    SectorInside(slot.range, lba);
    SectorWritten(p, keys, slot.range, slot.buffer.value, contents, blank, lba, blk, b);
  }

  /** Writing a carrier's bytes to its image makes the image hold them, and leaves as much room
      as before. */
  lemma Flushes(p: Primitives, keys: Option<StoreKeys>, slot: CarrierSlot, file: Medium)
    requires p.Lawful() && slot.buffer.Some? && |slot.buffer.value| == Size(slot.range)
    requires Roomy(keys, slot.file, Size(slot.range))
    requires Rewritten(slot.file, file, Chosen(p, Slots(slot.file), WriteMode(keys, slot), OrderKey(keys)),
      ChunkBytes(p, WriteMode(keys, slot), slot.buffer.value))
    ensures SlotOk(p, keys, slot.(file := file, dirty := false))
  {
    hide Slots, Low, ChunkIn, Chosen, ChunkBytes;
    ChunkRoundTrip(p, slot.file, file, WriteMode(keys, slot), slot.buffer.value, OrderKey(keys));
    SameRoom(slot.file, file, Chosen(p, Slots(slot.file), WriteMode(keys, slot), OrderKey(keys)),
        ChunkBytes(p, WriteMode(keys, slot), slot.buffer.value));
  }

  /** The image of a carrier reads back as what the carrier holds, under the carrier's chunk index;
      in a plain store with flags 1 if the carrier is the primary one and 0 if it is not. */
  ghost predicate Imprinted(p: Primitives, keys: Option<StoreKeys>, slot: CarrierSlot)
    requires p.Lawful()
  {
    && slot.file.WellFormed() && slot.buffer.Some?
    && match keys
       case None =>
         var meta := ChunkMeta(slot.range.chunkIndex, if slot.isPrimary then 1 else 0);
         ChunkIn(p, slot.file, FramedRead, []) == Ok((meta, slot.buffer.value))
       case Some(k) =>
         ChunkIn(p, slot.file, MarkerlessRead(slot.range.chunkIndex, |slot.buffer.value|), k.order) ==
           Ok((ChunkMeta(slot.range.chunkIndex, 0), slot.buffer.value))
  }

  /** What flushing makes of a carrier: a clean one stays as it is, of a dirty one the image now
      holds the bytes. */
  ghost predicate WrittenBack(p: Primitives, keys: Option<StoreKeys>, slot: CarrierSlot, slot': CarrierSlot)
    requires p.Lawful()
  {
    && slot' == slot.(file := slot'.file, dirty := false)
    && if slot.dirty then Imprinted(p, keys, slot') else slot'.file == slot.file
  }

  lemma Imprints(p: Primitives, keys: Option<StoreKeys>, slot: CarrierSlot, file: Medium)
    requires p.Lawful() && slot.buffer.Some? && |slot.buffer.value| == Size(slot.range) && slot.dirty
    requires Roomy(keys, slot.file, Size(slot.range))
    requires Rewritten(slot.file, file, Chosen(p, Slots(slot.file), WriteMode(keys, slot), OrderKey(keys)),
      ChunkBytes(p, WriteMode(keys, slot), slot.buffer.value))
    ensures WrittenBack(p, keys, slot, slot.(file := file, dirty := false))
  {
    hide Slots, Low, ChunkIn, Chosen, ChunkBytes;
    ChunkRoundTrip(p, slot.file, file, WriteMode(keys, slot), slot.buffer.value, OrderKey(keys));
  }

  lemma SameRoom(m: Medium, m': Medium, positions: seq<nat>, bytes: seq<byte>)
    requires m.WellFormed() && Rewritten(m, m', positions, bytes)
    ensures m'.WellFormed() && Capacity(m') == Capacity(m)
  {
    hide Slots, Low;
  }

  /** Carriers of which nothing has been loaded. */
  function Unloaded(files: seq<Medium>, primary: seq<bool>, manifest: seq<CarrierRange>): (carriers: seq<CarrierSlot>)
    requires |files| == |manifest| == |primary|
    ensures Ranges(carriers) == manifest && |carriers| == |files|
    ensures forall i :: 0 <= i < |carriers| ==>
      carriers[i] == CarrierSlot(manifest[i], primary[i], None, false, files[i])
  {
    var carriers := seq(|manifest|, i requires 0 <= i < |manifest| && |files| == |manifest| == |primary| =>
      CarrierSlot(manifest[i], primary[i], None, false, files[i]));
    assert Ranges(carriers) == manifest;
    carriers
  }

  /** The images of the carriers. */
  function Images(carriers: seq<CarrierSlot>): (files: seq<Medium>)
    ensures |files| == |carriers| && forall i :: 0 <= i < |files| ==> files[i] == carriers[i].file
  {
    seq(|carriers|, i requires 0 <= i < |carriers| => carriers[i].file)
  }

  function Primaries(carriers: seq<CarrierSlot>): (r: seq<bool>)
    ensures |r| == |carriers| && forall i :: 0 <= i < |r| ==> r[i] == carriers[i].isPrimary
  {
    seq(|carriers|, i requires 0 <= i < |carriers| => carriers[i].isPrimary)
  }

  /** The carriers with every buffer dropped. */
  function Dropped(carriers: seq<CarrierSlot>): (r: seq<CarrierSlot>)
    ensures |r| == |carriers| && Ranges(r) == Ranges(carriers)
    ensures forall i :: 0 <= i < |r| ==> r[i] == carriers[i].(buffer := None, dirty := false)
  {
    var r := Unloaded(Images(carriers), Primaries(carriers), Ranges(carriers));
    assert Ranges(r) == Ranges(carriers);
    r
  }

  lemma DroppedUpdate(carriers: seq<CarrierSlot>, i: nat, slot: CarrierSlot)
    requires i < |carriers| && slot.(buffer := None, dirty := false) == carriers[i].(buffer := None, dirty := false)
    ensures Dropped(carriers[i := slot]) == Dropped(carriers)
  {
    assert Dropped(carriers[i := slot]) == Dropped(carriers);
  }

  ghost predicate AllDirty(carriers: seq<CarrierSlot>) {
    forall i {:trigger carriers[i]} :: 0 <= i < |carriers| ==> carriers[i].dirty
  }

  lemma DirtyUpdate(carriers: seq<CarrierSlot>, i: nat, slot: CarrierSlot)
    requires i < |carriers| && slot.dirty
    ensures AllDirty(carriers) ==> AllDirty(carriers[i := slot])
  {
  }

  class BlockStore {
    const total: nat
    const p: Primitives
    const keys: Option<StoreKeys>
    var carriers: seq<CarrierSlot>
    /** The payloads, and the blocks that have none: never written, or not decodable. */
    ghost var Contents: seq<Block>
    ghost var Blank: set<nat>
    /** The blocks on carriers that cannot be read. */
    ghost const Lost: set<nat>

    ghost predicate Valid()
      reads this
      ensures Valid() ==> |Contents| == total && Lost <= Blank
    {
      && p.Lawful()
      && |Contents| == total && Lost <= Blank
      && Contiguous(Ranges(carriers)) && End(Ranges(carriers), |carriers|) == total
      && AllHold(p, keys, carriers, Contents, Blank, Lost)
    }

    /** Block `lba` as its carrier gives it: a payload, or the error that reading it ends with. */
    ghost function Stored(lba: nat): Result<Block>
      requires Valid()
      reads this
    {
      AllOk(p, keys, carriers, Contents, Blank, Lost);
      GivenBy(p, keys, carriers, lba)
    }

    /** What is left when the program ends: the carriers with nothing loaded from their images. */
    function Remains(): seq<CarrierSlot>
      reads this
    {
      Dropped(carriers)
    }

    /** No carrier has changes that its image lacks. */
    ghost predicate Flushed()
      reads this
    {
      forall i {:trigger carriers[i]} :: 0 <= i < |carriers| ==> !carriers[i].dirty
    }

    /** Every carrier has changes that its image lacks. */
    ghost predicate Unsaved()
      reads this
    {
      AllDirty(carriers)
    }

    /** A store to be formatted: no block has a payload yet, all images are to be written, and the
        one of chunk 0 is the primary one. */
    constructor NewForFormat(p: Primitives, keys: Option<StoreKeys>, files: seq<Medium>, manifest: seq<CarrierRange>)
      requires p.Lawful() && |files| == |manifest| && Contiguous(manifest)
      requires forall i :: 0 <= i < |manifest| ==> Roomy(keys, files[i], Size(manifest[i]))
      ensures Valid() && total == End(manifest, |manifest|) && this.p == p && this.keys == keys
      ensures Blank == Below(total) && Lost == {}
      ensures |carriers| == |files| && Ranges(carriers) == manifest && Unsaved()
      ensures forall i :: 0 <= i < |files| ==>
        carriers[i].file == files[i] && (carriers[i].isPrimary <==> manifest[i].chunkIndex == 0)
    {
      this.total := End(manifest, |manifest|);
      this.p, this.keys := p, keys;
      carriers := seq(|manifest|, i requires 0 <= i < |manifest| && |files| == |manifest| =>
        CarrierSlot(manifest[i], manifest[i].chunkIndex == 0, Some(Zeros(Size(manifest[i]))), true, files[i]));
      Contents := seq(End(manifest, |manifest|), _ => ZERO_BLOCK);
      Blank, Lost := Below(End(manifest, |manifest|)), {};
      new;
      assert Ranges(carriers) == manifest;
      forall i | 0 <= i < |carriers|
        ensures Holds(p, keys, carriers[i], Contents, Blank) && Loses(p, keys, carriers[i], Lost)
      {
        forall lba: nat | InCarrier(manifest[i], lba)
          ensures lba in Blank
        {
          OneCarrierEach(manifest, lba);
        }
      }
    }

    /** A store over carriers that have been formatted before: what their images hold.  Nothing is
        read yet, and an image that cannot be read is an error only when one of its blocks is. */
    constructor FromManifest(p: Primitives, keys: Option<StoreKeys>, files: seq<Medium>, primary: seq<bool>,
        manifest: seq<CarrierRange>)
      requires p.Lawful() && |files| == |manifest| == |primary| && Contiguous(manifest)
      requires forall i {:trigger files[i]} :: 0 <= i < |files| ==> Usable(keys, files[i])
      ensures Valid() && total == End(manifest, |manifest|) && this.p == p && this.keys == keys
      ensures carriers == Unloaded(files, primary, manifest) == Remains() && Ranges(carriers) == manifest
      ensures forall slot :: slot in carriers ==> slot.file.WellFormed()
      ensures Contents == MediaContents(p, keys, carriers, total) && Blank == MediaBlank(p, keys, carriers, total)
      ensures Lost == MediaLost(p, keys, carriers, total)
      ensures forall lba: nat {:trigger Stored(lba)} {:trigger MediaBlock(p, keys, carriers, lba)} ::
        Stored(lba) == MediaBlock(p, keys, carriers, lba)
    {
      hide Holds, Loses, OnFile, MediaContents, MediaBlank, MediaLost, Roomy;
      var slots := Unloaded(files, primary, manifest);
      UsableFiles(keys, slots);
      this.total := End(manifest, |manifest|);
      this.p, this.keys := p, keys;
      carriers := slots;
      Contents := MediaContents(p, keys, slots, End(manifest, |manifest|));
      Blank, Lost := MediaBlank(p, keys, slots, End(manifest, |manifest|)),
          MediaLost(p, keys, slots, End(manifest, |manifest|));
      new;
      assert Ranges(carriers) == manifest;
      assert Dropped(carriers) == carriers;
      LostIsBlank(p, keys, carriers, total);
      forall i | 0 <= i < |carriers|
        ensures Holds(p, keys, carriers[i], Contents, Blank) && Loses(p, keys, carriers[i], Lost)
      {
        GatheredHold(p, keys, carriers, i);
      }
      forall lba: nat
        ensures Stored(lba) == MediaBlock(p, keys, carriers, lba)
      {
        StoredOnMedia(this, lba);
      }
    }

    /** The carrier that holds a block. */
    method CarrierFor(lba: nat) returns (r: Result<nat>)
      requires Valid()
      ensures r == if lba >= total then Err(BadBlock(lba)) else Ok(Find(Ranges(carriers), lba))
      ensures r.Ok? ==> r.value < |carriers| && InCarrier(carriers[r.value].range, lba)
    {
      hide AllHold, Find;
      if lba >= total {
        return Err(BadBlock(lba));
      }
      OneCarrierEach(Ranges(carriers), lba);
      var i := 0;
      while i < |carriers|
        invariant i <= |carriers|
        invariant forall j :: 0 <= j < i ==> !InCarrier(Ranges(carriers)[j], lba)
      {
        if InCarrier(carriers[i].range, lba) {
          FirstFound(Ranges(carriers), lba, i);
          return Ok(i);
        }
        i := i + 1;
      }
      assert false;
      return Err(BadBlock(lba));
    }

    /** Load a carrier's bytes unless that has been done. */
    method EnsureLoaded(i: nat) returns (r: Result<()>)
      requires Valid() && i < |carriers| && carriers[i].file.WellFormed()
      modifies this`carriers
      ensures Valid() && Ranges(carriers) == old(Ranges(carriers))
      ensures match old(Loaded(p, keys, carriers[i]))
              case Ok(bytes) => r == Ok(()) && carriers == old(carriers)[i := old(carriers[i]).(buffer := Some(bytes))]
              case Err(e) => r == Err(e) && carriers == old(carriers)
      ensures Flushed() == old(Flushed()) && Unsaved() == old(Unsaved()) && Remains() == old(Remains())
      ensures forall lba: nat {:trigger Stored(lba)} :: Stored(lba) == old(Stored(lba))
    {
      hide ChunkIn, AllHold, SlotOk, StoredIn, Contiguous, GivenBy, Dropped;
      var slot := carriers[i];
      ghost var before := carriers;
      if slot.buffer.None? {
        var chunk :- ReadChunk(p, slot.file, ReadMode(keys, slot), OrderKey(keys));
        if chunk.0.chunkIndex != slot.range.chunkIndex || |chunk.1| != Size(slot.range) {
          return Err(FsError.Manifest);
        }
        carriers := carriers[i := slot.(buffer := Some(chunk.1))];
        DroppedUpdate(before, i, carriers[i]);
        LoadHolds(p, keys, before, i, chunk.1, Contents, Blank, Lost);
        AllOk(p, keys, before, Contents, Blank, Lost);
        AllOk(p, keys, carriers, Contents, Blank, Lost);
        forall lba: nat
          ensures GivenBy(p, keys, carriers, lba) == GivenBy(p, keys, before, lba)
        {
          LoadGives(p, keys, before, i, chunk.1, lba);
        }
      } else {
        assert carriers == before[i := slot.(buffer := Some(slot.buffer.value))];
      }
      return Ok(());
    }

    method ReadBlock(lba: nat) returns (r: Result<Block>)
      requires Valid()
      modifies this
      ensures Valid() && Contents == old(Contents) && Blank == old(Blank) && Flushed() == old(Flushed())
      ensures Unsaved() == old(Unsaved()) && Remains() == old(Remains())
      ensures forall x: nat {:trigger Stored(x)} :: Stored(x) == old(Stored(x))
      ensures r == Stored(lba)
      ensures lba < total && lba !in Blank ==> r == Ok(Contents[lba])
    {
      hide OnFile, Decoded, AllHold, Holds, BlockIn, Loses, Contiguous, BlockStore.Stored, StoredIn, Find,
          BlockStore.Remains;
      StoredPast(this, lba);
      var i :- CarrierFor(lba);
      StoredHere(this, lba, i);
      var loaded :- EnsureLoaded(i);
      StoredHere(this, lba, i);
      var slot := carriers[i];
      var offset := (lba - slot.range.blockStart) * 4096;
      r := Decoded(p, keys, lba, slot.buffer.value[offset..offset + 4096]);
    }

    /** Fresh random bytes. */
    method Nonce() returns (nonce: seq<byte>)
      ensures |nonce| == 24
    {
      nonce := *;
      if |nonce| != 24 {
        nonce := Zeros(24);
      }
    }

    method WriteBlock(lba: nat, payload: seq<byte>) returns (r: Result<()>)
      requires Valid()
      modifies this
      ensures Valid() && Remains() == old(Remains()) && (old(Unsaved()) ==> Unsaved())
      ensures if |payload| > UB then r == Err(Manifest) && Contents == old(Contents) && Blank == old(Blank)
              else if lba >= total || lba in Lost then
                r.Err? && old(Stored(lba)) == Err(r.error) && Contents == old(Contents) && Blank == old(Blank)
              else r == Ok(()) && Contents == old(Contents)[lba := Pad(payload)] && Blank == old(Blank) - {lba}
    {
      hide OnFile, Decoded, EncodedWith, Pad, Patch, AllHold, Holds, Loses, Contiguous, BlockIn, BlockStore.Stored,
          StoredIn, Find, Dropped, AllDirty, End, Size, GivenBy;
      if |payload| > UB {
        return Err(Manifest);
      }
      StoredPast(this, lba);
      var i :- CarrierFor(lba);
      StoredHere(this, lba, i);
      var loaded :- EnsureLoaded(i);
      StoredHere(this, lba, i);
      var slot := carriers[i];
      var offset := (lba - slot.range.blockStart) * 4096;
      var nonce := Nonce();
      var block := EncodedWith(p, keys, nonce, lba, payload);
      BlockRoundTrip(p, keys, nonce, lba, payload);
      ghost var before := carriers;
      carriers := carriers[i := slot.(buffer := Some(Patch(slot.buffer.value, offset, block)), dirty := true)];
      DroppedUpdate(before, i, carriers[i]);
      DirtyUpdate(before, i, carriers[i]);
      BlockWritten(p, keys, before, carriers, i, Contents, Blank, Lost, lba, block, Pad(payload));
      Contents := Contents[lba := Pad(payload)];
      Blank := Blank - {lba};
      return Ok(());
    }

    /** Write every changed carrier back to its image. */
    method Flush() returns (r: Result<()>)
      requires Valid()
      modifies this
      ensures Valid() && Contents == old(Contents) && Blank == old(Blank)
      ensures r == Ok(()) && Flushed() && |carriers| == |old(carriers)|
      ensures forall i {:trigger carriers[i]} :: 0 <= i < |carriers| ==>
        WrittenBack(p, keys, old(carriers)[i], carriers[i])
    {
      hide OnFile, Gives, Roomy, Rewritten, ChunkBytes, Chosen, ChunkIn, Imprinted;
      for i := 0 to |carriers|
        invariant Valid() && Contents == old(Contents) && Blank == old(Blank) && |carriers| == |old(carriers)|
        invariant forall j {:trigger carriers[j]} :: 0 <= j < i ==> !carriers[j].dirty
        invariant forall j {:trigger carriers[j]} :: 0 <= j < |carriers| ==>
          if j < i then WrittenBack(p, keys, old(carriers)[j], carriers[j]) else carriers[j] == old(carriers)[j]
      {
        var slot := carriers[i];
        assert Holds(p, keys, slot, Contents, Blank) && Loses(p, keys, slot, Lost);
        if slot.dirty {
          RoomyFile(keys, slot.file, Size(slot.range));
          RoomToWrite(p, keys, slot);
          var written, file := WriteChunk(p, slot.file, WriteMode(keys, slot), slot.buffer.value, OrderKey(keys));
          Flushes(p, keys, slot, file);
          Imprints(p, keys, slot, file);
          LoadedLoses(p, keys, slot, slot.(file := file, dirty := false), Lost);
          ghost var before := carriers;
          carriers := carriers[i := slot.(file := file, dirty := false)];
          assert Ranges(carriers) == Ranges(before);
          assert Holds(p, keys, carriers[i], Contents, Blank);
        }
      }
      return Ok(());
    }
  }

  /** The carriers after one block of one of them was overwritten. */
  lemma BlockWritten(p: Primitives, keys: Option<StoreKeys>, carriers: seq<CarrierSlot>, carriers': seq<CarrierSlot>,
      i: nat,
      contents: seq<Block>, blank: set<nat>, lost: set<nat>, lba: nat, blk: seq<byte>, b: Block)
    requires p.Lawful() && i < |carriers| && carriers[i].buffer.Some? && InCarrier(carriers[i].range, lba)
    requires lba < |contents|
    requires Contiguous(Ranges(carriers)) && AllHold(p, keys, carriers, contents, blank, lost)
    requires |blk| == PB && Decoded(p, keys, lba, blk) == Ok(b)
    requires (lba - carriers[i].range.blockStart) * 4096 + 4096 <= |carriers[i].buffer.value|
    requires carriers' == carriers[i := carriers[i].(buffer :=
      Some(Patch(carriers[i].buffer.value, (lba - carriers[i].range.blockStart) * 4096, blk)), dirty := true)]
    ensures Ranges(carriers') == Ranges(carriers)
    ensures AllHold(p, keys, carriers', contents[lba := b], blank - {lba}, lost)
  {
    hide Holds, Loses, Decoded, Patch, Contiguous;
    assert Ranges(carriers') == Ranges(carriers);
    assert Holds(p, keys, carriers[i], contents, blank);
    WrittenHolds(p, keys, carriers[i], contents, blank, lba, blk, b);
    forall j | 0 <= j < |carriers'|
      ensures Holds(p, keys, carriers'[j], contents[lba := b], blank - {lba}) && Loses(p, keys, carriers'[j], lost)
    {
      assert Loses(p, keys, carriers[j], lost);
      if j != i {
        assert Holds(p, keys, carriers[j], contents, blank);
        OthersHold(p, keys, carriers, i, contents, blank, lba, b, j);
      } else {
        LoadedLoses(p, keys, carriers[i], carriers'[i], lost);
      }
    }
  }

  /** What a store gives for a block is what the carrier gives that the block lies in. */
  lemma StoredHere(store: BlockStore, lba: nat, i: nat)
    requires store.Valid() && lba < store.total && i == Find(Ranges(store.carriers), lba) && i < |store.carriers|
    ensures InCarrier(store.carriers[i].range, lba) && store.carriers[i].file.WellFormed()
    ensures lba in store.Lost <==> Loaded(store.p, store.keys, store.carriers[i]).Err?
    ensures match Loaded(store.p, store.keys, store.carriers[i])
            case Err(e) => store.Stored(lba) == Err(e) && lba in store.Blank
            case Ok(bytes) =>
              var offset := (lba - store.carriers[i].range.blockStart) * 4096;
              && offset + 4096 <= |bytes|
              && store.Stored(lba) == Decoded(store.p, store.keys, lba, bytes[offset..offset + 4096])
    ensures lba !in store.Blank ==> store.Stored(lba) == Ok(store.Contents[lba])
  {
    hide OnFile, Decoded, Contiguous, Find, AllHold;
    var slot := store.carriers[i];
    HereHolds(store, i);
    AllOk(store.p, store.keys, store.carriers, store.Contents, store.Blank, store.Lost);
    SectorInside(slot.range, lba);
    if Loaded(store.p, store.keys, slot).Ok? {
      var here := BlockIn(store.p, store.keys, slot.range, Loaded(store.p, store.keys, slot).value, lba);
    }
  }

  lemma HereHolds(store: BlockStore, i: nat)
    requires store.Valid() && i < |store.carriers|
    ensures Holds(store.p, store.keys, store.carriers[i], store.Contents, store.Blank)
    ensures Loses(store.p, store.keys, store.carriers[i], store.Lost)
  {
    hide Holds, Loses, Contiguous;
  }

  /** Past the last block there is no carrier. */
  lemma StoredPast(store: BlockStore, lba: nat)
    requires store.Valid()
    ensures lba >= store.total ==> store.Stored(lba) == Err(BadBlock(lba))
  {
    hide Decoded, BlockIn, Holds, Loses, OnFile;
    OneCarrierEach(Ranges(store.carriers), lba);
  }

  /** With nothing loaded, a store gives what the images hold. */
  lemma StoredOnMedia(store: BlockStore, lba: nat)
    requires store.Valid() && forall slot :: slot in store.carriers ==> slot.file.WellFormed() && slot.buffer.None?
    ensures store.Stored(lba) == MediaBlock(store.p, store.keys, store.carriers, lba)
  {
    hide OnFile, Decoded, BlockIn, Gives, Contiguous;
    OneCarrierEach(Ranges(store.carriers), lba);
    if lba < store.total {
      StoredHere(store, lba, Find(Ranges(store.carriers), lba));
    }
  }

  /** Of two loaded carriers of one range, both or none lose their blocks. */
  lemma LoadedLoses(p: Primitives, keys: Option<StoreKeys>, slot: CarrierSlot, slot': CarrierSlot, lost: set<nat>)
    requires p.Lawful() && (slot'.file == slot.file || slot'.file.WellFormed()) && Loses(p, keys, slot, lost)
    requires slot'.range == slot.range && slot.buffer.Some? && slot'.buffer.Some?
    ensures Loses(p, keys, slot', lost)
  {
  }

  lemma UsableFiles(keys: Option<StoreKeys>, carriers: seq<CarrierSlot>)
    requires forall i {:trigger carriers[i]} :: 0 <= i < |carriers| ==> Usable(keys, carriers[i].file)
    ensures forall slot :: slot in carriers ==> slot.file.WellFormed()
  {
    forall slot | slot in carriers
      ensures slot.file.WellFormed()
    {
      var i :| 0 <= i < |carriers| && carriers[i] == slot;
    }
  }

  lemma RoomyFile(keys: Option<StoreKeys>, m: Medium, size: nat)
    requires Roomy(keys, m, size)
    ensures m.WellFormed()
  {
  }

  lemma RoomToWrite(p: Primitives, keys: Option<StoreKeys>, slot: CarrierSlot)
    requires p.Lawful() && slot.buffer.Some? && |slot.buffer.value| == Size(slot.range)
    requires Roomy(keys, slot.file, Size(slot.range))
    ensures WriteOutcome(slot.file, WriteMode(keys, slot), slot.buffer.value, OrderKey(keys)) == Ok(())
  {
    hide Slots;
  }

  /** The first range that a block lies in. */
  function Find(manifest: seq<CarrierRange>, lba: nat): (i: nat)
    ensures i <= |manifest|
    ensures i < |manifest| ==> InCarrier(manifest[i], lba)
    ensures forall j :: 0 <= j < i ==> !InCarrier(manifest[j], lba)
  {
    if manifest == [] then 0 else if InCarrier(manifest[0], lba) then 0 else 1 + Find(manifest[1..], lba)
  }

  lemma FirstFound(manifest: seq<CarrierRange>, lba: nat, i: nat)
    requires i < |manifest| && InCarrier(manifest[i], lba)
    requires forall j :: 0 <= j < i ==> !InCarrier(manifest[j], lba)
    ensures Find(manifest, lba) == i
  {
  }

  // ---------------------------------------------------------------- what the images hold

  /** Block `lba` as the images give it, whatever has been loaded. */
  function MediaBlock(p: Primitives, keys: Option<StoreKeys>, carriers: seq<CarrierSlot>, lba: nat): Result<Block>
    requires p.Lawful() && forall slot :: slot in carriers ==> slot.file.WellFormed()
  {
    var i := Find(Ranges(carriers), lba);
    if i >= |carriers| then Err(BadBlock(lba))
    else
      match OnFile(p, keys, carriers[i])
      case Err(e) => Err(e)
      case Ok(bytes) => BlockIn(p, keys, carriers[i].range, bytes, lba)
  }

  /** All blocks below `total` as the images give them; zeros stand for those they do not. */
  ghost function MediaContents(p: Primitives, keys: Option<StoreKeys>, carriers: seq<CarrierSlot>,
      total: nat): (contents: seq<Block>)
    requires p.Lawful() && forall slot :: slot in carriers ==> slot.file.WellFormed()
    ensures |contents| == total
  {
    if total == 0 then []
    else MediaContents(p, keys, carriers, total - 1) + [Given(MediaBlock(p, keys, carriers, total - 1))]
  }

  function Given(r: Result<Block>): Block {
    if r.Ok? then r.value else ZERO_BLOCK
  }

  lemma {:induction false} MediaContentsAt(p: Primitives, keys: Option<StoreKeys>, carriers: seq<CarrierSlot>,
      total: nat, lba: nat)
    requires p.Lawful() && (forall slot :: slot in carriers ==> slot.file.WellFormed()) && lba < total
    ensures MediaContents(p, keys, carriers, total)[lba] == Given(MediaBlock(p, keys, carriers, lba))
  {
    hide MediaBlock;
    if lba < total - 1 {
      MediaContentsAt(p, keys, carriers, total - 1, lba);
    }
  }

  /** The blocks below `total` that the images do not give. */
  ghost function MediaBlank(p: Primitives, keys: Option<StoreKeys>, carriers: seq<CarrierSlot>,
      total: nat): (blank: set<nat>)
    requires p.Lawful() && forall slot :: slot in carriers ==> slot.file.WellFormed()
    ensures forall lba: nat {:trigger lba in blank} :: lba in blank <==>
      lba < total && MediaBlock(p, keys, carriers, lba).Err?
  {
    hide MediaBlock;
    set lba: nat | lba in Below(total) && MediaBlock(p, keys, carriers, lba).Err?
  }

  /** The blocks below `total` on images that cannot be read. */
  ghost function MediaLost(p: Primitives, keys: Option<StoreKeys>, carriers: seq<CarrierSlot>,
      total: nat): (lost: set<nat>)
    requires p.Lawful() && forall slot :: slot in carriers ==> slot.file.WellFormed()
    ensures forall lba: nat {:trigger lba in lost} :: lba in lost <==>
      lba < total && Find(Ranges(carriers), lba) < |carriers|
          && OnFile(p, keys, carriers[Find(Ranges(carriers), lba)]).Err?
  {
    hide OnFile, Find;
    set lba: nat | lba in Below(total) && Find(Ranges(carriers), lba) < |carriers|
      && OnFile(p, keys, carriers[Find(Ranges(carriers), lba)]).Err?
  }

  lemma LostIsBlank(p: Primitives, keys: Option<StoreKeys>, carriers: seq<CarrierSlot>, total: nat)
    requires p.Lawful() && forall slot :: slot in carriers ==> slot.file.WellFormed()
    ensures MediaLost(p, keys, carriers, total) <= MediaBlank(p, keys, carriers, total)
  {
    hide OnFile, Find, BlockIn, MediaLost, MediaBlank;
  }

  lemma {:induction false} GatheredHold(p: Primitives, keys: Option<StoreKeys>, carriers: seq<CarrierSlot>, i: nat)
    requires p.Lawful() && i < |carriers| && Contiguous(Ranges(carriers))
    requires forall slot :: slot in carriers ==> slot.file.WellFormed()
    requires Usable(keys, carriers[i].file) && carriers[i].buffer.None? && !carriers[i].dirty
    ensures var total := End(Ranges(carriers), |carriers|);
            && Holds(p, keys, carriers[i], MediaContents(p, keys, carriers, total),
              MediaBlank(p, keys, carriers, total))
            && Loses(p, keys, carriers[i], MediaLost(p, keys, carriers, total))
  {
    hide Roomy, OnFile, BlockIn, MediaContents, MediaBlank, MediaLost, Contiguous, InCarrier, Find;
    var total := End(Ranges(carriers), |carriers|);
    var contents, blank, r := MediaContents(p, keys, carriers, total), MediaBlank(p, keys, carriers, total),
        carriers[i].range;
    forall lba: nat | InCarrier(r, lba)
      ensures lba < total && Find(Ranges(carriers), lba) == i
      ensures lba !in blank ==>
        && OnFile(p, keys, carriers[i]).Ok?
        && BlockIn(p, keys, r, OnFile(p, keys, carriers[i]).value, lba) == Ok(contents[lba])
    {
      OneCarrierEach(Ranges(carriers), lba);
      assert InCarrier(Ranges(carriers)[i], lba);
      assert InCarrier(Ranges(carriers)[Find(Ranges(carriers), lba)], lba);
      MediaContentsAt(p, keys, carriers, total, lba);
    }
  }

  /** Once flushed, the images alone give the whole block array: dropping every buffer and
      reading again loses nothing. */
  lemma {:induction false} FlushedOnMedia(p: Primitives, keys: Option<StoreKeys>, carriers: seq<CarrierSlot>,
      contents: seq<Block>, blank: set<nat>, lba: nat)
    requires p.Lawful() && Contiguous(Ranges(carriers))
    requires forall i {:trigger carriers[i]} :: 0 <= i < |carriers| ==>
      Holds(p, keys, carriers[i], contents, blank) && !carriers[i].dirty
    requires lba < End(Ranges(carriers), |carriers|) && lba !in blank
    ensures forall slot :: slot in carriers ==> slot.file.WellFormed()
    ensures lba < |contents| && MediaBlock(p, keys, carriers, lba) == Ok(contents[lba])
  {
    hide OnFile, BlockIn, Holds, Contiguous;
    OneCarrierEach(Ranges(carriers), lba);
    forall slot | slot in carriers
      ensures slot.file.WellFormed()
    {
      var i :| 0 <= i < |carriers| && carriers[i] == slot;
      HeldFile(p, keys, slot, contents, blank);
    }
    var i := Find(Ranges(carriers), lba);
    assert InCarrier(carriers[i].range, lba);
    CleanSlot(p, keys, carriers[i], contents, blank, lba);
  }

  lemma HeldFile(p: Primitives, keys: Option<StoreKeys>, slot: CarrierSlot, contents: seq<Block>, blank: set<nat>)
    requires p.Lawful() && Holds(p, keys, slot, contents, blank)
    ensures slot.file.WellFormed()
  {
    hide Gives;
  }

  /** Buffers play no part in what the images hold. */
  lemma {:induction false} DroppedBlock(p: Primitives, keys: Option<StoreKeys>, carriers: seq<CarrierSlot>, lba: nat)
    requires p.Lawful() && forall slot :: slot in carriers ==> slot.file.WellFormed()
    ensures forall slot :: slot in Dropped(carriers) ==> slot.file.WellFormed()
    ensures MediaBlock(p, keys, Dropped(carriers), lba) == MediaBlock(p, keys, carriers, lba)
  {
    hide ChunkIn, BlockIn, Find;
    forall slot | slot in Dropped(carriers)
      ensures slot.file.WellFormed()
    {
      var i :| 0 <= i < |carriers| && Dropped(carriers)[i] == slot;
      assert carriers[i] in carriers;
    }
    var i := Find(Ranges(carriers), lba);
    if i < |carriers| {
      assert OnFile(p, keys, Dropped(carriers)[i]) == OnFile(p, keys, carriers[i]);
    }
  }

  /** The images of carriers that hold anything are usable. */
  lemma {:induction false} HeldUsable(p: Primitives, keys: Option<StoreKeys>, carriers: seq<CarrierSlot>,
      contents: seq<Block>, blank: set<nat>)
    requires p.Lawful()
    requires forall i {:trigger carriers[i]} :: 0 <= i < |carriers| ==> Holds(p, keys, carriers[i], contents, blank)
    ensures forall i {:trigger Images(carriers)[i]} :: 0 <= i < |carriers| ==> Usable(keys, Images(carriers)[i])
    ensures forall slot :: slot in carriers ==> slot.file.WellFormed()
  {
    hide ChunkIn, Gives;
    forall i | 0 <= i < |carriers|
      ensures Usable(keys, carriers[i].file)
    {
      assert Holds(p, keys, carriers[i], contents, blank);
    }
    forall slot | slot in carriers
      ensures slot.file.WellFormed()
    {
      var i :| 0 <= i < |carriers| && carriers[i] == slot;
    }
  }

  /** The images of a flushed store without blank blocks give its contents and no blank block. */
  lemma {:induction false} DroppedContents(p: Primitives, keys: Option<StoreKeys>, carriers: seq<CarrierSlot>,
      contents: seq<Block>)
    requires p.Lawful() && Contiguous(Ranges(carriers)) && End(Ranges(carriers), |carriers|) == |contents|
    requires forall i {:trigger carriers[i]} :: 0 <= i < |carriers| ==>
      Holds(p, keys, carriers[i], contents, {}) && !carriers[i].dirty
    ensures forall slot :: slot in Dropped(carriers) ==> slot.file.WellFormed()
    ensures MediaBlank(p, keys, Dropped(carriers), |contents|) == {}
    ensures MediaContents(p, keys, Dropped(carriers), |contents|) == contents
  {
    hide MediaBlock, MediaContents, MediaBlank, Dropped, Holds;
    HeldUsable(p, keys, carriers, contents, {});
    DroppedBlock(p, keys, carriers, 0);
    forall lba: nat | lba < |contents|
      ensures MediaBlock(p, keys, Dropped(carriers), lba) == Ok(contents[lba])
    {
      FlushedOnMedia(p, keys, carriers, contents, {}, lba);
      DroppedBlock(p, keys, carriers, lba);
    }
    forall lba: nat | lba < |contents|
      ensures MediaContents(p, keys, Dropped(carriers), |contents|)[lba] == contents[lba]
    {
      MediaContentsAt(p, keys, Dropped(carriers), |contents|, lba);
    }
    assert MediaContents(p, keys, Dropped(carriers), |contents|) == contents;
  }

  lemma FlushedStore(store: BlockStore)
    requires store.Valid() && store.Flushed() && store.Blank == {}
    ensures var carriers := store.carriers;
            && store.p.Lawful() && Contiguous(Ranges(carriers))
              && End(Ranges(carriers), |carriers|) == |store.Contents| == store.total
            && forall i {:trigger carriers[i]} :: 0 <= i < |carriers| ==>
              Holds(store.p, store.keys, carriers[i], store.Contents, {}) && !carriers[i].dirty
  {
    hide Holds;
  }
}
