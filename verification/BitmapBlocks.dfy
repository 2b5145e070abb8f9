/** The bitmap's copy in the block array. */
module BitmapBlocks {
  import opened Bytes
  import Bits
  import opened Layout
  import opened Wrappers
  import opened Geometry
  import Bitmaps
  import opened BlockStores

  /** The byte of the block array that holds block `b`'s bit. */
  function BitmapByte(g: Geometry, contents: seq<Block>, n: nat): byte
    requires g.bitmapStart + n / 4032 < |contents|
  {
    contents[g.bitmapStart + n / 4032][n % 4032]
  }

  /** The bitmap region of `contents` says that exactly the blocks in `marked` are allocated. */
  ghost predicate Recorded(g: Geometry, contents: seq<Block>, marked: set<nat>)
    requires g.Sound() && |contents| == g.total
  {
    && (forall b {:trigger b in marked} :: b in marked ==> b < g.total)
    && (forall b: nat {:trigger b in marked} :: b < g.total ==>
      (b in marked <==> Bits.BitAt(BitmapByte(g, contents, b / 8), b % 8) == 1))
  }

  /** The bit of block `b` is bit `b % 8`, from the low end, of byte `b / 8` of the region. */
  lemma RecordedBit(g: Geometry, contents: seq<Block>, marked: set<nat>, b: nat)
    requires g.Sound() && |contents| == g.total && Recorded(g, contents, marked) && b < g.total
    ensures g.bitmapStart + b / 8 / 4032 < g.inodeTableStart
    ensures b in marked <==>
      contents[g.bitmapStart + b / 8 / 4032][b / 8 % 4032] / [1, 2, 4, 8, 16, 32, 64, 128][b % 8] % 2 == 1
  {
    hide Bits.BitAt;
    Bits.BitValue(BitmapByte(g, contents, b / 8), b % 8);
  }

  /** The part of the bitmap kept in the `index`-th block of its region. */
  function Slice(bits: seq<byte>, index: nat): (s: seq<byte>)
    ensures |s| <= UB
  {
    var start := index * 4032;
    var end := Min(start + 4032, |bits|);
    if start < end then bits[start..end] else []
  }

  method WriteBitmap(g: Geometry, store: BlockStore, bitmap: Bitmaps.Bitmap)
    requires g.Sound() && store.Valid() && store.Lost == {} && bitmap.Valid() && store.total == bitmap.total == g.total
    modifies store
    ensures store.Valid() && store.Blank <= old(store.Blank) && store.Remains() == old(store.Remains())
    ensures old(store.Unsaved()) ==> store.Unsaved()
    ensures forall b :: 0 <= b < g.total && !(g.bitmapStart <= b < g.inodeTableStart) ==>
      store.Contents[b] == old(store.Contents)[b]
    ensures Recorded(g, store.Contents, bitmap.Marked)
  {
    hide BlockStore.Valid, Pad, Slice, Bits.BitAt, BlockStore.Remains, BlockStore.Unsaved;
    for block := g.bitmapStart to g.inodeTableStart
      invariant store.Valid() && store.Blank <= old(store.Blank) && store.Remains() == old(store.Remains())
      invariant old(store.Unsaved()) ==> store.Unsaved()
      invariant forall b :: 0 <= b < g.total && !(g.bitmapStart <= b < block) ==>
        store.Contents[b] == old(store.Contents)[b]
      invariant forall b :: g.bitmapStart <= b < block ==>
        store.Contents[b] == Pad(Slice(bitmap.bits, b - g.bitmapStart))
    {
      var r := store.WriteBlock(block, Slice(bitmap.bits, block - g.bitmapStart));
    }
    forall b: nat | b < g.total
      ensures b in bitmap.Marked <==> Bits.BitAt(BitmapByte(g, store.Contents, b / 8), b % 8) == 1
    {
      assert store.Contents[g.bitmapStart + b / 8 / 4032] == Pad(Slice(bitmap.bits, b / 8 / 4032));
      SliceByte(bitmap.bits, b / 8);
    }
  }

  lemma SliceByte(bits: seq<byte>, n: nat)
    requires n < |bits|
    ensures Pad(Slice(bits, n / 4032))[n % 4032] == bits[n]
  {
    assert Slice(bits, n / 4032)[n % 4032] == bits[n];
  }

  /** A block of the bitmap is among `blank`. */
  ghost predicate BitmapHit(g: Geometry, blank: set<nat>) {
    exists b {:trigger b in blank} :: b in blank && g.bitmapStart <= b < g.inodeTableStart
  }

  /** Read the bitmap; its first block that cannot be read is an error. */
  method LoadBitmap(g: Geometry, store: BlockStore) returns (r: Result<Bitmaps.Bitmap>)
    requires g.Sound() && store.Valid() && store.total == g.total
    modifies store
    ensures store.Valid() && store.Contents == old(store.Contents) && store.Blank == old(store.Blank)
    ensures store.Remains() == old(store.Remains())
    ensures match r
            case Ok(bitmap) =>
              && (forall b: nat {:trigger old(store.Stored(b))} :: g.bitmapStart <= b < g.inodeTableStart ==>
                old(store.Stored(b)).Ok?)
              && fresh(bitmap) && bitmap.Valid() && bitmap.total == g.total
              && (!BitmapHit(g, store.Blank) ==> Recorded(g, store.Contents, bitmap.Marked))
            case Err(e) =>
              exists b: nat {:trigger old(store.Stored(b))} ::
                && g.bitmapStart <= b < g.inodeTableStart && old(store.Stored(b)) == Err(e)
                && forall c: nat {:trigger old(store.Stored(c))} :: g.bitmapStart <= c < b ==> old(store.Stored(c)).Ok?
  {
    hide BlockStore.Valid, BlockStore.Stored, BlockStore.Remains;
    var needed := DivCeil(g.total, 8);
    var bytes: seq<byte> := [];
    for block := g.bitmapStart to g.inodeTableStart
      invariant store.Valid() && store.Contents == old(store.Contents) && store.Blank == old(store.Blank)
      invariant store.Remains() == old(store.Remains())
      invariant forall b: nat {:trigger store.Stored(b)} :: store.Stored(b) == old(store.Stored(b))
      invariant forall b: nat {:trigger old(store.Stored(b))} :: g.bitmapStart <= b < block ==> old(store.Stored(b)).Ok?
      invariant |bytes| == Min(needed, (block - g.bitmapStart) * 4032)
      invariant !BitmapHit(g, store.Blank) ==> forall n :: 0 <= n < |bytes| ==>
        bytes[n] == BitmapByte(g, store.Contents, n)
    {
      var payload :- store.ReadBlock(block);
      var remaining := if needed < |bytes| then 0 else needed - |bytes|;
      bytes := bytes + payload[..Min(remaining, UB)];
    }
    var bitmap := new Bitmaps.Bitmap.FromBytes(bytes, g.total);
    return Ok(bitmap);
  }

  /** The region determines the set. */
  lemma {:induction false} RecordedOnce(g: Geometry, contents: seq<Block>, m: set<nat>, m': set<nat>)
    requires g.Sound() && |contents| == g.total
    requires Recorded(g, contents, m) && Recorded(g, contents, m')
    ensures m == m'
  {
    forall b: nat
      ensures b in m <==> b in m'
    {
    }
  }
}
