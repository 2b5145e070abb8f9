/** Chunks of bytes carried by images. */
module Chunks {
  import opened Bytes
  import Bits
  import opened Wrappers
  import opened Bitstreams
  import opened Primitives
  import opened JpegImages
  import opened PngImages

  const CHUNK_MAGIC: u32 := 0x414C_424D
  const CHUNK_HEADER_LEN: nat := 16

  datatype ChunkMeta = ChunkMeta(chunkIndex: u32, flags: u16)

  datatype ChunkWrite = FramedWrite(meta: ChunkMeta) | MarkerlessWrite(index: u32)

  datatype ChunkRead = FramedRead | MarkerlessRead(index: u32, payloadLen: nat)

  // ---------------------------------------------------------------- header

  function HeaderFields(meta: ChunkMeta, chunkLen: u32): (h: seq<byte>)
    ensures |h| == 14
  {
    ToLe(CHUNK_MAGIC, 4) + ToLe(meta.chunkIndex, 4) + ToLe(chunkLen, 4) + ToLe(meta.flags, 2)
  }

  function EncodeHeader(p: Primitives, meta: ChunkMeta, chunkLen: u32): (h: seq<byte>)
    ensures |h| == CHUNK_HEADER_LEN
  {
    var fields := HeaderFields(meta, chunkLen);
    fields + ToLe(p.crc16(fields), 2)
  }

  function DecodeHeader(p: Primitives, h: seq<byte>): Result<(ChunkMeta, u32)> {
    if |h| < CHUNK_HEADER_LEN || FromLe32(h[0..4]) != CHUNK_MAGIC then Err(Codec(NotACarrier))
    else if p.crc16(h[0..14]) != FromLe16(h[14..16]) then Err(Codec(HeaderCrc))
    else Ok((ChunkMeta(FromLe32(h[4..8]), FromLe16(h[12..14])), FromLe32(h[8..12])))
  }

  lemma HeaderRoundTrip(p: Primitives, meta: ChunkMeta, chunkLen: u32)
    ensures DecodeHeader(p, EncodeHeader(p, meta, chunkLen)) == Ok((meta, chunkLen))
  {
    hide ToLe, FromLe;
    var h := EncodeHeader(p, meta, chunkLen);
    RangeValues();
    FromToLe(CHUNK_MAGIC, 4);
    FromToLe(meta.chunkIndex, 4);
    FromToLe(chunkLen, 4);
    FromToLe(meta.flags, 2);
    FromToLe(p.crc16(h[0..14]), 2);
    assert h[0..14] == HeaderFields(meta, chunkLen);
    assert h[0..4] == ToLe(CHUNK_MAGIC, 4) && h[4..8] == ToLe(meta.chunkIndex, 4) && h[8..12] == ToLe(chunkLen, 4);
    assert h[12..14] == ToLe(meta.flags, 2) && h[14..16] == ToLe(p.crc16(h[0..14]), 2);
  }

  // ---------------------------------------------------------------- order

  /** The list in the order a permutation gives. */
  function Arranged(list: seq<nat>, order: seq<nat>): (r: seq<nat>)
    requires IsPermutation(order, |list|)
    ensures |r| == |list|
  {
    seq(|list|, i requires 0 <= i < |list| => list[order[i]])
  }

  lemma {:induction false} ArrangedKeeps(list: seq<nat>, order: seq<nat>)
    requires IsPermutation(order, |list|)
    ensures Distinct(list) ==> Distinct(Arranged(list, order))
    ensures forall i :: 0 <= i < |list| ==> Arranged(list, order)[i] in list
    ensures forall n :: InRange(list, n) ==> InRange(Arranged(list, order), n)
  {
    if Distinct(list) {
      forall i, j | 0 <= i < j < |list|
        ensures Arranged(list, order)[i] != Arranged(list, order)[j]
      {
        assert order[i] != order[j];
      }
    }
  }

  function OrderPositions(p: Primitives, positions: seq<nat>, key: seq<byte>, index: u32): Result<seq<nat>>
    requires p.Lawful()
  {
    if |key| != 32 then Err(Codec(InvalidMode))
    else Ok(Arranged(positions, p.permutation(key, index, |positions|)))
  }

  // ---------------------------------------------------------------- images

  /** What an image file holds, as far as embedding is concerned. */
  datatype Medium =
    | Jpeg(components: seq<seq<CoefBlock>>)
    | Png(width: nat, height: nat, pixels: seq<byte>)
  {
    predicate WellFormed() {
      Png? ==> |pixels| == 4 * (width * height)
    }
  }

  /** `0, 1, ..., n - 1` */
  function UpTo(n: nat): (r: seq<nat>)
    ensures |r| == n && Distinct(r) && InRange(r, n)
    ensures forall i :: 0 <= i < n ==> r[i] == i
  {
    seq(n, i requires 0 <= i < n => i)
  }

  /** The low bits of all cells. */
  function Low(m: Medium): (low: seq<Bits.bit>)
    requires m.WellFormed()
  {
    match m
    case Jpeg(components) =>
      var cells := Cells(components);
      seq(|cells|, p requires 0 <= p < |cells| => Magnitude(cells[p]) % 2)
    case Png(width, height, pixels) =>
      var cells := Channels(pixels, width * height);
      seq(|cells|, p requires 0 <= p < |cells| => cells[p] % 2)
  }

  /** The positions that can carry a bit, in their natural order. */
  function Slots(m: Medium): seq<nat>
    requires m.WellFormed()
  {
    match m
    case Jpeg(components) => Usable(Cells(components), |Cells(components)|)
    case Png(width, height, _) => UpTo(3 * (width * height))
  }

  lemma SlotsFit(m: Medium)
    requires m.WellFormed()
    ensures Distinct(Slots(m)) && InRange(Slots(m), |Low(m)|)
  {
    hide Cells, Channels, Usable;
    if m.Jpeg? {
      UsableDistinct(Cells(m.components), |Cells(m.components)|);
    }
  }

  function Capacity(m: Medium): nat
    requires m.WellFormed()
  {
    |Slots(m)| / 8
  }

  // ---------------------------------------------------------------- writing

  /** Whether a chunk can be written. */
  function WriteOutcome(m: Medium, mode: ChunkWrite, payload: seq<byte>, key: seq<byte>): Result<()>
    requires m.WellFormed()
  {
    match mode
    case FramedWrite(_) =>
      if key != [] then Err(Codec(InvalidMode))
      else if |payload| > 0xFFFF_FFFF || CHUNK_HEADER_LEN + |payload| > Capacity(m) then Err(Codec(PayloadTooLarge))
      else Ok(())
    case MarkerlessWrite(_) =>
      if |payload| > Capacity(m) then Err(Codec(PayloadTooLarge))
      else if |key| != 32 then Err(Codec(InvalidMode))
      else Ok(())
  }

  /** The bytes embedded for a chunk. */
  function ChunkBytes(p: Primitives, mode: ChunkWrite, payload: seq<byte>): seq<byte>
    requires |payload| <= 0xFFFF_FFFF || mode.MarkerlessWrite?
  {
    match mode
    case FramedWrite(meta) => EncodeHeader(p, meta, |payload|) + payload
    case MarkerlessWrite(_) => payload
  }

  /** The positions they are embedded at. */
  function Chosen(p: Primitives, slots: seq<nat>, mode: ChunkWrite, key: seq<byte>): seq<nat>
    requires p.Lawful()
  {
    match mode
    case FramedWrite(_) => slots
    case MarkerlessWrite(index) => Arranged(slots, p.permutation(key, index, |slots|))
  }

  /** The same image with `bytes` in the low bits at `positions`: it offers the same positions
      and nothing but the used values has changed. */
  ghost predicate Rewritten(m: Medium, m': Medium, positions: seq<nat>, bytes: seq<byte>)
    requires m.WellFormed()
  {
    && m'.WellFormed()
    && Slots(m') == Slots(m) && |Low(m')| == |Low(m)|
    && 8 * |bytes| <= |positions| && InRange(positions, |Low(m)|)
    && (forall i {:trigger StreamBit(bytes, i)} :: 0 <= i < 8 * |bytes| ==>
      Low(m')[positions[i]] == StreamBit(bytes, i))
    && (match m
        case Jpeg(components) =>
          && m'.Jpeg? && Shape(m'.components) == Shape(components) && |Cells(m'.components)| == |Cells(components)|
          && (forall p :: 0 <= p < |Cells(components)| && p !in positions[..8 * |bytes|] ==>
            Cells(m'.components)[p] == Cells(components)[p])
        case Png(width, height, pixels) =>
          && m'.Png? && m'.width == width && m'.height == height && OnlyChannels(pixels, m'.pixels)
          && (forall p :: 0 <= p < 3 * (width * height) && p !in positions[..8 * |bytes|] ==>
            Channels(m'.pixels, width * height)[p] == Channels(pixels, width * height)[p]))
  }

  lemma JpegRewritten(m: Medium, m': Medium, positions: seq<nat>, bytes: seq<byte>)
    requires m.Jpeg? && m'.Jpeg? && Shape(m'.components) == Shape(m.components)
    requires 8 * |bytes| <= |positions| && Distinct(positions)
    requires forall i :: 0 <= i < |positions| ==> positions[i] in Slots(m)
    requires InRange(positions[..8 * |bytes|], |Cells(m.components)|)
    requires Cells(m'.components) == Embedded(Cells(m.components), positions, BitsOf(bytes), PutCoef)
    ensures Rewritten(m, m', positions, bytes)
  {
    hide Cells, Usable, Embedded, PutCoef, Magnitude, Shape, StreamBit;
    var cells, cells' := Cells(m.components), Cells(m'.components);
    EmbeddingStable(cells, positions, BitsOf(bytes));
    forall i | 0 <= i < 8 * |bytes|
      ensures Low(m')[positions[i]] == StreamBit(bytes, i)
    {
      assert BitsOf(bytes)[i] == StreamBit(bytes, i);
    }
    forall p | 0 <= p < |cells| && p !in positions[..8 * |bytes|]
      ensures cells'[p] == cells[p]
    {
    }
  }

  lemma PngRewritten(m: Medium, m': Medium, positions: seq<nat>, bytes: seq<byte>)
    requires m.Png? && m.WellFormed() && m'.Png? && m'.WellFormed() && m'.width == m.width && m'.height == m.height
    requires OnlyChannels(m.pixels, m'.pixels)
    requires 8 * |bytes| <= |positions| && Distinct(positions) && InRange(positions, 3 * (m.width * m.height))
    requires InRange(positions[..8 * |bytes|], 3 * (m.width * m.height))
    requires Channels(m'.pixels, m.width * m.height) ==
      Embedded(Channels(m.pixels, m.width * m.height), positions, BitsOf(bytes), PutChannel)
    ensures Rewritten(m, m', positions, bytes)
  {
    hide Channels, Embedded, PutChannel;
    ChannelsKeep(Channels(m.pixels, m.width * m.height), positions, BitsOf(bytes));
  }

  /** Positions beyond those used do not matter. */
  lemma LongerList(m: Medium, m': Medium, a: seq<nat>, b: seq<nat>, bytes: seq<byte>)
    requires m.WellFormed() && Rewritten(m, m', a, bytes) && a <= b && InRange(b, |Low(m)|)
    ensures Rewritten(m, m', b, bytes)
  {
    hide Cells, Channels, Usable, Slots, Low;
    assert a[..8 * |bytes|] == b[..8 * |bytes|];
  }

  lemma ChosenFit(p: Primitives, m: Medium, mode: ChunkWrite, key: seq<byte>)
    requires p.Lawful() && m.WellFormed()
    ensures var positions := Chosen(p, Slots(m), mode, key);
            && |positions| == |Slots(m)| && Distinct(positions) && InRange(positions, |Low(m)|)
            && forall i :: 0 <= i < |positions| ==> positions[i] in Slots(m)
  {
    hide Slots, Low;
    SlotsFit(m);
    if mode.MarkerlessWrite? {
      ArrangedKeeps(Slots(m), p.permutation(key, mode.index, |Slots(m)|));
    }
  }

  /** Write a chunk into a JPEG image. */
  method WriteJpeg(p: Primitives, m: Medium, mode: ChunkWrite, payload: seq<byte>,
      key: seq<byte>) returns (r: Result<()>, m': Medium)
    requires p.Lawful() && m.Jpeg?
    ensures r == WriteOutcome(m, mode, payload, key)
    ensures r.Err? ==> m' == m
    ensures r.Ok? ==> Rewritten(m, m', Chosen(p, Slots(m), mode, key), ChunkBytes(p, mode, payload))
  {
    hide Cells, Usable, Embedded, PutCoef, Rewritten, EncodeHeader, Arranged;
    m' := m;
    var image := new JpegImage(m.components);
    var usable := image.UsablePositions();
    var raw := |usable| / 8;
    var header: seq<byte> := [];
    var positions := usable;
    match mode {
      case FramedWrite(meta) =>
        if key != [] {
          return Err(Codec(InvalidMode)), m;
        }
        if |payload| > 0xFFFF_FFFF || CHUNK_HEADER_LEN + |payload| > raw {
          return Err(Codec(PayloadTooLarge)), m;
        }
        header := EncodeHeader(p, meta, |payload|);
      case MarkerlessWrite(index) =>
        if |payload| > raw {
          return Err(Codec(PayloadTooLarge)), m;
        }
        positions :- OrderPositions(p, usable, key, index);
    }
    assert header + payload == ChunkBytes(p, mode, payload);
    ChosenFit(p, m, mode, key);
    assert InRange(positions[..8 * |header + payload|], |Cells(m.components)|);
    r := image.EmbedBytes(positions, header, payload);
    m' := Medium.Jpeg(image.components);
    JpegRewritten(m, m', positions, header + payload);
  }

  /** Write a chunk into a PNG image. */
  method WritePng(p: Primitives, m: Medium, mode: ChunkWrite, payload: seq<byte>,
      key: seq<byte>) returns (r: Result<()>, m': Medium)
    requires p.Lawful() && m.Png? && m.WellFormed()
    ensures r == WriteOutcome(m, mode, payload, key)
    ensures r.Err? ==> m' == m
    ensures r.Ok? ==> Rewritten(m, m', Chosen(p, Slots(m), mode, key), ChunkBytes(p, mode, payload))
  {
    hide Channels, Embedded, PutChannel, Rewritten, EncodeHeader, Arranged;
    m' := m;
    var image := new RgbaImage(m.width, m.height, m.pixels);
    var slots := image.width * image.height * 3;
    var raw := slots / 8;
    var header: seq<byte> := [];
    var positions: seq<nat> := [];
    ChosenFit(p, m, mode, key);
    match mode {
      case FramedWrite(meta) =>
        if key != [] {
          return Err(Codec(InvalidMode)), m;
        }
        if |payload| > 0xFFFF_FFFF {
          return Err(Codec(PayloadTooLarge)), m;
        }
        var need := CHUNK_HEADER_LEN + |payload|;
        if need > raw {
          return Err(Codec(PayloadTooLarge)), m;
        }
        header := EncodeHeader(p, meta, |payload|);
        positions := UpTo(need * 8);
        assert positions <= UpTo(slots);
      case MarkerlessWrite(index) =>
        if |payload| > raw {
          return Err(Codec(PayloadTooLarge)), m;
        }
        positions :- OrderPositions(p, UpTo(slots), key, index);
    }
    assert header + payload == ChunkBytes(p, mode, payload);
    r := image.WriteBytes(positions, header, payload);
    m' := Png(image.width, image.height, image.data[..]);
    PngRewritten(m, m', positions, header + payload);
    LongerList(m, m', positions, Chosen(p, Slots(m), mode, key), header + payload);
  }

  /** Write a chunk into an image of either kind. */
  method WriteChunk(p: Primitives, m: Medium, mode: ChunkWrite, payload: seq<byte>,
      key: seq<byte>) returns (r: Result<()>, m': Medium)
    requires p.Lawful() && m.WellFormed()
    ensures r == WriteOutcome(m, mode, payload, key)
    ensures r.Err? ==> m' == m
    ensures r.Ok? ==> Rewritten(m, m', Chosen(p, Slots(m), mode, key), ChunkBytes(p, mode, payload))
  {
    hide Slots, Rewritten, ChunkBytes, Chosen;
    if m.Jpeg? {
      r, m' := WriteJpeg(p, m, mode, payload, key);
    } else {
      r, m' := WritePng(p, m, mode, payload, key);
    }
  }

  // ---------------------------------------------------------------- reading

  /** The chunk an image holds. */
  function ChunkIn(p: Primitives, m: Medium, mode: ChunkRead, key: seq<byte>): Result<(ChunkMeta, seq<byte>)>
    requires p.Lawful() && m.WellFormed()
  {
    SlotsFit(m);
    var (low, slots) := (Low(m), Slots(m));
    match mode
    case FramedRead =>
      if key != [] then Err(Codec(InvalidMode))
      else if 8 * CHUNK_HEADER_LEN > |slots| then Err(Codec(NotACarrier))
      else
        (match DecodeHeader(p, Gathered(low, slots, 0, CHUNK_HEADER_LEN))
         case Err(e) => Err(e)
         case Ok((meta, length)) =>
           if CHUNK_HEADER_LEN + length > Capacity(m) then Err(Codec(NotACarrier))
           else Ok((meta, Gathered(low, slots, 8 * CHUNK_HEADER_LEN, length))))
    case MarkerlessRead(index, length) =>
      if length > Capacity(m) then Err(Codec(NotACarrier))
      else
        match OrderPositions(p, slots, key, index)
        case Err(e) => Err(e)
        case Ok(positions) =>
          ArrangedKeeps(slots, p.permutation(key, index, |slots|));
          Ok((ChunkMeta(index, 0), Gathered(low, positions, 0, length)))
  }

  /** Read a chunk from a JPEG image. */
  method ReadJpeg(p: Primitives, m: Medium, mode: ChunkRead, key: seq<byte>) returns (r: Result<(ChunkMeta, seq<byte>)>)
    requires p.Lawful() && m.Jpeg?
    ensures r == ChunkIn(p, m, mode, key)
  {
    hide Cells, Usable, Magnitude, Gathered, DecodeHeader, StreamBit, Arranged;
    var image := new JpegImage(m.components);
    var usable := image.UsablePositions();
    ghost var low := Low(m);
    SlotsFit(m);
    match mode {
      case FramedRead =>
        if key != [] {
          return Err(Codec(InvalidMode));
        }
        var header :- image.ExtractBytes(usable, 0, CHUNK_HEADER_LEN);
        GatheredIs(low, usable, 0, CHUNK_HEADER_LEN, header);
        var decoded :- DecodeHeader(p, header);
        if CHUNK_HEADER_LEN + decoded.1 > |usable| / 8 {
          return Err(Codec(NotACarrier));
        }
        var payload := image.ExtractBytes(usable, 8 * CHUNK_HEADER_LEN, decoded.1);
        GatheredIs(low, usable, 8 * CHUNK_HEADER_LEN, decoded.1, payload.value);
        return Ok((decoded.0, payload.value));
      case MarkerlessRead(index, payloadLen) =>
        if payloadLen > |usable| / 8 {
          return Err(Codec(NotACarrier));
        }
        var positions :- OrderPositions(p, usable, key, index);
        ArrangedKeeps(usable, p.permutation(key, index, |usable|));
        var payload := image.ExtractBytes(positions, 0, payloadLen);
        GatheredIs(low, positions, 0, payloadLen, payload.value);
        return Ok((ChunkMeta(index, 0), payload.value));
    }
  }

  /** Read a chunk from a PNG image. */
  method ReadPng(p: Primitives, m: Medium, mode: ChunkRead, key: seq<byte>) returns (r: Result<(ChunkMeta, seq<byte>)>)
    requires p.Lawful() && m.Png? && m.WellFormed()
    ensures r == ChunkIn(p, m, mode, key)
  {
    hide Channels, Gathered, DecodeHeader, StreamBit, Arranged;
    var image := new RgbaImage(m.width, m.height, m.pixels);
    var slots := image.width * image.height * 3;
    var identity := UpTo(slots);
    ghost var low := Low(m);
    SlotsFit(m);
    match mode {
      case FramedRead =>
        if key != [] {
          return Err(Codec(InvalidMode));
        }
        var header :- image.ReadBytes(identity, 0, CHUNK_HEADER_LEN);
        GatheredIs(low, identity, 0, CHUNK_HEADER_LEN, header);
        var decoded :- DecodeHeader(p, header);
        if CHUNK_HEADER_LEN + decoded.1 > slots / 8 {
          return Err(Codec(NotACarrier));
        }
        var payload := image.ReadBytes(identity, 8 * CHUNK_HEADER_LEN, decoded.1);
        GatheredIs(low, identity, 8 * CHUNK_HEADER_LEN, decoded.1, payload.value);
        return Ok((decoded.0, payload.value));
      case MarkerlessRead(index, payloadLen) =>
        if payloadLen > slots / 8 {
          return Err(Codec(NotACarrier));
        }
        var positions :- OrderPositions(p, identity, key, index);
        ArrangedKeeps(identity, p.permutation(key, index, |identity|));
        var payload := image.ReadBytes(positions, 0, payloadLen);
        GatheredIs(low, positions, 0, payloadLen, payload.value);
        return Ok((ChunkMeta(index, 0), payload.value));
    }
  }

  method ReadChunk(p: Primitives, m: Medium, mode: ChunkRead, key: seq<byte>)
      returns (r: Result<(ChunkMeta, seq<byte>)>)
    requires p.Lawful() && m.WellFormed()
    ensures r == ChunkIn(p, m, mode, key)
  {
    hide Low, Slots, Gathered;
    if m.Jpeg? {
      r := ReadJpeg(p, m, mode, key);
    } else {
      r := ReadPng(p, m, mode, key);
    }
  }

  // ---------------------------------------------------------------- round trip

  /** How a chunk written in some mode is read. */
  function Matching(mode: ChunkWrite, length: nat): ChunkRead {
    match mode
    case FramedWrite(_) => FramedRead
    case MarkerlessWrite(index) => MarkerlessRead(index, length)
  }

  function MetaOf(mode: ChunkWrite): ChunkMeta {
    match mode
    case FramedWrite(meta) => meta
    case MarkerlessWrite(index) => ChunkMeta(index, 0)
  }

  /** What was written into an image is read back from it, although the reader works out the
      positions from the image that has been written to. */
  lemma ChunkRoundTrip(p: Primitives, m: Medium, m': Medium, mode: ChunkWrite, payload: seq<byte>, key: seq<byte>)
    requires p.Lawful() && m.WellFormed() && WriteOutcome(m, mode, payload, key) == Ok(())
    requires Rewritten(m, m', Chosen(p, Slots(m), mode, key), ChunkBytes(p, mode, payload))
    ensures m'.WellFormed() && ChunkIn(p, m', Matching(mode, |payload|), key) == Ok((MetaOf(mode), payload))
  {
    hide Low, Slots, Cells, Channels, Gathered, EncodeHeader, DecodeHeader, StreamBit, Arranged;
    var positions, bytes := Chosen(p, Slots(m), mode, key), ChunkBytes(p, mode, payload);
    SlotsFit(m');
    match mode {
      case FramedWrite(meta) =>
        var header := EncodeHeader(p, meta, |payload|);
        StreamParts(header, payload);
        GatheredIs(Low(m'), positions, 0, CHUNK_HEADER_LEN, header);
        GatheredIs(Low(m'), positions, 8 * CHUNK_HEADER_LEN, |payload|, payload);
        HeaderRoundTrip(p, meta, |payload|);
      case MarkerlessWrite(index) =>
        GatheredIs(Low(m'), positions, 0, |payload|, payload);
    }
  }

  lemma StreamParts(a: seq<byte>, b: seq<byte>)
    ensures forall i {:trigger StreamBit(a, i)} :: 0 <= i < 8 * |a| ==> StreamBit(a + b, i) == StreamBit(a, i)
    ensures forall i {:trigger StreamBit(b, i)} :: 0 <= i < 8 * |b| ==> StreamBit(a + b, 8 * |a| + i) == StreamBit(b, i)
  {
    hide Bits.BitAt;
  }

  // ---------------------------------------------------------------- what images hold

  /** The sixteen bytes of a chunk header. */
  lemma HeaderLayout(p: Primitives, meta: ChunkMeta, chunkLen: u32)
    ensures var h := EncodeHeader(p, meta, chunkLen);
            && |h| == 16 && h[0..4] == [0x4D, 0x42, 0x4C, 0x41] && h[4..8] == ToLe(meta.chunkIndex, 4)
            && h[8..12] == ToLe(chunkLen, 4) && h[12..14] == ToLe(meta.flags, 2)
            && h[14..16] == ToLe(p.crc16(h[..14]), 2)
  {
    MagicBytes();
    hide ToLe;
    var h := EncodeHeader(p, meta, chunkLen);
    assert h[..14] == HeaderFields(meta, chunkLen);
  }

  lemma MagicBytes()
    ensures ToLe(CHUNK_MAGIC, 4) == [0x4D, 0x42, 0x4C, 0x41]
  {
    assert ToLe(0x41, 1) == [0x41] && ToLe(0x414C, 2) == [0x4C, 0x41] && ToLe(0x41_4C42, 3) == [0x42, 0x4C, 0x41];
  }

  /** Decoding accepts exactly the bytes that encoding produces. */
  lemma HeaderExact(p: Primitives, h: seq<byte>, meta: ChunkMeta, chunkLen: u32)
    ensures DecodeHeader(p, h) == Ok((meta, chunkLen)) <==> |h| >= 16 && h[..16] == EncodeHeader(p, meta, chunkLen)
  {
    hide ToLe, FromLe;
    var e := EncodeHeader(p, meta, chunkLen);
    HeaderRoundTrip(p, meta, chunkLen);
    if DecodeHeader(p, h) == Ok((meta, chunkLen)) {
      ToFromLe(h[0..4]);
      ToFromLe(h[4..8]);
      ToFromLe(h[8..12]);
      ToFromLe(h[12..14]);
      ToFromLe(h[14..16]);
      assert h[0..14] == h[0..4] + h[4..8] + h[8..12] + h[12..14];
      assert h[..16] == h[0..14] + h[14..16];
    }
    if |h| >= 16 && h[..16] == e {
      assert h[0..4] == e[0..4] && h[4..8] == e[4..8] && h[8..12] == e[8..12] && h[12..14] == e[12..14];
      assert h[0..14] == e[0..14] && h[14..16] == e[14..16];
    }
  }

  /** It is no chunk without the magic number, and a damaged one without the checksum. */
  lemma HeaderErrors(p: Primitives, h: seq<byte>)
    ensures DecodeHeader(p, h) == Err(Codec(NotACarrier)) <==> |h| < 16 || h[0..4] != [0x4D, 0x42, 0x4C, 0x41]
    ensures DecodeHeader(p, h) == Err(Codec(HeaderCrc)) <==>
      |h| >= 16 && h[0..4] == [0x4D, 0x42, 0x4C, 0x41] && h[14..16] != ToLe(p.crc16(h[..14]), 2)
    ensures DecodeHeader(p, h).Err? ==> DecodeHeader(p, h).error in {Codec(NotACarrier), Codec(HeaderCrc)}
  {
    MagicBytes();
    hide ToLe, FromLe;
    RangeValues();
    if |h| >= 16 {
      FieldIs(h[0..4], CHUNK_MAGIC);
      ToFromLe(h[14..16]);
      FromToLe(p.crc16(h[..14]), 2);
      assert h[0..14] == h[..14];
    }
  }

  /** The bits of `bytes` stand in the low bits of the image at `positions`. */
  ghost predicate HoldsBits(m: Medium, positions: seq<nat>, bytes: seq<byte>)
    requires m.WellFormed()
  {
    && 8 * |bytes| <= |positions| && InRange(positions, |Low(m)|)
    && forall i {:trigger StreamBit(bytes, i)} :: 0 <= i < 8 * |bytes| ==>
      Low(m)[positions[i]] == StreamBit(bytes, i)
  }

  /** An image holds a plain chunk exactly when the bits of its header and payload stand in the low
      bits at its usable positions, from the first on. */
  lemma PlainChunk(p: Primitives, m: Medium, meta: ChunkMeta, payload: seq<byte>)
    requires p.Lawful() && m.WellFormed() && |payload| <= 0xFFFF_FFFF
    ensures ChunkIn(p, m, FramedRead, []) == Ok((meta, payload)) <==>
            HoldsBits(m, Slots(m), EncodeHeader(p, meta, |payload|) + payload)
  {
    hide Low, Slots, Gathered, EncodeHeader, DecodeHeader, StreamBit, HoldsBits;
    SlotsFit(m);
    var low, slots, header := Low(m), Slots(m), EncodeHeader(p, meta, |payload|);
    if HoldsBits(m, slots, header + payload) {
      HeldParts(m, slots, header, payload);
      HeaderRoundTrip(p, meta, |payload|);
    }
    if ChunkIn(p, m, FramedRead, []) == Ok((meta, payload)) {
      HeaderExact(p, Gathered(low, slots, 0, CHUNK_HEADER_LEN), meta, |payload|);
      assert Gathered(low, slots, 0, CHUNK_HEADER_LEN)[..16] == Gathered(low, slots, 0, CHUNK_HEADER_LEN);
      PartsHeld(m, slots, header, payload);
    }
  }

  lemma HeldParts(m: Medium, positions: seq<nat>, a: seq<byte>, b: seq<byte>)
    requires m.WellFormed() && HoldsBits(m, positions, a + b)
    ensures 8 * |a| + 8 * |b| <= |positions| && InRange(positions, |Low(m)|)
    ensures Gathered(Low(m), positions, 0, |a|) == a && Gathered(Low(m), positions, 8 * |a|, |b|) == b
  {
    hide Low, Gathered, StreamBit;
    StreamParts(a, b);
    GatheredIs(Low(m), positions, 0, |a|, a);
    GatheredIs(Low(m), positions, 8 * |a|, |b|, b);
  }

  lemma PartsHeld(m: Medium, positions: seq<nat>, a: seq<byte>, b: seq<byte>)
    requires m.WellFormed() && 8 * |a| + 8 * |b| <= |positions| && InRange(positions, |Low(m)|)
    requires Gathered(Low(m), positions, 0, |a|) == a && Gathered(Low(m), positions, 8 * |a|, |b|) == b
    ensures HoldsBits(m, positions, a + b)
  {
    hide Low, Gathered, StreamBit;
    StreamParts(a, b);
    forall i | 0 <= i < 8 * |a + b|
      ensures Low(m)[positions[i]] == StreamBit(a + b, i)
    {
      if i < 8 * |a| {
        GatheredAt(Low(m), positions, 0, |a|, i);
        assert StreamBit(a + b, i) == StreamBit(a, i);
      } else {
        GatheredAt(Low(m), positions, 8 * |a|, |b|, i - 8 * |a|);
        assert StreamBit(a + b, 8 * |a| + (i - 8 * |a|)) == StreamBit(b, i - 8 * |a|);
      }
    }
  }

  /** And one without a header under a key exactly when the bits of the payload stand there in the
      order that key and chunk index give. */
  lemma KeyedChunk(p: Primitives, m: Medium, index: u32, length: nat, key: seq<byte>, payload: seq<byte>)
    requires p.Lawful() && m.WellFormed() && |key| == 32 && |payload| == length
    ensures ChunkIn(p, m, MarkerlessRead(index, length), key) == Ok((ChunkMeta(index, 0), payload)) <==>
            HoldsBits(m, Arranged(Slots(m), p.permutation(key, index, |Slots(m)|)), payload)
  {
    hide Low, Slots, Gathered, StreamBit, HoldsBits, Arranged;
    SlotsFit(m);
    var positions := Arranged(Slots(m), p.permutation(key, index, |Slots(m)|));
    ArrangedKeeps(Slots(m), p.permutation(key, index, |Slots(m)|));
    assert payload == payload + [] == [] + payload;
    if HoldsBits(m, positions, payload) {
      HeldParts(m, positions, payload, []);
    }
    if ChunkIn(p, m, MarkerlessRead(index, length), key) == Ok((ChunkMeta(index, 0), payload)) {
      NothingGathered(m, positions, 8 * |payload|);
      PartsHeld(m, positions, payload, []);
    }
  }

  lemma NothingGathered(m: Medium, positions: seq<nat>, offset: nat)
    requires m.WellFormed() && offset <= |positions| && InRange(positions, |Low(m)|)
    ensures Gathered(Low(m), positions, offset, 0) == []
  {
    hide Low;
  }

  /** Why an image is refused as a plain chunk: a key is given, it has no room for a header, its
      first bits are no header, or what the header says does not fit. */
  lemma PlainChunkErrors(p: Primitives, m: Medium, key: seq<byte>)
    requires p.Lawful() && m.WellFormed()
    ensures key != [] ==> ChunkIn(p, m, FramedRead, key) == Err(Codec(InvalidMode))
    ensures key == [] && |Slots(m)| < 128 ==> ChunkIn(p, m, FramedRead, key) == Err(Codec(NotACarrier))
    ensures forall h: seq<byte> :: key == [] && |h| == 16 && HoldsBits(m, Slots(m), h) ==>
      match DecodeHeader(p, h)
      case Err(e) => ChunkIn(p, m, FramedRead, key) == Err(e)
      case Ok((meta, length)) =>
        8 * (16 + length) > |Slots(m)| ==> ChunkIn(p, m, FramedRead, key) == Err(Codec(NotACarrier))
  {
    hide Low, Slots, Gathered, DecodeHeader, StreamBit, HoldsBits;
    SlotsFit(m);
    forall h: seq<byte> | |h| == 16 && HoldsBits(m, Slots(m), h)
      ensures 128 <= |Slots(m)| && Gathered(Low(m), Slots(m), 0, 16) == h
    {
      assert h + [] == h;
      HeldParts(m, Slots(m), h, []);
    }
  }

  /** And as one under a key: it is too small, or the key has not 32 bytes. */
  lemma KeyedChunkErrors(p: Primitives, m: Medium, index: u32, length: nat, key: seq<byte>)
    requires p.Lawful() && m.WellFormed()
    ensures 8 * length > |Slots(m)| ==> ChunkIn(p, m, MarkerlessRead(index, length), key) == Err(Codec(NotACarrier))
    ensures 8 * length <= |Slots(m)| && |key| != 32 ==>
      ChunkIn(p, m, MarkerlessRead(index, length), key) == Err(Codec(InvalidMode))
  {
    hide Low, Slots, Gathered, Arranged;
  }

  /** A chunk can be written when its mode has the key it takes and each bit of it has a position. */
  lemma WriteAnswer(m: Medium, mode: ChunkWrite, payload: seq<byte>, key: seq<byte>)
    requires m.WellFormed()
    ensures mode.FramedWrite? ==>
      WriteOutcome(m, mode, payload, key) ==
      if key != [] then Err(Codec(InvalidMode))
      else if |payload| >= 0x1_0000_0000 || 8 * (16 + |payload|) > |Slots(m)| then Err(Codec(PayloadTooLarge))
      else Ok(())
    ensures mode.MarkerlessWrite? ==>
      WriteOutcome(m, mode, payload, key) ==
      if 8 * |payload| > |Slots(m)| then Err(Codec(PayloadTooLarge))
      else if |key| != 32 then Err(Codec(InvalidMode))
      else Ok(())
  {
    hide Slots;
  }

  /** The usable positions of a JPEG image: all coefficients of magnitude two or more but the first
      of each block. */
  lemma JpegSlots(components: seq<seq<CoefBlock>>, i: nat)
    ensures var cells := Cells(components);
            i in Slots(Medium.Jpeg(components)) <==>
              i < |cells| && i % 64 != 0 && (cells[i] >= 2 || cells[i] <= -2)
  {
    hide Cells, Usable;
    UsableMembers(Cells(components), |Cells(components)|, i);
  }

  /** They come in order. */
  lemma JpegSlotsOrdered(components: seq<seq<CoefBlock>>, a: nat, b: nat)
    requires a < b < |Slots(Medium.Jpeg(components))|
    ensures Slots(Medium.Jpeg(components))[a] < Slots(Medium.Jpeg(components))[b]
  {
    hide Cells, Usable;
    UsableOrdered(Cells(components), |Cells(components)|);
  }

  /** The bit of a coefficient is that of its magnitude. */
  lemma JpegBit(components: seq<seq<CoefBlock>>, i: nat)
    ensures |Low(Medium.Jpeg(components))| == |Cells(components)|
    ensures i < |Cells(components)| ==>
      var c: int := Cells(components)[i];
      Low(Medium.Jpeg(components))[i] == (if c < 0 then 0 - c else c) % 2
  {
    hide Cells;
  }

  lemma {:induction false} UsableOrdered(cells: seq<coef>, n: nat)
    requires n <= |cells|
    ensures forall a, b :: 0 <= a < b < |Usable(cells, n)| ==> Usable(cells, n)[a] < Usable(cells, n)[b]
  {
    hide UsableAt;
    if n > 0 {
      UsableOrdered(cells, n - 1);
      UsableDistinct(cells, n - 1);
    }
  }

  /** Those of a PNG image: red, green and blue of every pixel, in the order of the pixels. */
  lemma PngSlots(width: nat, height: nat, pixels: seq<byte>, i: nat)
    requires |pixels| == 4 * (width * height)
    ensures var m := Png(width, height, pixels);
            && |Low(m)| == |Slots(m)| == 3 * (width * height)
            && (i < 3 * (width * height) ==>
              && Slots(m)[i] == i && i / 3 * 4 + i % 3 < |pixels|
              && Low(m)[i] == pixels[i / 3 * 4 + i % 3] % 2)
  {
    if i < 3 * (width * height) {
      ChannelInside(width * height, i);
      ChannelValue(pixels, width * height, i);
    }
  }
}
