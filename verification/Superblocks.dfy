/** The superblock and its encodings: versions 1 and 2 with carriers numbered only, version 3 with
    carriers named. */
module Superblocks {
  import opened Bytes
  import opened Layout
  import opened Wrappers
  import opened Primitives
  import Manifests
  import opened Dirents

  const SB_MAGIC: seq<byte> := [65, 76, 66, 85, 77, 70, 83, 0]
  const MARKERLESS_FS_VERSION: u32 := 3

  datatype NamedRange = NamedRange(name: Name, range: Manifests.CarrierRange)

  datatype Superblock = Superblock(
    version: u32, blockSize: u32, usableSize: u32, totalBlocks: u64, inodeCount: u64, bitmapStart: u64,
    inodeTableStart: u64, dataStart: u64, rootInode: u64, cryptoFlags: u32, salt: seq<byte>,
    argonMem: u32, argonIters: u32, argonParallel: u32, manifest: seq<NamedRange>)

  /** Not empty, not `.` or `..`, no slash or backslash, length fits two bytes. */
  predicate ValidName(name: Name) {
    name != [] && name != DOT && name != DOTDOT && 47 !in name && 92 !in name && |name| <= 0xFFFF
  }

  /** A carrier cannot be called nothing, `.`, `..` or a path. */
  lemma ValidNames(name: Name)
    ensures ValidName(name) <==>
      && 0 < |name| < 0x1_0000 && name != [46] && name != [46, 46]
      && forall k :: 0 <= k < |name| ==> name[k] != 0x2F && name[k] != 0x5C
  {
    hide Utf8;
  }

  /** What the program stores: salt and cost parameters in version 2 only, names from version 3
      on only. */
  predicate WellFormed(sb: Superblock) {
    && 1 <= sb.version <= 3 && |sb.salt| == 16 && |sb.manifest| < 0x1_0000_0000
    && (sb.version != 2 ==> sb.salt == Zeros(16) && sb.argonMem == 0 && sb.argonIters == 0 && sb.argonParallel == 0)
    && forall i {:trigger sb.manifest[i]} :: 0 <= i < |sb.manifest| ==> RangeFits(sb.version, sb.manifest[i])
  }

  predicate RangeFits(version: u32, r: NamedRange) {
    && r.range.blockStart < 0x1_0000_0000_0000_0000 && r.range.blockCount < 0x1_0000_0000_0000_0000
    && if version >= MARKERLESS_FS_VERSION then ValidName(r.name) else r.name == []
  }

  function HeaderLen(version: u32): nat {
    if version == 2 then 108 else 80
  }

  // ---------------------------------------------------------------- encoding

  function RangeBytes(version: u32, r: NamedRange): (s: seq<byte>)
    ensures |s| == (if version >= MARKERLESS_FS_VERSION then 2 + |r.name| else 0) + 20
  {
    (if version >= MARKERLESS_FS_VERSION then ToLe(|r.name| % 0x1_0000, 2) + r.name else [])
    + ToLe(r.range.chunkIndex, 4) + ToLe(r.range.blockStart, 8) + ToLe(r.range.blockCount, 8)
  }

  function ManifestBytes(version: u32, manifest: seq<NamedRange>): seq<byte> {
    if manifest == [] then []
    else ManifestBytes(version, manifest[..|manifest| - 1]) + RangeBytes(version, manifest[|manifest| - 1])
  }

  /** The header, with the checksum field given. */
  function HeaderBytes(sb: Superblock, crc: seq<byte>): (h: seq<byte>)
    requires |crc| == 4 && |sb.salt| == 16
    ensures |h| == HeaderLen(sb.version)
  {
    SB_MAGIC + ToLe(sb.version, 4) + ToLe(sb.blockSize, 4) + ToLe(sb.usableSize, 4) + ToLe(sb.totalBlocks, 8)
    + ToLe(sb.inodeCount, 8) + ToLe(sb.bitmapStart, 8) + ToLe(sb.inodeTableStart, 8) + ToLe(sb.dataStart, 8)
    + ToLe(sb.rootInode, 8) + ToLe(|sb.manifest| % 0x1_0000_0000, 4) + ToLe(sb.cryptoFlags, 4) + crc
    + if sb.version == 2 then sb.salt + ToLe(sb.argonMem, 4) + ToLe(sb.argonIters, 4) + ToLe(sb.argonParallel, 4)
        else []
  }

  /** Header and manifest; the checksum covers exactly these bytes, its own field counted as zero. */
  function Encoded(p: Primitives, sb: Superblock): (s: seq<byte>)
    requires |sb.salt| == 16
  {
    var manifest := ManifestBytes(sb.version, sb.manifest);
    HeaderBytes(sb, ToLe(p.crc32(HeaderBytes(sb, Zeros(4)) + manifest), 4)) + manifest
  }

  /** Encode a superblock: the header first, then one carrier after the other, the checksum last. */
  method Encode(p: Primitives, sb: Superblock) returns (bytes: seq<byte>)
    requires |sb.salt| == 16
    ensures bytes == Encoded(p, sb)
  {
    hide Utf8, RangeBytes, HeaderBytes, ManifestBytes;
    var manifestLen := ManifestLen(sb.version, sb.manifest);
    ghost var header := HeaderBytes(sb, Zeros(4));
    bytes := HeaderBytes(sb, Zeros(4)) + Zeros(manifestLen);
    var offset: nat := HeaderLen(sb.version);
    NoManifest(sb.version, sb.manifest[..0]);
    for i := 0 to |sb.manifest|
      invariant |bytes| == |header| + manifestLen
      invariant offset <= |bytes| && bytes[..offset] == header + ManifestBytes(sb.version, sb.manifest[..i])
    {
      var entry := RangeBytes(sb.version, sb.manifest[i]);
      ManifestStep(sb.version, sb.manifest, i);
      ManifestGrows(sb.version, sb.manifest, i + 1);
      Extended(bytes, offset, header + ManifestBytes(sb.version, sb.manifest[..i]), entry);
      bytes := Patch(bytes, offset, entry);
      offset := offset + |entry|;
      assert header + ManifestBytes(sb.version, sb.manifest[..i]) + entry ==
          header + (ManifestBytes(sb.version, sb.manifest[..i]) + entry);
    }
    assert sb.manifest[..|sb.manifest|] == sb.manifest;
    assert offset == |bytes[..offset]| == |bytes|;
    assert bytes[..|bytes|] == bytes;
    CrcPatched(sb, bytes, ToLe(p.crc32(bytes), 4));
    bytes := Patch(bytes, 76, ToLe(p.crc32(bytes), 4));
  }

  /** The number of bytes the manifest takes. */
  method ManifestLen(version: u32, manifest: seq<NamedRange>) returns (n: nat)
    ensures n == |ManifestBytes(version, manifest)|
  {
    hide Utf8, RangeBytes, ManifestBytes;
    n := 0;
    NoManifest(version, manifest[..0]);
    for i := 0 to |manifest|
      invariant n == |ManifestBytes(version, manifest[..i])|
    {
      ManifestStep(version, manifest, i);
      n := n + if version >= MARKERLESS_FS_VERSION then 2 + |manifest[i].name| + 20 else 20;
    }
    assert manifest[..|manifest|] == manifest;
  }

  lemma NoManifest(version: u32, manifest: seq<NamedRange>)
    requires manifest == []
    ensures ManifestBytes(version, manifest) == []
  {
  }

  lemma {:induction false} ManifestStep(version: u32, manifest: seq<NamedRange>, i: nat)
    requires i < |manifest|
    ensures ManifestBytes(version, manifest[..i + 1]) ==
      ManifestBytes(version, manifest[..i]) + RangeBytes(version, manifest[i])
  {
    hide Utf8, RangeBytes;
    assert manifest[..i + 1][..i] == manifest[..i];
  }

  lemma Extended(bytes: seq<byte>, offset: nat, done: seq<byte>, entry: seq<byte>)
    requires offset + |entry| <= |bytes| && bytes[..offset] == done
    ensures Patch(bytes, offset, entry)[..offset + |entry|] == done + entry
  {
    var bytes' := Patch(bytes, offset, entry);
    PatchElsewhere(bytes, offset, entry, 0, offset);
    assert bytes'[..offset] == bytes'[0..offset] == bytes[0..offset] == bytes[..offset];
    assert bytes'[..offset + |entry|] == bytes'[..offset] + bytes'[offset..offset + |entry|];
  }

  lemma {:induction false} ManifestGrows(version: u32, manifest: seq<NamedRange>, i: nat)
    requires i <= |manifest|
    ensures |ManifestBytes(version, manifest[..i])| <= |ManifestBytes(version, manifest)|
    decreases |manifest|
  {
    hide Utf8, RangeBytes;
    if i < |manifest| {
      assert manifest[..|manifest| - 1][..i] == manifest[..i];
      ManifestGrows(version, manifest[..|manifest| - 1], i);
    } else {
      assert manifest[..i] == manifest;
    }
  }

  /** The checksum field stands at bytes 76 to 79. */
  lemma CrcPatched(sb: Superblock, bytes: seq<byte>, crc: seq<byte>)
    requires |sb.salt| == 16 && |crc| == 4
    requires bytes == HeaderBytes(sb, Zeros(4)) + ManifestBytes(sb.version, sb.manifest)
    ensures |bytes| >= 80 && Patch(bytes, 76, crc) == HeaderBytes(sb, crc) + ManifestBytes(sb.version, sb.manifest)
  {
    hide ToLe, Utf8, ManifestBytes;
    var m := ManifestBytes(sb.version, sb.manifest);
    var front := HeaderBytes(sb, Zeros(4))[..76];
    var back := HeaderBytes(sb, Zeros(4))[80..];
    assert HeaderBytes(sb, Zeros(4)) == front + Zeros(4) + back;
    assert HeaderBytes(sb, crc) == front + crc + back;
    assert Patch(bytes, 76, crc) == front + crc + back + m;
  }

  // ---------------------------------------------------------------- decoding

  /** One carrier's entry at `offset`, and where the next one starts. */
  function DecodeRange(version: u32, buf: seq<byte>, offset: nat): (r: Result<(NamedRange, nat)>)
    ensures r.Ok? ==> offset < r.value.1 <= |buf|
  {
    if version < MARKERLESS_FS_VERSION then DecodeNumbers([], buf, offset)
    else if offset + 2 > |buf| then Err(Manifest)
    else
      var start := offset + 2;
      var end := start + FromLe16(buf[offset..start]);
      if end > |buf| then Err(Manifest)
      else
        var name := buf[start..end];
        if !Utf8(name) || !ValidName(name) then Err(Manifest)
        else DecodeNumbers(name, buf, end)
  }

  function DecodeNumbers(name: Name, buf: seq<byte>, offset: nat): (r: Result<(NamedRange, nat)>)
    ensures r.Ok? ==> r.value.1 == offset + 20 <= |buf|
  {
    if offset + 20 > |buf| then Err(Manifest)
    else
      Ok((NamedRange(name, Manifests.CarrierRange(FromLe32(buf[offset..offset + 4]),
          FromLe64(buf[offset + 4..offset + 12]), FromLe64(buf[offset + 12..offset + 20]))),
          offset + 20))
  }

  /** `count` entries from `offset` on, and where they end. */
  function DecodeRanges(version: u32, buf: seq<byte>, offset: nat, count: nat): (r: Result<(seq<NamedRange>, nat)>)
    requires offset <= |buf|
    ensures r.Ok? ==> offset <= r.value.1 <= |buf|
    decreases count
  {
    if count == 0 then Ok(([], offset))
    else
      match DecodeRange(version, buf, offset)
      case Err(e) => Err(e)
      case Ok((first, next)) =>
        match DecodeRanges(version, buf, next, count - 1)
        case Err(e) => Err(e)
        case Ok((rest, end)) => Ok(([first] + rest, end))
  }

  /** The superblock at the start of a buffer that may be longer. */
  function Decoded(p: Primitives, buf: seq<byte>): Result<Superblock> {
    if |buf| < 80 || buf[0..8] != SB_MAGIC then Err(BadMagic)
    else
      var version := FromLe32(buf[8..12]);
      if !(1 <= version <= 3) then Err(Manifest)
      else if |buf| < HeaderLen(version) then Err(Manifest)
      else
        match DecodeRanges(version, buf, HeaderLen(version), FromLe32(buf[68..72]))
        case Err(e) => Err(e)
        case Ok((manifest, end)) =>
          if p.crc32(Patch(buf[..end], 76, Zeros(4))) != FromLe32(buf[76..80]) then Err(SuperblockCrc)
          else Ok(Fields(buf, manifest))
  }

  function Fields(buf: seq<byte>, manifest: seq<NamedRange>): Superblock
    requires |buf| >= 80 && (FromLe32(buf[8..12]) == 2 ==> |buf| >= 108)
  {
    var version := FromLe32(buf[8..12]);
    Superblock(
      version, FromLe32(buf[12..16]), FromLe32(buf[16..20]), FromLe64(buf[20..28]), FromLe64(buf[28..36]),
          FromLe64(buf[36..44]),
      FromLe64(buf[44..52]), FromLe64(buf[52..60]), FromLe64(buf[60..68]), FromLe32(buf[72..76]),
      if version == 2 then buf[80..96] else Zeros(16),
      if version == 2 then FromLe32(buf[96..100]) else 0,
      if version == 2 then FromLe32(buf[100..104]) else 0,
      if version == 2 then FromLe32(buf[104..108]) else 0,
      manifest)
  }

  /** Decode a superblock, moving through the manifest entry by entry. */
  method Decode(p: Primitives, buf: seq<byte>) returns (r: Result<Superblock>)
    ensures r == Decoded(p, buf)
  {
    hide Utf8, DecodeRange, FromLe, Fields;
    if |buf| < 80 || buf[0..8] != SB_MAGIC {
      return Err(BadMagic);
    }
    var version := FromLe32(buf[8..12]);
    if !(1 <= version <= 3) {
      return Err(Manifest);
    }
    if |buf| < HeaderLen(version) {
      return Err(Manifest);
    }
    var imageCount := FromLe32(buf[68..72]);
    var manifest: seq<NamedRange> := [];
    var offset: nat := HeaderLen(version);
    ghost var all := DecodeRanges(version, buf, offset, imageCount);
    NothingFirst(all);
    for i := 0 to imageCount
      invariant offset <= |buf|
      invariant all == After(manifest, DecodeRanges(version, buf, offset, imageCount - i))
    {
      var entry :- DecodeRange(version, buf, offset);
      OneMore(manifest, entry.0, DecodeRanges(version, buf, entry.1, imageCount - i - 1));
      manifest := manifest + [entry.0];
      offset := entry.1;
    }
    NoneLeft(manifest, version, buf, offset);
    if p.crc32(Patch(buf[..offset], 76, Zeros(4))) != FromLe32(buf[76..80]) {
      return Err(SuperblockCrc);
    }
    return Ok(Fields(buf, manifest));
  }

  /** Entries that come after those in `done`. */
  function After(done: seq<NamedRange>, r: Result<(seq<NamedRange>, nat)>): Result<(seq<NamedRange>, nat)> {
    match r
    case Ok((rest, end)) => Ok((done + rest, end))
    case Err(e) => Err(e)
  }

  lemma NothingFirst(r: Result<(seq<NamedRange>, nat)>)
    ensures After([], r) == r
  {
    hide Utf8;
    if r.Ok? {
      assert [] + r.value.0 == r.value.0;
    }
  }

  lemma OneMore(done: seq<NamedRange>, e: NamedRange, r: Result<(seq<NamedRange>, nat)>)
    ensures After(done + [e], r) == After(done, match r { case Ok((rest, end)) => Ok(([e] + rest, end)) case Err(x) =>
      Err(x) })
  {
    hide Utf8;
    if r.Ok? {
      assert done + [e] + r.value.0 == done + ([e] + r.value.0);
    }
  }

  lemma NoneLeft(done: seq<NamedRange>, version: u32, buf: seq<byte>, offset: nat)
    requires offset <= |buf|
    ensures After(done, DecodeRanges(version, buf, offset, 0)) == Ok((done, offset))
  {
    hide Utf8;
    assert done + [] == done;
  }

  // ---------------------------------------------------------------- round trip

  /** One entry decodes to the range it encodes, wherever it stands. */
  lemma {:induction false} RangeRoundTrip(version: u32, r: NamedRange, before: seq<byte>, after: seq<byte>)
    requires RangeFits(version, r)
    ensures DecodeRange(version, before + RangeBytes(version, r) + after, |before|) ==
      Ok((r, |before| + |RangeBytes(version, r)|))
  {
    hide Utf8, ToLe, FromLe, ValidName;
    var buf := before + RangeBytes(version, r) + after;
    var at := |before|;
    RangeValues();
    if version >= MARKERLESS_FS_VERSION {
      ShortName(r.name);
      FromToLe(|r.name|, 2);
      assert buf[at..at + 2] == ToLe(|r.name|, 2);
      assert buf[at + 2..at + 2 + |r.name|] == r.name;
      at := at + 2 + |r.name|;
    }
    NumbersRoundTrip(r, before + (if version >= MARKERLESS_FS_VERSION then ToLe(|r.name| % 0x1_0000, 2) + r.name
        else []), after);
    assert buf == before + (if version >= MARKERLESS_FS_VERSION then ToLe(|r.name| % 0x1_0000, 2) + r.name else [])
      + (ToLe(r.range.chunkIndex, 4) + ToLe(r.range.blockStart, 8) + ToLe(r.range.blockCount, 8)) + after;
  }

  lemma ShortName(name: Name)
    requires ValidName(name)
    ensures |name| % 0x1_0000 == |name|
  {
    hide Utf8;
  }

  lemma NumbersRoundTrip(r: NamedRange, before: seq<byte>, after: seq<byte>)
    requires r.range.blockStart < 0x1_0000_0000_0000_0000 && r.range.blockCount < 0x1_0000_0000_0000_0000
    ensures var buf := before + (ToLe(r.range.chunkIndex, 4) + ToLe(r.range.blockStart, 8)
      + ToLe(r.range.blockCount, 8)) + after;
            DecodeNumbers(r.name, buf, |before|) == Ok((r, |before| + 20))
  {
    hide Utf8, ToLe, FromLe;
    var buf := before + (ToLe(r.range.chunkIndex, 4) + ToLe(r.range.blockStart, 8) + ToLe(r.range.blockCount, 8))
        + after;
    var at := |before|;
    RangeValues();
    FromToLe(r.range.chunkIndex, 4);
    FromToLe(r.range.blockStart, 8);
    FromToLe(r.range.blockCount, 8);
    assert buf[at..at + 4] == ToLe(r.range.chunkIndex, 4);
    assert buf[at + 4..at + 12] == ToLe(r.range.blockStart, 8);
    assert buf[at + 12..at + 20] == ToLe(r.range.blockCount, 8);
  }

  /** A whole manifest decodes to the carriers it encodes. */
  lemma {:induction false} ManifestRoundTrip(version: u32, manifest: seq<NamedRange>, before: seq<byte>,
      after: seq<byte>, k: nat)
    requires forall i {:trigger manifest[i]} :: 0 <= i < |manifest| ==> RangeFits(version, manifest[i])
    requires k <= |manifest|
    ensures var buf := before + ManifestBytes(version, manifest) + after;
            var at := |before| + |ManifestBytes(version, manifest[..k])|;
            at <= |buf| && DecodeRanges(version, buf, at, |manifest| - k) ==
                Ok((manifest[k..], |before| + |ManifestBytes(version, manifest)|))
    decreases |manifest| - k
  {
    hide Utf8, RangeBytes, DecodeRange, RangeFits, ManifestBytes;
    ManifestGrows(version, manifest, k);
    if k < |manifest| {
      ManifestRoundTrip(version, manifest, before, after, k + 1);
      ManifestStep(version, manifest, k);
      var tail := ManifestTail(version, manifest, k + 1);
      var buf := before + ManifestBytes(version, manifest) + after;
      assert buf == (before + ManifestBytes(version, manifest[..k])) + RangeBytes(version, manifest[k])
          + (tail + after);
      RangeRoundTrip(version, manifest[k], before + ManifestBytes(version, manifest[..k]), tail + after);
      assert [manifest[k]] + manifest[k + 1..] == manifest[k..];
    } else {
      assert manifest[..k] == manifest && manifest[k..] == [];
    }
  }

  /** What comes after the first `k` entries. */
  lemma {:induction false} ManifestTail(version: u32, manifest: seq<NamedRange>, k: nat) returns (tail: seq<byte>)
    requires k <= |manifest|
    ensures ManifestBytes(version, manifest) == ManifestBytes(version, manifest[..k]) + tail
    decreases |manifest| - k
  {
    hide Utf8, RangeBytes, ManifestBytes;
    if k == |manifest| {
      assert manifest[..k] == manifest;
      tail := [];
    } else {
      var rest := ManifestTail(version, manifest, k + 1);
      ManifestStep(version, manifest, k);
      tail := RangeBytes(version, manifest[k]) + rest;
    }
  }

  /** The fixed fields of an encoded superblock. */
  lemma HeaderFields(sb: Superblock, crc: seq<byte>, rest: seq<byte>)
    requires WellFormed(sb) && |crc| == 4
    ensures var buf := HeaderBytes(sb, crc) + rest;
            && buf[0..8] == SB_MAGIC && buf[76..80] == crc
            && FromLe32(buf[8..12]) == sb.version && FromLe32(buf[68..72]) == |sb.manifest|
            && Fields(buf, sb.manifest) == sb
  {
    hide Utf8, ToLe, FromLe;
    var buf := HeaderBytes(sb, crc) + rest;
    RangeValues();
    FromToLe(sb.version, 4);
    FromToLe(sb.blockSize, 4);
    FromToLe(sb.usableSize, 4);
    FromToLe(sb.totalBlocks, 8);
    FromToLe(sb.inodeCount, 8);
    FromToLe(sb.bitmapStart, 8);
    FromToLe(sb.inodeTableStart, 8);
    FromToLe(sb.dataStart, 8);
    FromToLe(sb.rootInode, 8);
    FromToLe(|sb.manifest|, 4);
    FromToLe(sb.cryptoFlags, 4);
    assert buf[8..12] == ToLe(sb.version, 4) && buf[12..16] == ToLe(sb.blockSize, 4)
        && buf[16..20] == ToLe(sb.usableSize, 4);
    assert buf[20..28] == ToLe(sb.totalBlocks, 8) && buf[28..36] == ToLe(sb.inodeCount, 8)
        && buf[36..44] == ToLe(sb.bitmapStart, 8);
    assert buf[44..52] == ToLe(sb.inodeTableStart, 8) && buf[52..60] == ToLe(sb.dataStart, 8)
        && buf[60..68] == ToLe(sb.rootInode, 8);
    assert buf[68..72] == ToLe(|sb.manifest|, 4) && buf[72..76] == ToLe(sb.cryptoFlags, 4);
    if sb.version == 2 {
      CostFields(sb, crc, rest);
    }
  }

  lemma CostFields(sb: Superblock, crc: seq<byte>, rest: seq<byte>)
    requires WellFormed(sb) && |crc| == 4 && sb.version == 2
    ensures var buf := HeaderBytes(sb, crc) + rest;
            && buf[80..96] == sb.salt && FromLe32(buf[96..100]) == sb.argonMem
            && FromLe32(buf[100..104]) == sb.argonIters && FromLe32(buf[104..108]) == sb.argonParallel
  {
    hide Utf8, ToLe, FromLe;
    var buf := HeaderBytes(sb, crc) + rest;
    RangeValues();
    FromToLe(sb.argonMem, 4);
    FromToLe(sb.argonIters, 4);
    FromToLe(sb.argonParallel, 4);
    assert buf[96..100] == ToLe(sb.argonMem, 4);
    assert buf[100..104] == ToLe(sb.argonIters, 4) && buf[104..108] == ToLe(sb.argonParallel, 4);
  }

  /** A superblock of any version, with any carriers, is decoded from its encoding, whatever
      follows it in the buffer. */
  lemma SuperblockRoundTrip(p: Primitives, sb: Superblock, padding: seq<byte>)
    requires WellFormed(sb)
    ensures Decoded(p, Encoded(p, sb) + padding) == Ok(sb)
  {
    hide Utf8, ToLe, FromLe, HeaderBytes, ManifestBytes, DecodeRanges, Fields;
    var m := ManifestBytes(sb.version, sb.manifest);
    var plain := HeaderBytes(sb, Zeros(4)) + m;
    var crc := ToLe(p.crc32(plain), 4);
    var header := HeaderBytes(sb, crc);
    var buf := Encoded(p, sb) + padding;
    assert buf == header + (m + padding);
    HeaderFields(sb, crc, m + padding);
    ManifestRoundTrip(sb.version, sb.manifest, header, padding, 0);
    assert buf == header + m + padding;
    assert sb.manifest[..0] == [] && sb.manifest[0..] == sb.manifest;
    NoManifest(sb.version, sb.manifest[..0]);
    RangeValues();
    FromToLe(p.crc32(plain), 4);
    assert buf[..|header| + |m|] == header + m;
    CrcCleared(sb, crc);
  }

  /** Zeroing the checksum field gives back the bytes it was computed over. */
  lemma {:induction false} CrcCleared(sb: Superblock, crc: seq<byte>)
    requires |sb.salt| == 16 && |crc| == 4
    ensures var bytes := HeaderBytes(sb, crc) + ManifestBytes(sb.version, sb.manifest);
            |bytes| >= 80 && Patch(bytes, 76, Zeros(4)) ==
                HeaderBytes(sb, Zeros(4)) + ManifestBytes(sb.version, sb.manifest)
  {
    hide ToLe, Utf8, ManifestBytes;
    var m := ManifestBytes(sb.version, sb.manifest);
    var front := HeaderBytes(sb, crc)[..76];
    var back := HeaderBytes(sb, crc)[80..];
    assert HeaderBytes(sb, crc) == front + crc + back;
    assert HeaderBytes(sb, Zeros(4)) == front + Zeros(4) + back;
    assert Patch(front + crc + back + m, 76, Zeros(4)) == front + Zeros(4) + back + m;
  }

  // ---------------------------------------------------------------- what decoding accepts

  /** The fields of the header. */
  lemma HeaderLayout(sb: Superblock, crc: seq<byte>)
    requires |crc| == 4 && |sb.salt| == 16
    ensures var h := HeaderBytes(sb, crc);
            && |h| == (if sb.version == 2 then 108 else 80)
            && h[0..8] == [65, 76, 66, 85, 77, 70, 83, 0] && h[8..12] == ToLe(sb.version, 4)
            && h[12..16] == ToLe(sb.blockSize, 4) && h[16..20] == ToLe(sb.usableSize, 4)
            && h[20..28] == ToLe(sb.totalBlocks, 8) && h[28..36] == ToLe(sb.inodeCount, 8)
            && h[36..44] == ToLe(sb.bitmapStart, 8) && h[44..52] == ToLe(sb.inodeTableStart, 8)
            && h[52..60] == ToLe(sb.dataStart, 8) && h[60..68] == ToLe(sb.rootInode, 8)
            && h[68..72] == ToLe(|sb.manifest| % 0x1_0000_0000, 4) && h[72..76] == ToLe(sb.cryptoFlags, 4)
            && h[76..80] == crc
            && (sb.version == 2 ==>
              && h[80..96] == sb.salt && h[96..100] == ToLe(sb.argonMem, 4)
              && h[100..104] == ToLe(sb.argonIters, 4) && h[104..108] == ToLe(sb.argonParallel, 4))
  {
    hide ToLe, Utf8;
    var h := HeaderBytes(sb, crc);
    assert h[0..8] == SB_MAGIC && h[8..12] == ToLe(sb.version, 4) && h[12..16] == ToLe(sb.blockSize, 4)
        && h[16..20] == ToLe(sb.usableSize, 4);
    assert h[20..28] == ToLe(sb.totalBlocks, 8) && h[28..36] == ToLe(sb.inodeCount, 8)
        && h[36..44] == ToLe(sb.bitmapStart, 8);
    assert h[44..52] == ToLe(sb.inodeTableStart, 8) && h[52..60] == ToLe(sb.dataStart, 8)
        && h[60..68] == ToLe(sb.rootInode, 8);
    assert h[68..72] == ToLe(|sb.manifest| % 0x1_0000_0000, 4) && h[72..76] == ToLe(sb.cryptoFlags, 4)
        && h[76..80] == crc;
    if sb.version == 2 {
      CostLayout(sb, crc);
    }
  }

  lemma CostLayout(sb: Superblock, crc: seq<byte>)
    requires |crc| == 4 && |sb.salt| == 16 && sb.version == 2
    ensures var h := HeaderBytes(sb, crc);
            && h[80..96] == sb.salt && h[96..100] == ToLe(sb.argonMem, 4)
            && h[100..104] == ToLe(sb.argonIters, 4) && h[104..108] == ToLe(sb.argonParallel, 4)
  {
    hide ToLe, Utf8;
    var h := HeaderBytes(sb, crc);
    assert h[80..96] == sb.salt && h[96..100] == ToLe(sb.argonMem, 4);
    assert h[100..104] == ToLe(sb.argonIters, 4) && h[104..108] == ToLe(sb.argonParallel, 4);
  }

  /** The fields of a carrier's entry; only version 3 has the name. */
  lemma RangeLayout(version: u32, r: NamedRange)
    ensures version >= 3 ==>
      var s, n := RangeBytes(version, r), |r.name|;
      && |s| == 22 + n && s[0..2] == ToLe(n % 0x1_0000, 2) && s[2..2 + n] == r.name
      && s[2 + n..6 + n] == ToLe(r.range.chunkIndex, 4) && s[6 + n..14 + n] == ToLe(r.range.blockStart, 8)
      && s[14 + n..22 + n] == ToLe(r.range.blockCount, 8)
    ensures version < 3 ==>
      var s := RangeBytes(version, r);
      && |s| == 20 && s[0..4] == ToLe(r.range.chunkIndex, 4) && s[4..12] == ToLe(r.range.blockStart, 8)
      && s[12..20] == ToLe(r.range.blockCount, 8)
  {
    hide ToLe, Utf8;
  }

  /** A decoded entry encodes to the bytes it was decoded from. */
  lemma RangeAgain(version: u32, buf: seq<byte>, offset: nat)
    requires DecodeRange(version, buf, offset).Ok?
    ensures var (r, next) := DecodeRange(version, buf, offset).value;
            RangeFits(version, r) && RangeBytes(version, r) == buf[offset..next]
  {
    hide Utf8, ToLe, FromLe, ValidName;
    var (r, next) := DecodeRange(version, buf, offset).value;
    var at := next - 20;
    ToFromLe(buf[at..at + 4]);
    ToFromLe(buf[at + 4..at + 12]);
    ToFromLe(buf[at + 12..at + 20]);
    assert buf[at..next] == buf[at..at + 4] + buf[at + 4..at + 12] + buf[at + 12..at + 20];
    if version >= MARKERLESS_FS_VERSION {
      ToFromLe(buf[offset..offset + 2]);
      assert buf[offset..next] == buf[offset..offset + 2] + buf[offset + 2..at] + buf[at..next];
    }
  }

  lemma {:induction false} ManifestFirst(version: u32, first: NamedRange, rest: seq<NamedRange>)
    ensures ManifestBytes(version, [first] + rest) == RangeBytes(version, first) + ManifestBytes(version, rest)
  {
    hide Utf8, RangeBytes;
    var all := [first] + rest;
    if rest == [] {
      assert all == [first] && all[..0] == [];
    } else {
      assert all[..|all| - 1] == [first] + rest[..|rest| - 1];
      ManifestFirst(version, first, rest[..|rest| - 1]);
    }
  }

  /** So does a decoded manifest. */
  lemma {:induction false} ManifestAgain(version: u32, buf: seq<byte>, offset: nat, count: nat)
    requires offset <= |buf| && DecodeRanges(version, buf, offset, count).Ok?
    ensures var (manifest, end) := DecodeRanges(version, buf, offset, count).value;
            && |manifest| == count && ManifestBytes(version, manifest) == buf[offset..end]
            && forall i {:trigger manifest[i]} :: 0 <= i < count ==> RangeFits(version, manifest[i])
    decreases count
  {
    hide Utf8, DecodeRange, RangeBytes, RangeFits;
    if count > 0 {
      var (first, next) := DecodeRange(version, buf, offset).value;
      ManifestAgain(version, buf, next, count - 1);
      RangeAgain(version, buf, offset);
      var (rest, end) := DecodeRanges(version, buf, next, count - 1).value;
      ManifestFirst(version, first, rest);
      assert buf[offset..end] == buf[offset..next] + buf[next..end];
    }
  }

  /** So does the header. */
  lemma HeaderAgain(buf: seq<byte>, manifest: seq<NamedRange>)
    requires |buf| >= 80 && buf[0..8] == SB_MAGIC && 1 <= FromLe32(buf[8..12]) <= 3
    requires |buf| >= HeaderLen(FromLe32(buf[8..12])) && |manifest| == FromLe32(buf[68..72])
    ensures |Fields(buf, manifest).salt| == 16
    ensures HeaderBytes(Fields(buf, manifest), buf[76..80]) == buf[..HeaderLen(FromLe32(buf[8..12]))]
  {
    hide Utf8, ToLe, FromLe, HeaderBytes;
    var sb := Fields(buf, manifest);
    var h := HeaderBytes(sb, buf[76..80]);
    HeaderLayout(sb, buf[76..80]);
    ToFromLe(buf[8..12]);
    ToFromLe(buf[12..16]);
    ToFromLe(buf[16..20]);
    ToFromLe(buf[20..28]);
    ToFromLe(buf[28..36]);
    ToFromLe(buf[36..44]);
    ToFromLe(buf[44..52]);
    ToFromLe(buf[52..60]);
    ToFromLe(buf[60..68]);
    ToFromLe(buf[68..72]);
    ToFromLe(buf[72..76]);
    Pieces(h, buf);
    if sb.version == 2 {
      ToFromLe(buf[96..100]);
      ToFromLe(buf[100..104]);
      ToFromLe(buf[104..108]);
      CostPieces(h, buf);
    }
  }

  /** Strings that agree on the fields agree on the header. */
  lemma Pieces(h: seq<byte>, buf: seq<byte>)
    requires |h| >= 80 && |buf| >= 80 && h[0..8] == buf[0..8] && h[8..12] == buf[8..12] && h[12..16] == buf[12..16]
    requires h[16..20] == buf[16..20] && h[20..28] == buf[20..28] && h[28..36] == buf[28..36]
    requires h[36..44] == buf[36..44] && h[44..52] == buf[44..52] && h[52..60] == buf[52..60]
    requires h[60..68] == buf[60..68] && h[68..72] == buf[68..72] && h[72..76] == buf[72..76]
    requires h[76..80] == buf[76..80]
    ensures h[..80] == buf[..80]
  {
    Joint(h, buf, 0, 8, 12);
    Joint(h, buf, 0, 12, 16);
    Joint(h, buf, 0, 16, 20);
    Joint(h, buf, 0, 20, 28);
    Joint(h, buf, 0, 28, 36);
    Joint(h, buf, 0, 36, 44);
    Joint(h, buf, 0, 44, 52);
    Joint(h, buf, 0, 52, 60);
    Joint(h, buf, 0, 60, 68);
    Joint(h, buf, 0, 68, 72);
    Joint(h, buf, 0, 72, 76);
    Joint(h, buf, 0, 76, 80);
    assert h[0..80] == h[..80] && buf[0..80] == buf[..80];
  }

  lemma CostPieces(h: seq<byte>, buf: seq<byte>)
    requires |h| >= 108 && |buf| >= 108 && h[..80] == buf[..80] && h[80..96] == buf[80..96]
    requires h[96..100] == buf[96..100] && h[100..104] == buf[100..104] && h[104..108] == buf[104..108]
    ensures h[..108] == buf[..108]
  {
    assert h[0..80] == h[..80] && buf[0..80] == buf[..80];
    Joint(h, buf, 0, 80, 96);
    Joint(h, buf, 0, 96, 100);
    Joint(h, buf, 0, 100, 104);
    Joint(h, buf, 0, 104, 108);
    assert h[0..108] == h[..108] && buf[0..108] == buf[..108];
  }

  /** Decoding accepts exactly the buffers that start with the encoding of a well-formed superblock. */
  lemma DecodedIff(p: Primitives, buf: seq<byte>, sb: Superblock)
    ensures Decoded(p, buf) == Ok(sb) <==> WellFormed(sb) && Encoded(p, sb) <= buf
  {
    hide Utf8, ToLe, FromLe, HeaderBytes, ManifestBytes, DecodeRanges, Fields, Encoded, WellFormed;
    SaltSize(sb);
    if WellFormed(sb) && Encoded(p, sb) <= buf {
      SuperblockRoundTrip(p, sb, buf[|Encoded(p, sb)|..]);
      assert buf == Encoded(p, sb) + buf[|Encoded(p, sb)|..];
    }
    if Decoded(p, buf) == Ok(sb) {
      DecodedAgain(p, buf);
    }
  }

  lemma SaltSize(sb: Superblock)
    ensures WellFormed(sb) ==> |sb.salt| == 16
  {
    hide Utf8, RangeFits;
  }

  lemma DecodedAgain(p: Primitives, buf: seq<byte>)
    requires Decoded(p, buf).Ok?
    ensures var sb := Decoded(p, buf).value;
            WellFormed(sb) && Encoded(p, sb) <= buf
  {
    hide Utf8, ToLe, FromLe, HeaderBytes, ManifestBytes, DecodeRanges, RangeFits;
    var version := FromLe32(buf[8..12]);
    var (manifest, end) := DecodeRanges(version, buf, HeaderLen(version), FromLe32(buf[68..72])).value;
    ManifestAgain(version, buf, HeaderLen(version), FromLe32(buf[68..72]));
    HeaderAgain(buf, manifest);
    var sb := Fields(buf, manifest);
    CrcCleared(sb, buf[76..80]);
    assert buf[..end] == buf[..HeaderLen(version)] + buf[HeaderLen(version)..end];
    FieldIs(buf[76..80], p.crc32(HeaderBytes(sb, Zeros(4)) + ManifestBytes(version, manifest)));
  }

  /** Why a buffer is refused: no magic number, which a short one lacks; the checksum, once header
      and manifest could be read; or anything else about these two. */
  lemma DecodedErrors(p: Primitives, buf: seq<byte>)
    ensures Decoded(p, buf) == Err(BadMagic) <==> |buf| < 80 || buf[0..8] != [65, 76, 66, 85, 77, 70, 83, 0]
    ensures Decoded(p, buf) == Err(SuperblockCrc) <==> exists sb :: BadChecksum(p, sb, buf)
    ensures Decoded(p, buf).Err? ==> Decoded(p, buf).error in {BadMagic, SuperblockCrc, FsError.Manifest}
  {
    hide Utf8, ToLe, FromLe, HeaderBytes, ManifestBytes, DecodeRanges, RangeFits;
    RangesError(buf);
    if Decoded(p, buf) == Err(SuperblockCrc) {
      var version := FromLe32(buf[8..12]);
      var (manifest, end) := DecodeRanges(version, buf, HeaderLen(version), FromLe32(buf[68..72])).value;
      ManifestAgain(version, buf, HeaderLen(version), FromLe32(buf[68..72]));
      HeaderAgain(buf, manifest);
      var sb := Fields(buf, manifest);
      CrcCleared(sb, buf[76..80]);
      assert buf[..end] == buf[..HeaderLen(version)] + buf[HeaderLen(version)..end];
      FieldIs(buf[76..80], p.crc32(HeaderBytes(sb, Zeros(4)) + ManifestBytes(version, manifest)));
      assert BadChecksum(p, sb, buf);
    }
    if sb :| BadChecksum(p, sb, buf) {
      BadlyChecked(p, sb, buf);
    }
  }

  /** The buffer starts with header and manifest of `sb`, but with another checksum. */
  ghost predicate BadChecksum(p: Primitives, sb: Superblock, buf: seq<byte>) {
    && WellFormed(sb) && |buf| >= 80
    && HeaderBytes(sb, buf[76..80]) + ManifestBytes(sb.version, sb.manifest) <= buf
    && buf[76..80] != ToLe(p.crc32(HeaderBytes(sb, Zeros(4)) + ManifestBytes(sb.version, sb.manifest)), 4)
  }

  lemma BadlyChecked(p: Primitives, sb: Superblock, buf: seq<byte>)
    requires BadChecksum(p, sb, buf)
    ensures Decoded(p, buf) == Err(SuperblockCrc)
  {
    hide Utf8, ToLe, FromLe, HeaderBytes, ManifestBytes, DecodeRanges, Fields;
    var crc, m := buf[76..80], ManifestBytes(sb.version, sb.manifest);
    var header := HeaderBytes(sb, crc);
    var rest := buf[|header + m|..];
    assert buf == header + (m + rest) && buf == header + m + rest;
    HeaderFields(sb, crc, m + rest);
    ManifestRoundTrip(sb.version, sb.manifest, header, rest, 0);
    assert sb.manifest[..0] == [] && sb.manifest[0..] == sb.manifest;
    NoManifest(sb.version, sb.manifest[..0]);
    assert buf[..|header| + |m|] == header + m;
    CrcCleared(sb, crc);
    FieldIs(crc, p.crc32(HeaderBytes(sb, Zeros(4)) + m));
  }

  lemma RangesError(buf: seq<byte>)
    ensures forall version: u32, offset: nat, count: nat ::
      offset <= |buf| && DecodeRanges(version, buf, offset, count).Err? ==>
        DecodeRanges(version, buf, offset, count) == Err(FsError.Manifest)
  {
    forall version: u32, offset: nat, count: nat | offset <= |buf| && DecodeRanges(version, buf, offset, count).Err?
      ensures DecodeRanges(version, buf, offset, count) == Err(FsError.Manifest)
    {
      RangesErrorAt(version, buf, offset, count);
    }
  }

  lemma {:induction false} RangesErrorAt(version: u32, buf: seq<byte>, offset: nat, count: nat)
    requires offset <= |buf| && DecodeRanges(version, buf, offset, count).Err?
    ensures DecodeRanges(version, buf, offset, count) == Err(FsError.Manifest)
    decreases count
  {
    hide Utf8, FromLe, ValidName;
    if count > 0 && DecodeRange(version, buf, offset).Ok? {
      RangesErrorAt(version, buf, DecodeRange(version, buf, offset).value.1, count - 1);
    }
  }
}
