/** Where everything stands: the bytes of numbers, records, pointer tables and headers, and what
    decoding accepts, said with the offsets themselves. */
module Layouts {
  import opened Bytes
  import opened Bits
  import opened Layout
  import opened Wrappers
  import opened Pointers
  import opened Inodes
  import opened Geometry
  import opened Volume
  import opened Dirents
  import opened DirBlocks
  import opened Primitives
  import opened PhysicalBlocks
  import opened Bitstreams

  // ---------------------------------------------------------------- numbers

  /** The low byte comes first. */
  lemma LittleEndian(s: seq<byte>)
    ensures |s| == 2 ==> FromLe(s) == (s[0] as int) + (s[1] as int) * 0x100
    ensures |s| == 4 ==>
      FromLe(s) == (s[0] as int) + (s[1] as int) * 0x100 + (s[2] as int) * 0x1_0000 + (s[3] as int) * 0x100_0000
    ensures |s| == 8 ==> FromLe(s) == FromLe(s[..4]) + 0x1_0000_0000 * FromLe(s[4..])
    ensures ToLe(FromLe(s), |s|) == s
  {
    ToFromLe(s);
    hide FromLe, ToLe;
    if |s| == 2 {
      FirstBytes(s);
      assert s[2..] == [];
    }
    if |s| == 4 {
      FirstBytes(s);
      FirstBytes(s[2..]);
      assert s[2..][2..] == [];
    }
    if |s| == 8 {
      FirstBytes(s);
      FirstBytes(s[2..]);
      FirstBytes(s[..4]);
      FirstBytes(s[..4][2..]);
      assert s[2..][2..] == s[4..] && s[..4][2..][2..] == [];
    }
  }

  lemma FirstBytes(s: seq<byte>)
    requires |s| >= 2
    ensures FromLe(s) == (s[0] as int) + (s[1] as int) * 0x100 + FromLe(s[2..]) * 0x1_0000 && FromLe([]) == 0
  {
    assert s[1..][1..] == s[2..];
  }

  /** A stream of bits takes the bits of each byte from the high end. */
  lemma StreamBitValue(s: seq<byte>, i: nat)
    requires i < 8 * |s|
    ensures StreamBit(s, i) == s[i / 8] / [128, 64, 32, 16, 8, 4, 2, 1][i % 8] % 2
  {
    BitValue(s[i / 8], 7 - i % 8);
  }

  // ---------------------------------------------------------------- inodes

  /** The fields of an inode's 192 bytes. */
  lemma InodeBytes(n: Inode)
    ensures var b := EncodeInode(n);
            && |b| == 192
            && b[0..4] == ToLe(n.mode, 4) && b[4..8] == ToLe(n.uid, 4) && b[8..12] == ToLe(n.gid, 4)
            && b[12..16] == ToLe(n.nlink, 4) && b[16..24] == ToLe(n.size, 8) && b[24..32] == ToLe(n.atime, 8)
            && b[32..40] == ToLe(n.mtime, 8) && b[40..48] == ToLe(n.ctime, 8) && b[48..52] == ToLe(n.blockCount, 4)
            && (forall k :: 0 <= k < 12 ==> b[56 + 8 * k..64 + 8 * k] == ToLe(n.direct[k], 8))
            && b[152..160] == ToLe(n.single, 8) && b[160..168] == ToLe(n.double, 8)
            && b[52..56] == [0, 0, 0, 0] && b[168..] == Zeros(24)
  {
    hide ToLe, EncodePointers;
    FieldsInPlace(n);
    var b := EncodeInode(n);
    forall k | 0 <= k < 12
      ensures b[56 + 8 * k..64 + 8 * k] == ToLe(n.direct[k], 8)
    {
      PointerBytes(n.direct, k);
      assert b[56 + 8 * k..64 + 8 * k] == b[56..152][8 * k..8 * k + 8];
    }
    assert b[52..56] == Zeros(4);
  }

  lemma {:induction false} PointerBytes(s: seq<u64>, k: nat)
    requires k < |s|
    ensures EncodePointers(s)[8 * k..8 * k + 8] == ToLe(s[k], 8)
  {
    hide ToLe;
    assert EncodePointers(s)[8..] == EncodePointers(s[1..]);
    if k > 0 {
      PointerBytes(s[1..], k - 1);
      assert EncodePointers(s)[8 * k..8 * k + 8] == EncodePointers(s[1..])[8 * (k - 1)..8 * (k - 1) + 8];
    }
  }

  /** Decoding accepts exactly those bytes, whatever stands where no field is. */
  lemma InodeExact(b: seq<byte>, n: Inode)
    requires |b| == 192
    ensures InodeOfBytes(b) == n <==> b[..52] == EncodeInode(n)[..52] && b[56..168] == EncodeInode(n)[56..168]
  {
    hide ToLe, FromLe, EncodePointers, DecodePointers;
    if InodeOfBytes(b) == n {
      InodeAgain(b);
    }
    if b[..52] == EncodeInode(n)[..52] && b[56..168] == EncodeInode(n)[56..168] {
      var c := EncodeInode(n);
      InodeRoundTrip(n);
      FrontField(b, c, 0, 4);
      FrontField(b, c, 4, 8);
      FrontField(b, c, 8, 12);
      FrontField(b, c, 12, 16);
      FrontField(b, c, 16, 24);
      FrontField(b, c, 24, 32);
      FrontField(b, c, 32, 40);
      FrontField(b, c, 40, 48);
      FrontField(b, c, 48, 52);
      BackField(b, c, 56, 152);
      BackField(b, c, 152, 160);
      BackField(b, c, 160, 168);
    }
  }

  lemma FrontField(b: seq<byte>, c: seq<byte>, lo: nat, hi: nat)
    requires |b| == |c| == 192 && b[..52] == c[..52] && lo <= hi <= 52
    ensures b[lo..hi] == c[lo..hi]
  {
    assert b[0..52] == b[..52] && c[0..52] == c[..52];
    SameBytes(b, c, 0, 52, lo, hi);
  }

  lemma BackField(b: seq<byte>, c: seq<byte>, lo: nat, hi: nat)
    requires |b| == |c| == 192 && b[56..168] == c[56..168] && 56 <= lo <= hi <= 168
    ensures b[lo..hi] == c[lo..hi]
  {
    SameBytes(b, c, 56, 112, lo - 56, hi - 56);
  }

  /** What a decoded inode encodes to. */
  lemma InodeAgain(b: seq<byte>)
    requires |b| == 192
    ensures var c := EncodeInode(InodeOfBytes(b)); b[..52] == c[..52] && b[56..168] == c[56..168]
  {
    hide ToLe, FromLe, EncodePointers, DecodePointers;
    var n := InodeOfBytes(b);
    var c := EncodeInode(n);
    FieldsInPlace(n);
    ToFromLe(b[0..4]);
    ToFromLe(b[4..8]);
    ToFromLe(b[8..12]);
    ToFromLe(b[12..16]);
    ToFromLe(b[16..24]);
    ToFromLe(b[24..32]);
    ToFromLe(b[32..40]);
    ToFromLe(b[40..48]);
    ToFromLe(b[48..52]);
    PointersAgain(b[56..152], 12);
    ToFromLe(b[152..160]);
    ToFromLe(b[160..168]);
    FieldsJoin(b, c);
  }

  lemma FieldsJoin(b: seq<byte>, c: seq<byte>)
    requires |b| == |c| == 192 && b[0..4] == c[0..4] && b[4..8] == c[4..8] && b[8..12] == c[8..12]
    requires b[12..16] == c[12..16] && b[16..24] == c[16..24] && b[24..32] == c[24..32] && b[32..40] == c[32..40]
    requires b[40..48] == c[40..48] && b[48..52] == c[48..52] && b[56..152] == c[56..152]
    requires b[152..160] == c[152..160] && b[160..168] == c[160..168]
    ensures b[..52] == c[..52] && b[56..168] == c[56..168]
  {
    Joint(b, c, 0, 4, 8);
    Joint(b, c, 0, 8, 12);
    Joint(b, c, 0, 12, 16);
    Joint(b, c, 0, 16, 24);
    Joint(b, c, 0, 24, 32);
    Joint(b, c, 0, 32, 40);
    Joint(b, c, 0, 40, 48);
    Joint(b, c, 0, 48, 52);
    Joint(b, c, 56, 152, 160);
    Joint(b, c, 56, 160, 168);
    assert b[0..52] == b[..52] && c[0..52] == c[..52];
  }

  lemma {:induction false} PointersAgain(b: seq<byte>, count: nat)
    requires |b| == 8 * count
    ensures EncodePointers(DecodePointers(b, count)) == b
  {
    hide ToLe, FromLe;
    if count > 0 {
      PointersAgain(b[8..], count - 1);
      ToFromLe(b[..8]);
      assert DecodePointers(b, count)[1..] == DecodePointers(b[8..], count - 1);
      assert b == b[..8] + b[8..];
    }
  }

  /** A directory has the type bits 0100 in its mode, above twelve permission bits. */
  lemma DirectoryMode(n: Inode)
    ensures n.IsDir() <==> 0x4000 <= n.mode % 0x1_0000 < 0x5000
    ensures n.Live() <==> n.mode != 0
  {
    assert n.mode / 0x1000 % 0x10 == n.mode % 0x1_0000 / 0x1000;
  }

  /** 21 inodes to a block, one after the other from the start of the table. */
  lemma InodePlace(g: Geometry, ino: nat)
    requires 0 < ino
    ensures InodeLocation(g, ino) == (g.inodeTableStart + (ino - 1) / 21, (ino - 1) % 21 * 192)
  {
    assert (ino - 1) * 192 == (ino - 1) / 21 * 4032 + (ino - 1) % 21 * 192;
  }

  // ---------------------------------------------------------------- block pointers

  /** Entry `k` of the table in block `b`, if there is one. */
  function PointerIn(data: seq<Block>, b: nat, k: nat): nat
    requires k < 504
  {
    if b == 0 || b >= |data| then 0 else FromLe(data[b][8 * k..8 * k + 8])
  }

  /** Where a logical block is mapped: twelve in the inode, 504 in the single-indirect table, and
      504 in each of the 504 tables below the double-indirect one. */
  lemma MappedWhere(v: Vol, i: nat, m: nat)
    requires i < |v.table|
    ensures m < 12 ==> T(v, i, SlotOf(m)) == v.table[i].direct[m]
    ensures 12 <= m < 12 + 504 ==> T(v, i, SlotOf(m)) == PointerIn(v.data, v.table[i].single, m - 12)
    ensures 12 + 504 <= m < 12 + 504 + 504 * 504 ==>
      var (outer, inner) := ((m - 516) / 504, (m - 516) % 504);
      T(v, i, SlotOf(m)) == PointerIn(v.data, PointerIn(v.data, v.table[i].double, outer), inner)
  {
    hide FromLe;
  }

  /** The slots a block has to pass on the way there. */
  lemma WayTo(m: nat)
    ensures m < 12 ==> PathTo(SlotOf(m)) == {Direct(m)}
    ensures 12 <= m < 12 + 504 ==> PathTo(SlotOf(m)) == {Single, SLeaf(m - 12)}
    ensures 12 + 504 <= m ==>
      PathTo(SlotOf(m)) == {Double, Inner((m - 516) / 504), DLeaf((m - 516) / 504, (m - 516) % 504)}
  {
  }

  // ---------------------------------------------------------------- directory records

  /** The fields of a directory record. */
  lemma EntryLayout(e: DirEntry)
    ensures Fits(e) <==> e.recLen % 4 == 0 && 12 + |e.name| <= e.recLen && |e.name| <= 255
    ensures Fits(e) ==>
      var s := EntryBytes(e);
      && |s| == e.recLen && s[0..8] == ToLe(e.inode, 8) && s[8..10] == ToLe(e.recLen, 2)
      && s[10] == |e.name| && s[11] == e.fileType && s[12..12 + |e.name|] == e.name
      && forall k :: 12 + |e.name| <= k < e.recLen ==> s[k] == 0
  {
    hide ToLe, Utf8;
    if Fits(e) {
      EntryFields(e);
    }
  }

  /** Decoding accepts exactly what encoding produces, whatever pads the record. */
  lemma DecodeExact(b: seq<byte>, at: nat, e: DirEntry)
    ensures Decode(b, at) == Ok(e) <==>
      && Fits(e) && at + e.recLen <= |b|
      && b[at..at + 12 + |e.name|] == EntryBytes(e)[..12 + |e.name|]
  {
    hide ToLe, FromLe, Utf8, EntryBytes;
    if Decode(b, at) == Ok(e) {
      DecodedBytes(b, at);
    }
    if Fits(e) && at + e.recLen <= |b| && b[at..at + 12 + |e.name|] == EntryBytes(e)[..12 + |e.name|] {
      EntryLayout(e);
      var n := 12 + |e.name|;
      SameSlice(b, at, EntryBytes(e), n, 0, 8);
      SameSlice(b, at, EntryBytes(e), n, 8, 10);
      SameSlice(b, at, EntryBytes(e), n, 12, n);
      assert b[at + 10] == b[at..at + n][10] && b[at + 11] == b[at..at + n][11];
      RangeValues();
      FromToLe(e.inode, 8);
      FromToLe(e.recLen, 2);
    }
  }

  lemma SameSlice(b: seq<byte>, at: nat, s: seq<byte>, n: nat, i: nat, j: nat)
    requires at + n <= |b| && n <= |s| && b[at..at + n] == s[..n] && i <= j <= n
    ensures b[at + i..at + j] == s[i..j]
  {
    forall k | 0 <= k < j - i
      ensures b[at + i..at + j][k] == s[i..j][k]
    {
      assert b[at..at + n][i + k] == s[..n][i + k];
    }
  }

  lemma DecodedBytes(b: seq<byte>, at: nat)
    requires Decode(b, at).Ok?
    ensures var e := Decode(b, at).value;
            && Fits(e) && at + e.recLen <= |b|
            && b[at..at + 12 + |e.name|] == EntryBytes(e)[..12 + |e.name|]
  {
    hide ToLe, FromLe, Utf8, EntryBytes;
    var e := Decode(b, at).value;
    var s, n := EntryBytes(e), 12 + |e.name|;
    EntryLayout(e);
    ToFromLe(b[at..at + 8]);
    ToFromLe(b[at + 8..at + 10]);
    var head := b[at..at + n];
    assert head == b[at..at + 8] + b[at + 8..at + 10] + [b[at + 10], b[at + 11]] + b[at + 12..at + n];
    assert s[..n] == s[0..8] + s[8..10] + [s[10], s[11]] + s[12..n];
  }

  // ---------------------------------------------------------------- names

  /** A Unicode scalar value. */
  predicate Scalar(c: nat) {
    c < 0x11_0000 && !(0xD800 <= c < 0xE000)
  }

  /** Its UTF-8 form. */
  function CodeUnits(c: nat): seq<byte>
    requires Scalar(c)
  {
    if c < 0x80 then [c]
    else if c < 0x800 then [0xC0 + c / 0x40, 0x80 + c % 0x40]
    else if c < 0x1_0000 then [0xE0 + c / 0x1000, 0x80 + c / 0x40 % 0x40, 0x80 + c % 0x40]
    else [0xF0 + c / 0x4_0000, 0x80 + c / 0x1000 % 0x40, 0x80 + c / 0x40 % 0x40, 0x80 + c % 0x40]
  }

  predicate Scalars(text: seq<nat>) {
    forall k :: 0 <= k < |text| ==> Scalar(text[k])
  }

  function Utf8Of(text: seq<nat>): seq<byte>
    requires Scalars(text)
  {
    if text == [] then [] else CodeUnits(text[0]) + Utf8Of(text[1..])
  }

  /** The bytes of any text are well-formed. */
  lemma {:induction false} TextIsUtf8(text: seq<nat>)
    requires Scalars(text)
    ensures Utf8(Utf8Of(text))
  {
    if text != [] {
      TextIsUtf8(text[1..]);
      UnitsFirst(text[0], Utf8Of(text[1..]));
    }
  }

  /** And well-formed bytes are those of some text. */
  lemma {:induction false} Utf8IsText(s: seq<byte>) returns (text: seq<nat>)
    requires Utf8(s)
    ensures Scalars(text) && Utf8Of(text) == s
  {
    if s == [] {
      text := [];
    } else {
      var c, n := FirstScalar(s);
      var rest := Utf8IsText(s[n..]);
      text := [c] + rest;
      assert text[1..] == rest;
      assert s == s[..n] + s[n..];
    }
  }

  lemma UnitsFirst(c: nat, rest: seq<byte>)
    requires Scalar(c) && Utf8(rest)
    ensures Utf8(CodeUnits(c) + rest)
  {
    var units := CodeUnits(c);
    UnitBounds(c);
    LeadThen(units, rest);
  }

  /** The lead byte and what may follow it. */
  predicate Sequence(units: seq<byte>) {
    if |units| == 1 then units[0] < 0x80
    else if |units| == 2 then 0xC2 <= units[0] < 0xE0 && 0x80 <= units[1] < 0xC0
    else if |units| == 3 then
      && 0xE0 <= units[0] < 0xF0 && 0x80 <= units[1] < 0xC0 && 0x80 <= units[2] < 0xC0
      && (units[0] == 0xE0 ==> 0xA0 <= units[1]) && (units[0] == 0xED ==> units[1] < 0xA0)
    else
      && |units| == 4 && 0xF0 <= units[0] < 0xF5 && 0x80 <= units[1] < 0xC0
      && 0x80 <= units[2] < 0xC0 && 0x80 <= units[3] < 0xC0
      && (units[0] == 0xF0 ==> 0x90 <= units[1]) && (units[0] == 0xF4 ==> units[1] < 0x90)
  }

  lemma UnitBounds(c: nat)
    requires Scalar(c)
    ensures Sequence(CodeUnits(c))
  {
  }

  lemma LeadThen(units: seq<byte>, rest: seq<byte>)
    requires Sequence(units)
    ensures Utf8(units + rest) <==> Utf8(rest)
  {
    var s := units + rest;
    assert s[0] == units[0] && s[|units|..] == rest;
    forall k | 0 <= k < |units| - 1
      ensures s[1..][k] == units[k + 1]
    {
    }
  }

  lemma FirstScalar(s: seq<byte>) returns (c: nat, n: nat)
    requires Utf8(s) && s != []
    ensures Scalar(c) && 0 < n <= |s| && s[..n] == CodeUnits(c) && Utf8(s[n..])
  {
    hide Utf8, Sequence, Value, CodeUnits;
    n := LeadOf(s);
    var units := s[..n];
    c := Value(units);
    ValueUnits(units);
    assert s == units + s[n..];
    LeadThen(units, s[n..]);
  }

  lemma LeadOf(s: seq<byte>) returns (n: nat)
    requires Utf8(s) && s != []
    ensures 0 < n <= |s| && Sequence(s[..n])
  {
    n := if s[0] < 0x80 then 1 else if s[0] < 0xE0 then 2 else if s[0] < 0xF0 then 3 else 4;
    forall k | 0 <= k < |s| - 1
      ensures s[1..][k] == s[k + 1]
    {
    }
  }

  /** The bits of a lead byte and its continuation bytes. */
  function Value(units: seq<byte>): (c: nat)
    requires Sequence(units)
  {
    if |units| == 1 then units[0]
    else if |units| == 2 then Joined(units[0] - 0xC0, units[1])
    else if |units| == 3 then Joined(Joined(units[0] - 0xE0, units[1]), units[2])
    else Joined(Joined(Joined(units[0] - 0xF0, units[1]), units[2]), units[3])
  }

  function Joined(high: nat, low: nat): (c: nat)
    requires 0x80 <= low < 0xC0
    ensures c / 0x40 == high && c % 0x40 == low - 0x80
  {
    high * 0x40 + (low - 0x80)
  }

  lemma ValueUnits(units: seq<byte>)
    requires Sequence(units)
    ensures Scalar(Value(units)) && CodeUnits(Value(units)) == units
  {
    if |units| == 3 {
      ValueThree(units);
    } else if |units| == 4 {
      ValueFour(units);
    }
  }

  lemma ValueThree(units: seq<byte>)
    requires Sequence(units) && |units| == 3
    ensures Scalar(Value(units)) && CodeUnits(Value(units)) == units
  {
    var high := Joined(units[0] - 0xE0, units[1]);
    var c := Joined(high, units[2]);
    hide Joined;
    assert 0x20 <= high < 0x400 && !(0x360 <= high < 0x380);
    assert 0x800 <= c < 0x1_0000 && !(0xD800 <= c < 0xE000);
    Twice(c);
  }

  lemma ValueFour(units: seq<byte>)
    requires Sequence(units) && |units| == 4
    ensures Scalar(Value(units)) && CodeUnits(Value(units)) == units
  {
    var top := Joined(units[0] - 0xF0, units[1]);
    var high := Joined(top, units[2]);
    var c := Joined(high, units[3]);
    hide Joined;
    assert 0x10 <= top < 0x110;
    assert 0x400 <= high < 0x4400;
    assert 0x1_0000 <= c < 0x11_0000;
    Twice(c);
    Twice(c / 0x40);
    assert c / 0x1000 == top && c / 0x4_0000 == top / 0x40;
  }

  lemma Twice(c: nat)
    ensures c / 0x40 / 0x40 == c / 0x1000 && c / 0x40 / 0x1000 == c / 0x4_0000 && c / 0x1000 / 0x40 == c / 0x4_0000
  {
  }

  // ---------------------------------------------------------------- physical blocks

  /** A plain block: the checksum of bytes 64 on at byte 40, zeros before and between. */
  lemma PlainBlockBytes(p: Primitives, payload: seq<byte>)
    requires |payload| <= 4032
    ensures var blk := BuildPhysicalBlock(p, payload);
            && |blk| == 4096 && blk[..40] == Zeros(40) && blk[40..44] == ToLe(p.crc32(blk[64..]), 4)
            && blk[44..64] == Zeros(20) && blk[64..] == payload + Zeros(4032 - |payload|)
  {
    hide ToLe;
    var blk := BuildPhysicalBlock(p, payload);
    assert blk[64..] == payload + Zeros(4032 - |payload|);
  }

  /** Reading one: its length has to be right, and then its checksum. */
  lemma PlainBlockRead(p: Primitives, lba: nat, blk: seq<byte>)
    ensures ReadPhysicalBlock(p, lba, blk) ==
      if |blk| != 4096 then Err(Manifest)
      else if blk[40..44] != ToLe(p.crc32(blk[64..4096]), 4) then Err(BlockCrc(lba))
      else Ok(blk[64..4096])
  {
    if |blk| == 4096 {
      FieldIs(blk[40..44], p.crc32(blk[64..4096]));
    }
  }

  /** An encrypted block: nonce, tag, checksum of the sealed bytes, zeros, the sealed bytes. */
  lemma SealedBlockBytes(p: Primitives, key: seq<byte>, nonce: seq<byte>, lba: nat, payload: seq<byte>)
    requires p.Lawful() && |nonce| == 24 && |payload| <= 4032
    ensures var blk := Encrypt(p, key, nonce, lba, payload);
            var (sealed, tag) := p.seal(key, nonce, lba, payload + Zeros(4032 - |payload|));
            && |blk| == 4096 && blk[..24] == nonce && blk[24..40] == tag
            && blk[40..44] == ToLe(p.crc32(sealed), 4) && blk[44..64] == Zeros(20) && blk[64..] == sealed
  {
    hide ToLe;
  }

  /** Opening one: its length and checksum have to be right, and the bytes have to open under the
      key, the nonce and the number of the block; whatever is wrong is the one error. */
  lemma SealedBlockRead(p: Primitives, key: seq<byte>, lba: nat, blk: seq<byte>)
    ensures |blk| != 4096 ==> Decrypt(p, key, lba, blk) == Err(Auth)
    ensures |blk| == 4096 && blk[40..44] != ToLe(p.crc32(blk[64..4096]), 4) ==> Decrypt(p, key, lba, blk) == Err(Auth)
    ensures |blk| == 4096 && blk[40..44] == ToLe(p.crc32(blk[64..4096]), 4) ==>
      match p.unseal(key, blk[0..24], lba, blk[64..4096], blk[24..40])
      case Some(text) => Decrypt(p, key, lba, blk) == if |text| == 4032 then Ok(text) else Err(Auth)
      case None => Decrypt(p, key, lba, blk) == Err(Auth)
  {
    if |blk| == 4096 {
      FieldIs(blk[40..44], p.crc32(blk[64..4096]));
    }
  }
}
