/** Directory records and the blocks they tile. */
module Dirents {
  import opened Bytes
  import opened Layout
  import opened Wrappers

  const FILE_TYPE_FILE: byte := 1
  const FILE_TYPE_DIR: byte := 2

  predicate Tail(s: seq<byte>, n: nat) {
    |s| >= n && forall i :: 0 <= i < n ==> 0x80 <= s[i] < 0xC0
  }

  /** Well-formed UTF-8. */
  predicate Utf8(s: seq<byte>) {
    s == [] ||
    (if s[0] < 0x80 then Utf8(s[1..])
     else if 0xC2 <= s[0] < 0xE0 then Tail(s[1..], 1) && Utf8(s[2..])
     else if 0xE0 <= s[0] < 0xF0 then
       && Tail(s[1..], 2)
       && (s[0] == 0xE0 ==> 0xA0 <= s[1])
       && (s[0] == 0xED ==> s[1] < 0xA0)
       && Utf8(s[3..])
     else if 0xF0 <= s[0] < 0xF5 then
       && Tail(s[1..], 3)
       && (s[0] == 0xF0 ==> 0x90 <= s[1])
       && (s[0] == 0xF4 ==> s[1] < 0x90)
       && Utf8(s[4..])
     else false)
  }

  /** A string: its UTF-8 bytes. */
  type Name = s: seq<byte> | Utf8(s) witness []

  const DOT: Name := [46]
  const DOTDOT: Name := [46, 46]

  datatype DirEntry = DirEntry(inode: u64, recLen: u16, name: Name, fileType: byte) {
    predicate Live() {
      inode != 0
    }
  }

  /** Twelve bytes of header and the name, rounded up to a multiple of four. */
  function RequiredLen(nameLen: nat): (n: nat)
    ensures n % 4 == 0 && 12 + nameLen <= n < 16 + nameLen
  {
    (12 + nameLen + 3) / 4 * 4
  }

  /** A name of at most 255 bytes fits any empty block. */
  lemma LongNames(len: nat)
    ensures len <= 0xFF ==> RequiredLen(len) <= UB
  {
  }

  /** An entry that can stand in a directory block at some multiple-of-four offset. */
  predicate Fits(e: DirEntry) {
    e.recLen % 4 == 0 && RequiredLen(|e.name|) <= e.recLen && |e.name| < 0x100
  }

  /** The bytes of a record. */
  function EntryBytes(e: DirEntry): (s: seq<byte>)
    requires Fits(e)
    ensures |s| == e.recLen
  {
    ToLe(e.inode, 8) + ToLe(e.recLen, 2) + [|e.name|, e.fileType] + e.name + Zeros(e.recLen - 12 - |e.name|)
  }

  /** The record at `offset`, if the block holds one there. */
  function Decode(block: seq<byte>, offset: nat): (r: Result<DirEntry>)
    ensures r.Ok? ==> Fits(r.value) && 12 <= r.value.recLen && offset + r.value.recLen <= |block|
  {
    var headerEnd := offset + 12;
    if headerEnd > |block| then Err(Manifest)
    else
      var inode := FromLe64(block[offset..offset + 8]);
      var recLen := FromLe16(block[offset + 8..offset + 10]);
      var nameLen := block[offset + 10];
      var end := offset + recLen;
      if recLen == 0 || recLen % 4 != 0 || end > |block| || 12 + nameLen > recLen then Err(Manifest)
      else
        var name := block[headerEnd..headerEnd + nameLen];
        if !Utf8(name) then Err(Manifest)
        else Ok(DirEntry(inode, recLen, name, block[offset + 11]))
  }

  /** Decoding looks at the bytes of the record only. */
  lemma DecodeFrame(b: seq<byte>, b': seq<byte>, offset: nat)
    requires Decode(b, offset).Ok? && |b| == |b'|
    requires b[offset..offset + Decode(b, offset).value.recLen] == b'[offset..offset + Decode(b, offset).value.recLen]
    ensures Decode(b', offset) == Decode(b, offset)
  {
    hide Utf8, FromLe, FromLe64, FromLe16;
    var e := Decode(b, offset).value;
    SameBytes(b, b', offset, e.recLen, 0, 8);
    SameBytes(b, b', offset, e.recLen, 8, 10);
    SameBytes(b, b', offset, e.recLen, 10, 11);
    SameBytes(b, b', offset, e.recLen, 11, 12);
    assert b[offset + 10] == b[offset + 10..offset + 11][0] == b'[offset + 10..offset + 11][0] == b'[offset + 10];
    assert b[offset + 11] == b[offset + 11..offset + 12][0] == b'[offset + 11..offset + 12][0] == b'[offset + 11];
    SameBytes(b, b', offset, e.recLen, 12, 12 + (b[offset + 10] as int));
  }

  /** Equal ranges have equal subranges. */
  lemma SameBytes(b: seq<byte>, b': seq<byte>, offset: nat, len: nat, i: nat, j: nat)
    requires i <= j <= len && offset + len <= |b| == |b'|
    requires b[offset..offset + len] == b'[offset..offset + len]
    ensures b[offset + i..offset + j] == b'[offset + i..offset + j]
  {
    var x, y := b[offset + i..offset + j], b'[offset + i..offset + j];
    forall k | 0 <= k < j - i
      ensures x[k] == y[k]
    {
      assert x[k] == b[offset..offset + len][i + k] == b'[offset..offset + len][i + k] == y[k];
    }
  }

  lemma EntryFields(e: DirEntry)
    requires Fits(e)
    ensures var s := EntryBytes(e);
            && s[0..8] == ToLe(e.inode, 8) && s[8..10] == ToLe(e.recLen, 2)
            && s[10] == |e.name| && s[11] == e.fileType && s[12..12 + |e.name|] == e.name
  {
  }

  /** A record written into a block is read back. */
  lemma DecodeWritten(b: seq<byte>, offset: nat, e: DirEntry)
    requires Fits(e) && offset + e.recLen <= |b|
    ensures Decode(Patch(b, offset, EntryBytes(e)), offset) == Ok(e)
  {
    hide Utf8, EntryBytes, ToLe, FromLe, RequiredLen;
    var s := EntryBytes(e);
    var b' := Patch(b, offset, s);
    EntryFields(e);
    assert b'[offset..offset + e.recLen] == s;
    assert b'[offset..offset + 8] == s[0..8];
    assert b'[offset + 8..offset + 10] == s[8..10];
    assert b'[offset + 10] == s[10] && b'[offset + 11] == s[11];
    assert b'[offset + 12..offset + 12 + |e.name|] == s[12..12 + |e.name|];
    RangeValues();
    FromToLe(e.inode, 8);
    FromToLe(e.recLen, 2);
  }

  /** `b` with the length field of the record at `offset` overwritten. */
  function SetLen(b: Block, offset: nat, recLen: u16): Block
    requires offset + 12 <= |b|
  {
    Patch(b, offset + 8, ToLe(recLen, 2))
  }

  lemma DecodeSetLen(b: Block, offset: nat, recLen: u16)
    requires Decode(b, offset).Ok?
    requires Fits(Decode(b, offset).value.(recLen := recLen)) && offset + recLen <= |b|
    ensures Decode(SetLen(b, offset, recLen), offset) == Ok(Decode(b, offset).value.(recLen := recLen))
  {
    hide Utf8, ToLe, FromLe, RequiredLen;
    var e := Decode(b, offset).value;
    var b' := SetLen(b, offset, recLen);
    RangeValues();
    FromToLe(recLen, 2);
    PatchElsewhere(b, offset + 8, ToLe(recLen, 2), offset, offset + 8);
    PatchElsewhere(b, offset + 8, ToLe(recLen, 2), offset + 12, offset + 12 + |e.name|);
    assert b'[offset + 10] == b[offset + 10] && b'[offset + 11] == b[offset + 11];
  }

  /** `b` with the inode number of the record at `offset` overwritten. */
  function SetInode(b: Block, offset: nat, inode: u64): Block
    requires offset + 12 <= |b|
  {
    Patch(b, offset, ToLe(inode, 8))
  }

  lemma DecodeSetInode(b: Block, offset: nat, inode: u64)
    requires Decode(b, offset).Ok?
    ensures Decode(SetInode(b, offset, inode), offset) == Ok(Decode(b, offset).value.(inode := inode))
  {
    hide Utf8, ToLe, FromLe, RequiredLen;
    var e := Decode(b, offset).value;
    var b' := SetInode(b, offset, inode);
    RangeValues();
    FromToLe(inode, 8);
    PatchElsewhere(b, offset, ToLe(inode, 8), offset + 8, offset + 10);
    PatchElsewhere(b, offset, ToLe(inode, 8), offset + 12, offset + 12 + |e.name|);
    assert b'[offset + 10] == b[offset + 10] && b'[offset + 11] == b[offset + 11];
  }

  // ---------------------------------------------------------------- walking a block

  /** The records from `offset` to the end of the block. */
  function Walk(block: Block, offset: nat): (r: Result<seq<DirEntry>>)
    decreases |block| - offset
  {
    if offset >= UB then Ok([])
    else
      match Decode(block, offset)
      case Err(e) => Err(e)
      case Ok(entry) =>
        match Walk(block, offset + entry.recLen)
        case Err(e) => Err(e)
        case Ok(rest) => Ok([entry] + rest)
  }

  function Extent(recs: seq<DirEntry>): nat {
    if recs == [] then 0 else recs[0].recLen + Extent(recs[1..])
  }

  /** `recs` are the records that fill the block from `from` to `to`. */
  ghost predicate Tiles(b: Block, from: nat, recs: seq<DirEntry>, to: nat)
    decreases |recs|
  {
    if recs == [] then from == to
    else Decode(b, from) == Ok(recs[0]) && Tiles(b, from + recs[0].recLen, recs[1..], to)
  }

  lemma {:induction false} TilesExtent(b: Block, from: nat, recs: seq<DirEntry>, to: nat)
    requires Tiles(b, from, recs, to)
    ensures to == from + Extent(recs)
    ensures from <= UB ==> to <= UB
    ensures forall k :: 0 <= k < |recs| ==> Fits(recs[k])
    decreases |recs|
  {
    if recs != [] {
      TilesExtent(b, from + recs[0].recLen, recs[1..], to);
    }
  }

  /** Walking a block succeeds exactly when records tile it to its very end. */
  lemma {:induction false} WalkTiles(b: Block, from: nat, recs: seq<DirEntry>)
    requires from <= UB
    ensures Walk(b, from) == Ok(recs) <==> Tiles(b, from, recs, UB)
    decreases UB - from
  {
    if from < UB {
      if Decode(b, from).Ok? && recs != [] {
        WalkTiles(b, from + Decode(b, from).value.recLen, recs[1..]);
        match Walk(b, from + Decode(b, from).value.recLen) {
          case Ok(rest) => assert recs == [recs[0]] + recs[1..]; assert ([Decode(b, from).value] + rest)[1..] == rest;
          case Err(_) =>
        }
      }
    } else if recs != [] {
      assert Decode(b, from).Err?;
    }
  }

  /** Whatever the bytes of a block, a walk through it ends: in the one error a record can
      cause, or with records that fill the block exactly, none of them reaching past its end. */
  lemma {:induction false} WalkOutcome(b: Block, from: nat)
    requires from <= UB
    ensures match Walk(b, from)
            case Err(e) => e == Manifest
            case Ok(recs) => Tiles(b, from, recs, UB) && Extent(recs) == UB - from && forall k :: 0 <= k < |recs| ==>
              Fits(recs[k])
    decreases UB - from
  {
    if from < UB {
      match Decode(b, from) {
        case Ok(e) => WalkOutcome(b, from + e.recLen);
        case Err(_) =>
      }
    }
    match Walk(b, from) {
      case Ok(recs) =>
        WalkTiles(b, from, recs);
        TilesExtent(b, from, recs, UB);
      case Err(_) =>
    }
  }

  lemma {:induction false} TilesConcat(b: Block, from: nat, p: seq<DirEntry>, q: seq<DirEntry>, to: nat)
    ensures Tiles(b, from, p + q, to) <==> Tiles(b, from, p, from + Extent(p)) && Tiles(b, from + Extent(p), q, to)
    decreases |p|
  {
    hide Decode;
    if p == [] {
      assert p + q == q;
    } else {
      assert (p + q)[1..] == p[1..] + q;
      TilesConcat(b, from + p[0].recLen, p[1..], q, to);
    }
  }

  /** Records depend on their own bytes only. */
  lemma {:induction false} TilesFrame(b: Block, b': Block, from: nat, recs: seq<DirEntry>, to: nat)
    requires Tiles(b, from, recs, to) && from <= UB
    requires forall i :: from <= i < to && i < UB ==> b[i] == b'[i]
    ensures Tiles(b', from, recs, to)
    decreases |recs|
  {
    TilesExtent(b, from, recs, to);
    if recs != [] {
      var end := from + recs[0].recLen;
      TilesExtent(b, end, recs[1..], to);
      assert b[from..end] == b'[from..end];
      DecodeFrame(b, b', from);
      TilesFrame(b, b', end, recs[1..], to);
    }
  }
}
