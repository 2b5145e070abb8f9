/** Physical blocks: a header with a checksum, and with a nonce and a tag when encrypted, then the
    4032 bytes a block can hold. */
module PhysicalBlocks {
  import opened Bytes
  import opened Layout
  import opened Wrappers
  import opened Primitives

  /** The keys of an encrypted store: for the cipher and for the order of positions. */
  datatype StoreKeys = StoreKeys(cipher: seq<byte>, order: seq<byte>)

  /** The block with the checksum of its body in bytes 40 to 43. */
  function Framed(p: Primitives, prefix: seq<byte>, body: Block): (blk: seq<byte>)
    requires |prefix| == 40
    ensures |blk| == PB
  {
    prefix + ToLe(p.crc32(body), 4) + Zeros(20) + body
  }

  function BuildPhysicalBlock(p: Primitives, payload: seq<byte>): (blk: seq<byte>)
    requires |payload| <= UB
    ensures |blk| == PB
  {
    Framed(p, Zeros(40), Pad(payload))
  }

  function ReadPhysicalBlock(p: Primitives, lba: nat, blk: seq<byte>): Result<Block> {
    if |blk| != PB then Err(Manifest)
    else if p.crc32(blk[BLOCK_HEADER..PB]) != FromLe32(blk[40..44]) then Err(BlockCrc(lba))
    else Ok(blk[BLOCK_HEADER..PB])
  }

  lemma FramedParts(p: Primitives, prefix: seq<byte>, body: Block)
    requires |prefix| == 40
    ensures var blk := Framed(p, prefix, body);
            && blk[..40] == prefix && blk[BLOCK_HEADER..PB] == body
            && FromLe32(blk[40..44]) == p.crc32(body)
  {
    hide ToLe, FromLe;
    var blk := Framed(p, prefix, body);
    RangeValues();
    FromToLe(p.crc32(body), 4);
    assert blk[40..44] == ToLe(p.crc32(body), 4);
  }

  function Encrypt(p: Primitives, key: seq<byte>, nonce: seq<byte>, lba: nat, payload: seq<byte>): (blk: seq<byte>)
    requires p.Lawful() && |nonce| == 24 && |payload| <= UB
    ensures |blk| == PB
  {
    var (sealed, tag) := p.seal(key, nonce, lba, Pad(payload));
    Framed(p, nonce + tag, sealed)
  }

  function Decrypt(p: Primitives, key: seq<byte>, lba: nat, blk: seq<byte>): Result<Block> {
    if |blk| != PB then Err(Auth)
    else if p.crc32(blk[BLOCK_HEADER..PB]) != FromLe32(blk[40..44]) then Err(Auth)
    else
      match p.unseal(key, blk[0..24], lba, blk[BLOCK_HEADER..PB], blk[24..40])
      case None => Err(Auth)
      case Some(text) => if |text| == UB then Ok(text) else Err(Auth)
  }

  /** What a physical block holds, in a plain or an encrypted store. */
  function Decoded(p: Primitives, keys: Option<StoreKeys>, lba: nat, blk: seq<byte>): Result<Block> {
    match keys
    case None => ReadPhysicalBlock(p, lba, blk)
    case Some(k) => Decrypt(p, k.cipher, lba, blk)
  }

  /** The physical block a payload becomes. */
  function EncodedWith(p: Primitives, keys: Option<StoreKeys>, nonce: seq<byte>, lba: nat,
      payload: seq<byte>): (blk: seq<byte>)
    requires p.Lawful() && |nonce| == 24 && |payload| <= UB
    ensures |blk| == PB
  {
    match keys
    case None => BuildPhysicalBlock(p, payload)
    case Some(k) => Encrypt(p, k.cipher, nonce, lba, payload)
  }

  /** Whatever nonce was drawn, a block decodes to the payload it was made from, zero-padded. */
  lemma BlockRoundTrip(p: Primitives, keys: Option<StoreKeys>, nonce: seq<byte>, lba: nat, payload: seq<byte>)
    requires p.Lawful() && |nonce| == 24 && |payload| <= UB
    ensures Decoded(p, keys, lba, EncodedWith(p, keys, nonce, lba, payload)) == Ok(Pad(payload))
  {
    hide Framed, FromLe, Pad;
    match keys {
      case None => FramedParts(p, Zeros(40), Pad(payload));
      case Some(k) =>
        var (sealed, tag) := p.seal(k.cipher, nonce, lba, Pad(payload));
        FramedParts(p, nonce + tag, sealed);
        var blk := Framed(p, nonce + tag, sealed);
        assert blk[0..24] == blk[..40][..24] == nonce;
        assert blk[24..40] == blk[..40][24..] == tag;
    }
  }
}
