/** The checksums, the keyed shuffle and the cipher the program takes from libraries: functions
    about which only their laws are assumed. */
module Primitives {
  import opened Bytes
  import opened Wrappers
  import Bitstreams

  /** A list of `n` numbers that names each of `0..n` once. */
  predicate IsPermutation(p: seq<nat>, n: nat) {
    |p| == n && Bitstreams.Distinct(p) && Bitstreams.InRange(p, n)
  }

  datatype Primitives = Primitives(
    crc32: seq<byte> -> u32,
    crc16: seq<byte> -> u16,
    permutation: (seq<byte>, u32, nat) -> seq<nat>,
    seal: (seq<byte>, seq<byte>, nat, seq<byte>) -> (seq<byte>, seq<byte>),
    unseal: (seq<byte>, seq<byte>, nat, seq<byte>, seq<byte>) -> Option<seq<byte>>)
  {
    /** A key, a chunk index and a length always give the same shuffle; what was sealed under a
        key, a nonce and a block number opens under them. */
    ghost predicate Lawful() {
      && (forall key, index, n {:trigger permutation(key, index, n)} :: IsPermutation(permutation(key, index, n), n))
      && (forall key, nonce, lba, text {:trigger seal(key, nonce, lba, text)} ::
        var (sealed, tag) := seal(key, nonce, lba, text);
        |sealed| == |text| && |tag| == 16 && unseal(key, nonce, lba, sealed, tag) == Some(text))
    }
  }

  /** The laws can be met: by the shuffle that shuffles nothing and the cipher that hides nothing. */
  lemma LawsConsistent() returns (p: Primitives)
    ensures p.Lawful()
  {
    p := Primitives(_ => 0, _ => 0, (_, _, n: nat) => seq(n, i => if 0 <= i then i else 0),
                    (_, _, _, text) => (text, Zeros(16)), (_, _, _, sealed, _) => Some(sealed));
  }
}
