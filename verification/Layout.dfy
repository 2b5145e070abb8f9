/** Block sizes and the division of the block array into regions. */
module Layout {
  import opened Bytes

  const PB: nat := 4096
  const BLOCK_HEADER: nat := 64
  const UB: nat := 4032

  /** The usable part of a physical block. */
  type Block = b: seq<byte> | |b| == 4032 witness Zeros(4032)

  const ZERO_BLOCK: Block := Zeros(4032)

  /** What a block holds after `payload` is written to it. */
  function Pad(payload: seq<byte>): (b: Block)
    requires |payload| <= UB
    ensures |payload| == UB ==> b == payload
    ensures payload == [] ==> b == ZERO_BLOCK
  {
    payload + Zeros(UB - |payload|)
  }

  /** `b` with the bytes from `at` on replaced by `s`. */
  function Patch(b: seq<byte>, at: nat, s: seq<byte>): (r: seq<byte>)
    requires at + |s| <= |b|
    ensures |r| == |b|
    ensures forall i {:trigger r[i]} :: 0 <= i < |b| ==> r[i] == if at <= i < at + |s| then s[i - at] else b[i]
    ensures r[at..at + |s|] == s
  {
    b[..at] + s + b[at + |s|..]
  }

  /** Bytes of `b` away from a patch read as before. */
  lemma PatchElsewhere(b: seq<byte>, at: nat, s: seq<byte>, lo: nat, hi: nat)
    requires at + |s| <= |b| && lo <= hi <= |b|
    requires hi <= at || at + |s| <= lo
    ensures Patch(b, at, s)[lo..hi] == b[lo..hi]
  {
    var r := Patch(b, at, s);
    assert forall i {:trigger r[lo..hi][i]} :: 0 <= i < hi - lo ==> r[lo..hi][i] == r[lo + i] == b[lo + i];
  }

  /** Sequences that agree on two neighbouring parts agree on both together. */
  lemma Joint<V>(a: seq<V>, b: seq<V>, lo: nat, mid: nat, hi: nat)
    requires lo <= mid <= hi <= |a| && hi <= |b| && a[lo..mid] == b[lo..mid] && a[mid..hi] == b[mid..hi]
    ensures a[lo..hi] == b[lo..hi]
  {
    assert a[lo..hi] == a[lo..mid] + a[mid..hi] && b[lo..hi] == b[lo..mid] + b[mid..hi];
  }

  lemma Associative<V>(a: seq<V>, b: seq<V>, c: seq<V>)
    ensures (a + b) + c == a + (b + c)
  {
  }

  /** A sequence is what comes before an element, the element and what comes after. */
  lemma Around<V>(s: seq<V>, i: nat)
    requires i < |s|
    ensures s == s[..i] + ([s[i]] + s[i + 1..])
  {
  }

  lemma ZeroSlice(from: nat, take: nat)
    requires from + take <= 4032
    ensures ZERO_BLOCK[from..from + take] == Zeros(take)
  {
  }
}
