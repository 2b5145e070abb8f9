/** Byte strings as streams of bits, most significant bit first, and cells that each carry one
    bit of such a stream. */
module Bitstreams {
  import opened Bytes
  import opened Bits

  /** Bit `i` of the stream: `byte >> (7 - i % 8) & 1`. */
  function StreamBit(s: seq<byte>, i: nat): bit
    requires i < 8 * |s|
  {
    BitAt(s[i / 8], 7 - i % 8)
  }

  function BitsOf(s: seq<byte>): (r: seq<bit>)
    ensures |r| == 8 * |s|
    ensures forall i {:trigger r[i]} :: 0 <= i < |r| ==> r[i] == StreamBit(s, i)
  {
    seq(8 * |s|, i requires 0 <= i < 8 * |s| => StreamBit(s, i))
  }

  /** Bit `i` of the stream that `first` and `second` make together. */
  function PayloadBit(first: seq<byte>, second: seq<byte>, i: nat): (b: bit)
    requires i < 8 * (|first| + |second|)
    ensures b == BitsOf(first + second)[i]
  {
    var byteIndex, bitInByte := i / 8, 7 - i % 8;
    assert (first + second)[byteIndex] == if byteIndex < |first| then first[byteIndex] else second[byteIndex - |first|];
    BitAt(if byteIndex < |first| then first[byteIndex] else second[byteIndex - |first|], bitInByte)
  }

  lemma ZeroStream(s: seq<byte>)
    requires forall k :: 0 <= k < |s| ==> s[k] == 0
    ensures forall i {:trigger StreamBit(s, i)} :: 0 <= i < 8 * |s| ==> StreamBit(s, i) == 0
  {
    forall i | 0 <= i < 8 * |s|
      ensures StreamBit(s, i) == 0
    {
      ZeroBits(7 - i % 8);
    }
  }

  /** The stream with bit `i` set. */
  function WithStreamBit(s: seq<byte>, i: nat): (r: seq<byte>)
    requires i < 8 * |s|
    ensures |r| == |s|
    ensures forall j {:trigger StreamBit(r, j)} :: 0 <= j < 8 * |s| ==>
      StreamBit(r, j) == if j == i then 1 else StreamBit(s, j)
  {
    var r := s[i / 8 := WithBit(s[i / 8], 7 - i % 8, 1)];
    assert forall j {:trigger StreamBit(r, j)} :: 0 <= j < 8 * |s| ==>
        StreamBit(r, j) == if j == i then 1 else StreamBit(s, j) by {
      hide BitAt, WithBit;
      forall j | 0 <= j < 8 * |s|
        ensures StreamBit(r, j) == if j == i then 1 else StreamBit(s, j)
      {
        assert j / 8 == i / 8 && 7 - j % 8 == 7 - i % 8 ==> j == i;
      }
    }
    r
  }

  /** Byte strings with the same bits are the same. */
  lemma SameStream(a: seq<byte>, b: seq<byte>)
    requires |a| == |b|
    requires forall i {:trigger StreamBit(a, i)} {:trigger StreamBit(b, i)} :: 0 <= i < 8 * |a| ==>
      StreamBit(a, i) == StreamBit(b, i)
    ensures a == b
  {
    hide BitAt;
    forall k | 0 <= k < |a|
      ensures a[k] == b[k]
    {
      forall j | 0 <= j < 8
        ensures BitAt(a[k], j) == BitAt(b[k], j)
      {
        var i := 8 * k + (7 - j);
        assert StreamBit(a, i) == StreamBit(b, i);
      }
      assert Pow2(8) == 0x100;
      SameBits(a[k], b[k], 8);
    }
  }

  /** The number whose binary digits are `bits`, first digit first. */
  function FromDigits(bits: seq<bit>): (n: nat)
    ensures n < Pow2(|bits|)
  {
    if bits == [] then 0 else 2 * FromDigits(bits[..|bits| - 1]) + bits[|bits| - 1]
  }

  lemma {:induction false} DigitAt(bits: seq<bit>, j: nat)
    requires j < |bits|
    ensures BitAt(FromDigits(bits), |bits| - 1 - j) == bits[j]
  {
    var front, last := bits[..|bits| - 1], bits[|bits| - 1];
    assert FromDigits(bits) / 2 == FromDigits(front);
    if j < |front| {
      DigitAt(front, j);
    }
  }

  /** The bytes of a stream of bits. */
  function Packed(bits: seq<bit>): (s: seq<byte>)
    requires |bits| % 8 == 0
    ensures |s| == |bits| / 8
  {
    assert Pow2(8) == 0x100;
    if bits == [] then [] else [FromDigits(bits[..8])] + Packed(bits[8..])
  }

  lemma {:induction false} PackedAt(bits: seq<bit>, i: nat)
    requires |bits| % 8 == 0 && i < |bits|
    ensures StreamBit(Packed(bits), i) == bits[i]
  {
    hide BitAt, FromDigits;
    if i < 8 {
      DigitAt(bits[..8], i);
    } else {
      PackedAt(bits[8..], i - 8);
      assert Packed(bits)[1..] == Packed(bits[8..]);
    }
  }

  // ---------------------------------------------------------------- cells

  predicate Distinct(positions: seq<nat>) {
    forall i, j :: 0 <= i < j < |positions| ==> positions[i] != positions[j]
  }

  predicate InRange(positions: seq<nat>, bound: nat) {
    forall i :: 0 <= i < |positions| ==> positions[i] < bound
  }

  lemma NothingOutOfRange(positions: seq<nat>, bound: nat)
    requires positions == []
    ensures InRange(positions, bound)
  {
  }

  /** One position out of range is enough. */
  lemma OutOfRange(positions: seq<nat>, i: nat, n: nat, bound: nat)
    requires i < n <= |positions| && positions[i] >= bound
    ensures !InRange(positions[..n], bound)
  {
    assert positions[..n][i] == positions[i];
  }

  /** `cells` after bit `i` has been put into the cell at `positions[i]`, for all bits in turn. */
  function Embedded<V>(cells: seq<V>, positions: seq<nat>, bits: seq<bit>, put: (V, bit) -> V): (r: seq<V>)
    requires |bits| <= |positions| && InRange(positions[..|bits|], |cells|)
    ensures |r| == |cells|
  {
    if bits == [] then cells
    else
      var n := |bits| - 1;
      assert positions[..n] == positions[..n + 1][..n] && positions[n] == positions[..n + 1][n];
      var before := Embedded(cells, positions, bits[..n], put);
      before[positions[n] := put(before[positions[n]], bits[n])]
  }

  lemma EmbeddedNone<V>(cells: seq<V>, positions: seq<nat>, bits: seq<bit>, put: (V, bit) -> V)
    requires bits == []
    ensures Embedded(cells, positions, bits, put) == cells
  {
  }

  /** One more bit is embedded. */
  lemma EmbeddedStep<V>(cells: seq<V>, positions: seq<nat>, bits: seq<bit>, n: nat, put: (V, bit) -> V)
    requires n < |bits| <= |positions| && InRange(positions[..n], |cells|) && positions[n] < |cells|
    ensures InRange(positions[..n + 1], |cells|)
    ensures var before := Embedded(cells, positions, bits[..n], put);
            Embedded(cells, positions, bits[..n + 1], put) == before[positions[n] := put(before[positions[n]], bits[n])]
  {
    assert bits[..n + 1][..n] == bits[..n];
    assert positions[..n + 1] == positions[..n] + [positions[n]];
  }

  lemma {:induction false} EmbeddedElsewhere<V>(cells: seq<V>, positions: seq<nat>, bits: seq<bit>, put: (V, bit) -> V,
      p: nat)
    requires |bits| <= |positions| && InRange(positions[..|bits|], |cells|)
    requires p < |cells| && p !in positions[..|bits|]
    ensures Embedded(cells, positions, bits, put)[p] == cells[p]
  {
    if bits != [] {
      var n := |bits| - 1;
      assert positions[..n] == positions[..n + 1][..n] && positions[n] == positions[..n + 1][n];
      EmbeddedElsewhere(cells, positions, bits[..n], put, p);
    }
  }

  /** Each of several different cells ends up with its own bit put into its original value. */
  lemma {:induction false} EmbeddedAt<V>(cells: seq<V>, positions: seq<nat>, bits: seq<bit>, put: (V, bit) -> V, i: nat)
    requires |bits| <= |positions| && InRange(positions[..|bits|], |cells|) && Distinct(positions)
    requires i < |bits|
    ensures positions[i] < |cells|
    ensures Embedded(cells, positions, bits, put)[positions[i]] == put(cells[positions[i]], bits[i])
  {
    var n := |bits| - 1;
    assert positions[..n] == positions[..n + 1][..n] && positions[n] == positions[..n + 1][n];
    if i == n {
      forall j | 0 <= j < n
        ensures positions[..n][j] != positions[n]
      {
      }
      EmbeddedElsewhere(cells, positions, bits[..n], put, positions[n]);
    } else {
      EmbeddedAt(cells, positions, bits[..n], put, i);
    }
  }

  /** The bytes found in the low bits of the cells at `length * 8` positions from `offset` on. */
  function Gathered(low: seq<bit>, positions: seq<nat>, offset: nat, length: nat): (s: seq<byte>)
    requires offset + 8 * length <= |positions| && InRange(positions, |low|)
    ensures |s| == length
  {
    Packed(seq(8 * length, i requires 0 <= i < 8 * length => low[positions[offset + i]]))
  }

  lemma GatheredAt(low: seq<bit>, positions: seq<nat>, offset: nat, length: nat, i: nat)
    requires offset + 8 * length <= |positions| && InRange(positions, |low|) && i < 8 * length
    ensures StreamBit(Gathered(low, positions, offset, length), i) == low[positions[offset + i]]
  {
    PackedAt(seq(8 * length, k requires 0 <= k < 8 * length => low[positions[offset + k]]), i);
  }

  /** Whatever bytes have the gathered bits are the gathered bytes. */
  lemma GatheredIs(low: seq<bit>, positions: seq<nat>, offset: nat, length: nat, s: seq<byte>)
    requires offset + 8 * length <= |positions| && InRange(positions, |low|) && |s| == length
    requires forall i {:trigger StreamBit(s, i)} :: 0 <= i < 8 * length ==>
      StreamBit(s, i) == low[positions[offset + i]]
    ensures Gathered(low, positions, offset, length) == s
  {
    hide StreamBit, Gathered;
    forall i | 0 <= i < 8 * length
      ensures StreamBit(Gathered(low, positions, offset, length), i) == StreamBit(s, i)
    {
      GatheredAt(low, positions, offset, length, i);
    }
    SameStream(Gathered(low, positions, offset, length), s);
  }
}
