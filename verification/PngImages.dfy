/** Bytes hidden in the low bits of the red, green and blue values of an image. */
module PngImages {
  import opened Bytes
  import opened Bits
  import opened Wrappers
  import opened Bitstreams

  /** `value & 0xfe | b` */
  function PutChannel(value: byte, b: bit): byte {
    value / 2 * 2 + b
  }

  lemma PutChannelKeeps(value: byte, b: bit)
    ensures PutChannel(value, b) % 2 == b && PutChannel(value, b) / 2 == value / 2
  {
  }

  /** Where in the pixel buffer the value at a position is: three of the four bytes of a pixel
      are counted, the fourth is its opacity. */
  function ChannelIndex(p: nat): nat {
    4 * (p / 3) + p % 3
  }

  lemma ChannelIndexInjective(p: nat, q: nat)
    ensures ChannelIndex(p) == ChannelIndex(q) ==> p == q
    ensures ChannelIndex(p) % 4 != 3
  {
  }

  lemma ChannelInside(area: nat, p: nat)
    requires p < 3 * area
    ensures ChannelIndex(p) < 4 * area
  {
  }

  /** The values that can carry a bit, in the order positions count them. */
  function Channels(data: seq<byte>, area: nat): (cells: seq<byte>)
    requires |data| == 4 * area
    ensures |cells| == 3 * area
  {
    seq(3 * area, p requires 0 <= p < 3 * area => ChannelInside(area, p); data[ChannelIndex(p)])
  }

  /** Column and row of a pixel name its place in the buffer. */
  lemma PixelPlace(width: nat, height: nat, pixel: nat)
    requires pixel < width * height
    ensures width > 0 && pixel % width < width && pixel / width < height
    ensures pixel / width * width + pixel % width == pixel
  {
    if width > 0 && pixel / width >= height {
      MulMonotone(height, pixel / width, width);
    }
  }

  lemma MulMonotone(a: nat, b: nat, c: nat)
    requires a <= b
    ensures a * c <= b * c
  {
  }

  /** Different positions are different channels of pixels. */
  lemma {:induction false} PositionsDiffer(width: nat, height: nat, p: nat, q: nat)
    requires p / 3 < width * height && q / 3 < width * height && p != q && width > 0
    ensures p / 3 % width != q / 3 % width || p / 3 / width != q / 3 / width || p % 3 != q % 3
  {
    PixelPlace(width, height, p / 3);
    PixelPlace(width, height, q / 3);
  }

  /** Storing a channel changes that channel only. */
  lemma ChannelStored(data: seq<byte>, area: nat, p: nat, value: byte)
    requires |data| == 4 * area && p < 3 * area
    ensures ChannelIndex(p) < |data|
    ensures Channels(data[ChannelIndex(p) := value], area) == Channels(data, area)[p := value]
  {
    ChannelInside(area, p);
    var data' := data[ChannelIndex(p) := value];
    forall q | 0 <= q < 3 * area
      ensures Channels(data', area)[q] == Channels(data, area)[p := value][q]
    {
      ChannelInside(area, q);
      ChannelIndexInjective(p, q);
    }
  }

  /** What embedding leaves alone: opacity, and channels at no used position. */
  ghost predicate OnlyChannels(data: seq<byte>, data': seq<byte>) {
    |data'| == |data| && forall k {:trigger data'[k]} :: 0 <= k < |data| && k % 4 == 3 ==> data'[k] == data[k]
  }

  class RgbaImage {
    const width: nat
    const height: nat
    const data: array<byte>

    ghost predicate Valid()
      reads this
    {
      data.Length == 4 * (width * height)
    }

    function Slots(): nat {
      3 * (width * height)
    }

    constructor (width: nat, height: nat, pixels: seq<byte>)
      requires |pixels| == 4 * (width * height)
      ensures Valid() && fresh(data) && this.width == width && this.height == height && data[..] == pixels
    {
      this.width, this.height := width, height;
      data := new byte[|pixels|](k requires 0 <= k < |pixels| => pixels[k]);
      new;
      assert data[..] == pixels;
    }

    /** The place of a position's channel, by the pixel's column and row. */
    method PixelAt(position: nat) returns (at: nat)
      requires Valid() && position < Slots()
      ensures at == ChannelIndex(position) < data.Length
    {
      var pixelIndex, channel := position / 3, position % 3;
      PixelPlace(width, height, pixelIndex);
      var x, y := pixelIndex % width, pixelIndex / width;
      ChannelInside(width * height, position);
      at := 4 * (y * width + x) + channel;
    }

    /** Put the bits of `first` and `second` into the channels at `positions`. */
    method WriteBytes(positions: seq<nat>, first: seq<byte>, second: seq<byte>) returns (r: Result<()>)
      requires Valid() && InRange(positions, Slots())
      modifies data
      ensures OnlyChannels(old(data[..]), data[..])
      ensures var total := 8 * |first + second|;
              if |positions| < total then r == Err(Codec(PayloadTooLarge)) && data[..] == old(data[..])
              else
                && InRange(positions[..total], Slots())
                && r == Ok(())
                && Channels(data[..], width * height) ==
                  Embedded(old(Channels(data[..], width * height)), positions, BitsOf(first + second), PutChannel)
    {
      hide Channels, Embedded, StreamBit, OnlyChannels, PutChannel;
      var totalBits := (|first| + |second|) * 8;
      OnlyChannelsRefl(data[..]);
      if |positions| < totalBits {
        return Err(Codec(PayloadTooLarge));
      }
      ghost var area, cells, bits := width * height, Channels(data[..], width * height), BitsOf(first + second);
      EmbeddedNone(cells, positions, bits[..0], PutChannel);
      for bitIndex := 0 to totalBits
        invariant OnlyChannels(old(data[..]), data[..])
        invariant InRange(positions[..bitIndex], |cells|)
        invariant Channels(data[..], area) == Embedded(cells, positions, bits[..bitIndex], PutChannel)
      {
        var bit := PayloadBit(first, second, bitIndex);
        var at := PixelAt(positions[bitIndex]);
        ghost var before := data[..];
        ChannelStored(before, area, positions[bitIndex], PutChannel(before[at], bit));
        ChannelValue(before, area, positions[bitIndex]);
        data[at] := PutChannel(data[at], bit);
        assert data[..] == before[at := PutChannel(before[at], bit)];
        OnlyChannelsStep(old(data[..]), before, at, PutChannel(before[at], bit));
        EmbeddedStep(cells, positions, bits, bitIndex, PutChannel);
      }
      assert bits[..totalBits] == bits;
      return Ok(());
    }

    /** Read `length` bytes back from the channels at the positions from `bitOffset` on. */
    method ReadBytes(positions: seq<nat>, bitOffset: nat, length: nat) returns (r: Result<seq<byte>>)
      requires Valid() && InRange(positions, Slots())
      ensures var end := bitOffset + 8 * length;
              if end > |positions| then r == Err(Codec(NotACarrier))
              else
                && r.Ok? && |r.value| == length
                && forall i {:trigger StreamBit(r.value, i)} :: 0 <= i < 8 * length ==>
                  StreamBit(r.value, i) == Channels(data[..], width * height)[positions[bitOffset + i]] % 2
    {
      hide Channels, StreamBit;
      var end := bitOffset + 8 * length;
      if end > |positions| {
        return Err(Codec(NotACarrier));
      }
      var bytes := new byte[length](_ => 0);
      ghost var cells := Channels(data[..], width * height);
      ZeroStream(bytes[..]);
      for outputBit := 0 to 8 * length
        invariant data[..] == old(data[..])
        invariant forall i {:trigger StreamBit(bytes[..], i)} :: 0 <= i < 8 * length ==>
          StreamBit(bytes[..], i) == if i < outputBit then cells[positions[bitOffset + i]] % 2 else 0
      {
        var at := PixelAt(positions[bitOffset + outputBit]);
        ChannelValue(data[..], width * height, positions[bitOffset + outputBit]);
        var bit := data[at] % 2;
        if bit == 1 {
          ghost var before := bytes[..];
          bytes[outputBit / 8] := WithBit(bytes[outputBit / 8], 7 - outputBit % 8, 1);
          assert bytes[..] == WithStreamBit(before, outputBit);
        }
      }
      return Ok(bytes[..]);
    }
  }

  lemma ChannelValue(data: seq<byte>, area: nat, p: nat)
    requires |data| == 4 * area && p < 3 * area
    ensures ChannelIndex(p) < |data| && Channels(data, area)[p] == data[ChannelIndex(p)]
  {
    ChannelInside(area, p);
  }

  lemma OnlyChannelsRefl(data: seq<byte>)
    ensures OnlyChannels(data, data)
  {
  }

  lemma OnlyChannelsStep(data: seq<byte>, data': seq<byte>, at: nat, value: byte)
    requires OnlyChannels(data, data') && at < |data| && at % 4 != 3
    ensures OnlyChannels(data, data'[at := value])
  {
  }

  /** Embedding at different positions, in any order, gives every bit back at its position and
      changes no other channel. */
  lemma ChannelsKeep(cells: seq<byte>, positions: seq<nat>, bits: seq<bit>)
    requires |bits| <= |positions| && Distinct(positions) && InRange(positions, |cells|)
    ensures InRange(positions[..|bits|], |cells|)
    ensures var cells' := Embedded(cells, positions, bits, PutChannel);
            && (forall i :: 0 <= i < |bits| ==>
              cells'[positions[i]] % 2 == bits[i] && cells'[positions[i]] / 2 == cells[positions[i]] / 2)
            && (forall p :: 0 <= p < |cells| && p !in positions[..|bits|] ==> cells'[p] == cells[p])
  {
    hide Embedded, PutChannel;
    var cells' := Embedded(cells, positions, bits, PutChannel);
    assert positions[..|bits|] <= positions;
    forall i | 0 <= i < |bits|
      ensures positions[..|bits|][i] < |cells|
    {
      assert positions[..|bits|][i] == positions[i];
    }
    forall i | 0 <= i < |bits|
      ensures cells'[positions[i]] % 2 == bits[i] && cells'[positions[i]] / 2 == cells[positions[i]] / 2
    {
      EmbeddedAt(cells, positions, bits, PutChannel, i);
      PutChannelKeeps(cells[positions[i]], bits[i]);
    }
    forall p | 0 <= p < |cells| && p !in positions[..|bits|]
      ensures cells'[p] == cells[p]
    {
      EmbeddedElsewhere(cells, positions, bits, PutChannel, p);
    }
  }
}
