/** Bytes hidden in the low bits of JPEG coefficients.  The coefficients used are found again by
    looking at the image that already carries the bytes. */
module JpegImages {
  import opened Bytes
  import opened Bits
  import opened Wrappers
  import opened Bitstreams

  type coef = x: int | -0x8000 <= x < 0x8000
  type CoefBlock = b: seq<coef> | |b| == 64 witness seq(64, _ => 0)

  function Magnitude(c: coef): nat {
    var x: int := c;
    if x < 0 then -x else x
  }

  /** The low 16 bits as a signed number. */
  function AsI16(x: int): coef {
    (x + 0x8000) % 0x1_0000 - 0x8000
  }

  /** The coefficient with the low bit of its magnitude replaced. */
  function PutCoef(c: coef, b: bit): coef {
    var embedded := Magnitude(c) / 2 * 2 + b;
    AsI16(if c < 0 then -embedded else embedded)
  }

  /** Magnitude two or more: large enough to stay so whatever its low bit becomes. */
  predicate Carries(c: coef) {
    Magnitude(c) >= 2
  }

  /** A coefficient that can carry a bit still can afterwards, and gives the bit back.  Only the
      most negative coefficient can change by more than one or change sign. */
  lemma PutCoefKeeps(c: coef, b: bit)
    requires Carries(c)
    ensures Carries(PutCoef(c, b)) && Magnitude(PutCoef(c, b)) % 2 == b
    ensures c != -0x8000 ==> -1 <= PutCoef(c, b) - c <= 1 && (PutCoef(c, b) < 0 <==> c < 0)
  {
  }

  /** Only the low bit of the magnitude is replaced; the most negative number, which has no room for
      a one, becomes the largest. */
  lemma PutCoefExact(c: coef, b: bit)
    requires Carries(c) && c != -0x8000
    ensures PutCoef(c, b) == if c < 0 then -((0 - c) / 2 * 2 + b) else c / 2 * 2 + b
    ensures PutCoef(-0x8000, 0) == -0x8000 && PutCoef(-0x8000, 1) == 0x7FFF
  {
  }

  // ---------------------------------------------------------------- positions

  /** All blocks, component after component. */
  function Flat(components: seq<seq<CoefBlock>>): seq<CoefBlock> {
    if components == [] then [] else Flat(components[..|components| - 1]) + components[|components| - 1]
  }

  /** All coefficients in the order positions count them. */
  function Cells(components: seq<seq<CoefBlock>>): (cells: seq<coef>)
    ensures |cells| == 64 * |Flat(components)|
  {
    seq(64 * |Flat(components)|, p requires 0 <= p < 64 * |Flat(components)| => Flat(components)[p / 64][p % 64])
  }

  predicate UsableAt(cells: seq<coef>, p: nat)
    requires p < |cells|
  {
    p % 64 != 0 && Carries(cells[p])
  }

  /** The positions below `n` of coefficients that can carry a bit, in order. */
  function Usable(cells: seq<coef>, n: nat): seq<nat>
    requires n <= |cells|
  {
    if n == 0 then []
    else if UsableAt(cells, n - 1) then Usable(cells, n - 1) + [n - 1]
    else Usable(cells, n - 1)
  }

  lemma {:induction false} UsableMembers(cells: seq<coef>, n: nat, p: nat)
    requires n <= |cells|
    ensures p in Usable(cells, n) <==> p < n && UsableAt(cells, p)
  {
    if n > 0 {
      UsableMembers(cells, n - 1, p);
    }
  }

  lemma {:induction false} UsableDistinct(cells: seq<coef>, n: nat)
    requires n <= |cells|
    ensures Distinct(Usable(cells, n)) && InRange(Usable(cells, n), n)
  {
    if n > 0 {
      UsableDistinct(cells, n - 1);
    }
  }

  lemma NoneUsable(cells: seq<coef>)
    ensures Usable(cells, 0) == []
  {
  }

  /** Images that agree on which coefficients can carry a bit have the same positions. */
  lemma {:induction false} UsableSame(cells: seq<coef>, cells': seq<coef>, n: nat)
    requires n <= |cells| == |cells'|
    requires forall p :: 0 <= p < n ==> UsableAt(cells', p) == UsableAt(cells, p)
    ensures Usable(cells', n) == Usable(cells, n)
  {
    if n > 0 {
      UsableSame(cells, cells', n - 1);
    }
  }

  /** Embedding at usable positions, in any order, leaves the image with the same usable
      positions; it gives every bit back at its position and touches no other coefficient. */
  lemma EmbeddingStable(cells: seq<coef>, positions: seq<nat>, bits: seq<bit>)
    requires |bits| <= |positions| && Distinct(positions)
    requires forall i :: 0 <= i < |positions| ==> positions[i] in Usable(cells, |cells|)
    ensures InRange(positions, |cells|)
    ensures var cells' := Embedded(cells, positions, bits, PutCoef);
            && Usable(cells', |cells'|) == Usable(cells, |cells|)
            && (forall i :: 0 <= i < |bits| ==> Magnitude(cells'[positions[i]]) % 2 == bits[i])
            && (forall p :: 0 <= p < |cells| && p !in positions[..|bits|] ==> cells'[p] == cells[p])
  {
    hide Usable, Embedded, PutCoef;
    forall i | 0 <= i < |positions|
      ensures positions[i] < |cells| && UsableAt(cells, positions[i])
    {
      UsableMembers(cells, |cells|, positions[i]);
    }
    var cells' := Embedded(cells, positions, bits, PutCoef);
    forall p | 0 <= p < |cells| && p !in positions[..|bits|]
      ensures cells'[p] == cells[p]
    {
      EmbeddedElsewhere(cells, positions, bits, PutCoef, p);
    }
    forall i | 0 <= i < |bits|
      ensures Carries(cells'[positions[i]]) && Magnitude(cells'[positions[i]]) % 2 == bits[i]
    {
      EmbeddedAt(cells, positions, bits, PutCoef, i);
      PutCoefKeeps(cells[positions[i]], bits[i]);
    }
    forall p | 0 <= p < |cells|
      ensures UsableAt(cells', p) == UsableAt(cells, p)
    {
      if p in positions[..|bits|] {
        var i :| 0 <= i < |bits| && positions[..|bits|][i] == p;
        assert positions[i] == p;
      }
    }
    UsableSame(cells, cells', |cells|);
  }

  // ---------------------------------------------------------------- blocks and positions

  lemma {:induction false} FlatPrefix(components: seq<seq<CoefBlock>>, c: nat)
    requires c < |components|
    ensures |Flat(components[..c])| + |components[c]| <= |Flat(components)|
    ensures forall b :: 0 <= b < |components[c]| ==> Flat(components)[|Flat(components[..c])| + b] == components[c][b]
    ensures |Flat(components[..c + 1])| == |Flat(components[..c])| + |components[c]|
  {
    var n := |components| - 1;
    assert components[..c + 1][..c] == components[..c];
    if c < n {
      FlatPrefix(components[..n], c);
      assert components[..n][..c] == components[..c];
    } else {
      assert components[..c + 1] == components;
    }
  }

  /** The components with one block replaced. */
  function WithBlock(components: seq<seq<CoefBlock>>, c: nat, b: nat, block: CoefBlock): seq<seq<CoefBlock>>
    requires c < |components| && b < |components[c]|
  {
    var row: seq<CoefBlock> := components[c][..b] + [block] + components[c][b + 1..];
    components[..c] + [row] + components[c + 1..]
  }

  lemma {:induction false} FlatUpdate(components: seq<seq<CoefBlock>>, c: nat, b: nat, block: CoefBlock)
    requires c < |components| && b < |components[c]|
    ensures var at := |Flat(components[..c])| + b;
            && at < |Flat(components)|
            && Flat(WithBlock(components, c, b, block)) == Flat(components)[at := block]
  {
    hide WithBlock;
    var n := |components| - 1;
    WithBlockParts(components, c, b, block);
    if c < n {
      FlatUpdate(components[..n], c, b, block);
      assert components[..n][..c] == components[..c];
      UpdateFront(Flat(components[..n]), components[n], |Flat(components[..c])| + b, block);
    } else {
      assert components[..c] == components[..n];
      UpdateBack(Flat(components[..n]), components[n], b, block);
    }
  }

  /** Replacing a block of the last component, or of one before it. */
  lemma WithBlockParts(components: seq<seq<CoefBlock>>, c: nat, b: nat, block: CoefBlock)
    requires c < |components| && b < |components[c]|
    ensures var (components', n) := (WithBlock(components, c, b, block), |components| - 1);
            && |components'| == |components|
            && (c < n ==>
              components'[..n] == WithBlock(components[..n], c, b, block) && components'[n] == components[n])
            && (c == n ==>
              && components'[..n] == components[..n]
              && components'[n] == components[n][..b] + [block] + components[n][b + 1..])
  {
    var n := |components| - 1;
    if c < n {
      assert components[..n][..c] == components[..c] && components[..n][c + 1..] == components[c + 1..n];
    }
  }

  lemma UpdateFront(a: seq<CoefBlock>, b: seq<CoefBlock>, at: nat, block: CoefBlock)
    requires at < |a|
    ensures a[at := block] + b == (a + b)[at := block]
  {
  }

  lemma UpdateBack(a: seq<CoefBlock>, b: seq<CoefBlock>, at: nat, block: CoefBlock)
    requires at < |b|
    ensures a + (b[..at] + [block] + b[at + 1..]) == (a + b)[|a| + at := block]
  {
  }

  lemma NothingFlat(components: seq<seq<CoefBlock>>)
    requires components == []
    ensures Flat(components) == []
  {
  }

  lemma CellAt(components: seq<seq<CoefBlock>>, c: nat, b: nat, index: nat)
    requires c < |components| && b < |components[c]| && index < 64
    ensures var at := 64 * (|Flat(components[..c])| + b) + index;
            at < |Cells(components)| && Cells(components)[at] == components[c][b][index]
  {
    hide Flat;
    FlatPrefix(components, c);
    InBlock(|Flat(components[..c])| + b, index);
  }

  lemma InBlock(block: nat, index: nat)
    requires index < 64
    ensures (64 * block + index) / 64 == block && (64 * block + index) % 64 == index
  {
  }

  /** The position after `n` is looked at. */
  lemma UsableStep(cells: seq<coef>, n: nat)
    requires n < |cells|
    ensures Usable(cells, n + 1) == Usable(cells, n) + if n % 64 != 0 && Magnitude(cells[n]) >= 2 then [n] else []
  {
  }

  /** The numbers of blocks of the components. */
  function Shape(components: seq<seq<CoefBlock>>): seq<nat> {
    seq(|components|, c requires 0 <= c < |components| => |components[c]|)
  }

  class JpegImage {
    var components: seq<seq<CoefBlock>>

    constructor (components: seq<seq<CoefBlock>>)
      ensures this.components == components
    {
      this.components := components;
    }

    method UsablePositions() returns (positions: seq<nat>)
      ensures positions == Usable(Cells(components), |Cells(components)|)
    {
      hide Usable, Cells, Magnitude, Flat;
      positions := [];
      var globalBlock := 0;
      ghost var cells := Cells(components);
      NoneUsable(cells);
      NothingFlat(components[..0]);
      for c := 0 to |components|
        invariant globalBlock == |Flat(components[..c])| && 64 * globalBlock <= |cells|
        invariant positions == Usable(cells, 64 * globalBlock)
      {
        FlatPrefix(components, c);
        ghost var start := globalBlock;
        for b := 0 to |components[c]|
          invariant globalBlock == start + b
          invariant positions == Usable(cells, 64 * globalBlock)
        {
          var block := components[c][b];
          CellAt(components, c, b, 0);
          UsableStep(cells, 64 * globalBlock);
          for index := 1 to 64
            invariant positions == Usable(cells, 64 * globalBlock + index)
          {
            CellAt(components, c, b, index);
            UsableStep(cells, 64 * globalBlock + index);
            if Magnitude(block[index]) >= 2 {
              positions := positions + [globalBlock * 64 + index];
            }
          }
          globalBlock := globalBlock + 1;
        }
      }
      assert components[..|components|] == components;
    }

    /** Which component and which of its blocks hold a position. */
    method Locate(position: nat) returns (found: bool, c: nat, b: nat)
      ensures found <==> position < |Cells(components)|
      ensures found ==> c < |components| && b < |components[c]| && |Flat(components[..c])| + b == position / 64
    {
      b := position / 64;
      c := 0;
      while c < |components|
        invariant c <= |components|
        invariant b + |Flat(components[..c])| == position / 64
      {
        FlatPrefix(components, c);
        if b < |components[c]| {
          return true, c, b;
        }
        b := b - |components[c]|;
        c := c + 1;
      }
      assert components[..|components|] == components;
      found := false;
    }

    method Coefficient(position: nat) returns (r: Option<coef>)
      ensures r == if position < |Cells(components)| then Some(Cells(components)[position]) else None
    {
      var found, c, b := Locate(position);
      if !found {
        return None;
      }
      FlatPrefix(components, c);
      return Some(components[c][b][position % 64]);
    }

    /** Store a coefficient. */
    method Overwrite(position: nat, value: coef)
      requires position < |Cells(components)|
      modifies this
      ensures Cells(components) == old(Cells(components))[position := value]
      ensures Shape(components) == old(Shape(components))
    {
      ghost var before := components;
      var found, c, b := Locate(position);
      var block := components[c][b][position % 64 := value];
      FlatPrefix(components, c);
      FlatUpdate(components, c, b, block);
      components := WithBlock(components, c, b, block);
      assert Flat(components) == Flat(before)[position / 64 := block];
      assert Shape(components) == Shape(before);
      assert Cells(components) == Cells(before)[position := value];
    }

    /** Put the bits of `first` and `second` into the coefficients at `positions`. */
    method EmbedBytes(positions: seq<nat>, first: seq<byte>, second: seq<byte>) returns (r: Result<()>)
      modifies this
      ensures Shape(components) == old(Shape(components)) && |Cells(components)| == |old(Cells(components))|
      ensures var total := 8 * |first + second|;
              if |positions| < total then r == Err(Codec(PayloadTooLarge)) && components == old(components)
              else if !InRange(positions[..total], |old(Cells(components))|) then r == Err(Codec(Jpeg))
              else
                && r == Ok(())
                && Cells(components) == Embedded(old(Cells(components)), positions, BitsOf(first + second), PutCoef)
    {
      var totalBits := (|first| + |second|) * 8;
      if |positions| < totalBits {
        return Err(Codec(PayloadTooLarge));
      }
      hide Cells, Shape, PutCoef, Embedded, StreamBit, Flat, Magnitude, InRange;
      ghost var cells, bits := Cells(components), BitsOf(first + second);
      EmbeddedNone(cells, positions, bits[..0], PutCoef);
      NothingOutOfRange(positions[..0], |cells|);
      for bitIndex := 0 to totalBits
        invariant Shape(components) == old(Shape(components)) && |Cells(components)| == |cells|
        invariant InRange(positions[..bitIndex], |cells|)
        invariant Cells(components) == Embedded(cells, positions, bits[..bitIndex], PutCoef)
      {
        var bit := PayloadBit(first, second, bitIndex);
        var value := Coefficient(positions[bitIndex]);
        if value.None? {
          OutOfRange(positions, bitIndex, totalBits, |cells|);
          return Err(Codec(Jpeg));
        }
        Overwrite(positions[bitIndex], PutCoef(value.value, bit));
        EmbeddedStep(cells, positions, bits, bitIndex, PutCoef);
      }
      assert bits[..totalBits] == bits;
      return Ok(());
    }

    /** Read `length` bytes back from the coefficients at the positions from `bitOffset` on. */
    method ExtractBytes(positions: seq<nat>, bitOffset: nat, length: nat) returns (r: Result<seq<byte>>)
      ensures var (end, cells) := (bitOffset + 8 * length, Cells(components));
              if end > |positions| then r == Err(Codec(NotACarrier))
              else if !InRange(positions[bitOffset..end], |cells|) then r == Err(Codec(Jpeg))
              else
                && r.Ok? && |r.value| == length
                && forall i :: 0 <= i < 8 * length ==>
                  StreamBit(r.value, i) == Magnitude(cells[positions[bitOffset..end][i]]) % 2
    {
      var end := bitOffset + 8 * length;
      if end > |positions| {
        return Err(Codec(NotACarrier));
      }
      hide Cells, Flat, StreamBit, Magnitude;
      var bytes := new byte[length](_ => 0);
      ghost var cells, used := Cells(components), positions[bitOffset..end];
      ZeroStream(bytes[..]);
      for outputBit := 0 to 8 * length
        invariant InRange(used[..outputBit], |cells|)
        invariant forall i {:trigger StreamBit(bytes[..], i)} :: 0 <= i < 8 * length ==>
          StreamBit(bytes[..], i) == if i < outputBit then Magnitude(cells[used[i]]) % 2 else 0
      {
        var position := positions[bitOffset + outputBit];
        assert used[outputBit] == position;
        var value := Coefficient(position);
        if value.None? {
          return Err(Codec(Jpeg));
        }
        if Magnitude(value.value) % 2 == 1 {
          ghost var before := bytes[..];
          bytes[outputBit / 8] := WithBit(bytes[outputBit / 8], 7 - outputBit % 8, 1);
          assert bytes[..] == WithStreamBit(before, outputBit);
        }
      }
      return Ok(bytes[..]);
    }
  }
}
