/** Bytes, machine integers and the little-endian encoding every on-disk structure uses. */
module Bytes {

  type byte = x: int | 0 <= x < 0x100
  type u16 = x: int | 0 <= x < 0x1_0000
  type u32 = x: int | 0 <= x < 0x1_0000_0000
  type u64 = x: int | 0 <= x < 0x1_0000_0000_0000_0000

  /** The number of values `width` bytes can hold. */
  function Range(width: nat): (r: nat)
    ensures r > 0
  {
    if width == 0 then 1 else 0x100 * Range(width - 1)
  }

  lemma RangeValues()
    ensures Range(1) == 0x100 && Range(2) == 0x1_0000
    ensures Range(4) == 0x1_0000_0000 && Range(8) == 0x1_0000_0000_0000_0000
  {
    assert Range(3) == 0x100_0000;
    assert Range(5) == 0x100_0000_0000;
    assert Range(6) == 0x1_0000_0000_0000;
    assert Range(7) == 0x100_0000_0000_0000;
  }

  /** `width` little-endian bytes of `n`. */
  function ToLe(n: nat, width: nat): (s: seq<byte>)
    ensures |s| == width
  {
    if width == 0 then [] else [n % 0x100] + ToLe(n / 0x100, width - 1)
  }

  function FromLe(s: seq<byte>): (n: nat)
    ensures n < Range(|s|)
  {
    if s == [] then 0 else s[0] + 0x100 * FromLe(s[1..])
  }

  lemma {:induction false} FromToLe(n: nat, width: nat)
    requires n < Range(width)
    ensures FromLe(ToLe(n, width)) == n
  {
    if width > 0 {
      FromToLe(n / 0x100, width - 1);
      assert ToLe(n, width)[1..] == ToLe(n / 0x100, width - 1);
    }
  }

  lemma {:induction false} ToFromLe(s: seq<byte>)
    ensures ToLe(FromLe(s), |s|) == s
  {
    if s != [] {
      ToFromLe(s[1..]);
      assert FromLe(s) % 0x100 == s[0] && FromLe(s) / 0x100 == FromLe(s[1..]);
    }
  }

  function Zeros(count: nat): (s: seq<byte>)
    ensures |s| == count
    ensures forall i :: 0 <= i < count ==> s[i] == 0
  {
    seq(count, i => 0)
  }

  lemma {:induction false} FromLeZero(s: seq<byte>)
    ensures FromLe(s) == 0 <==> s == Zeros(|s|)
  {
    if s != [] {
      FromLeZero(s[1..]);
      if FromLe(s) == 0 {
        assert s == [s[0]] + s[1..];
      }
    }
  }

  function FromLe16(s: seq<byte>): (n: u16)
    requires |s| == 2
  {
    RangeValues();
    FromLe(s)
  }

  function FromLe32(s: seq<byte>): (n: u32)
    requires |s| == 4
  {
    RangeValues();
    FromLe(s)
  }

  function FromLe64(s: seq<byte>): (n: u64)
    requires |s| == 8
  {
    RangeValues();
    FromLe(s)
  }

  /** Four bytes stand for a number exactly when they are its bytes. */
  lemma FieldIs(s: seq<byte>, n: u32)
    requires |s| == 4
    ensures FromLe32(s) == n <==> s == ToLe(n, 4)
  {
    hide FromLe, ToLe;
    RangeValues();
    ToFromLe(s);
    FromToLe(n, 4);
  }

  /** The number of `unit`-sized pieces needed to cover `n`. */
  function DivCeil(n: nat, unit: nat): (q: nat)
    requires unit > 0
    ensures q * unit >= n
    ensures n > 0 ==> (q - 1) * unit < n
    ensures n == 0 ==> q == 0
  {
    if n == 0 then 0 else (n - 1) / unit + 1
  }

  function Min(a: nat, b: nat): nat {
    if a < b then a else b
  }

  function Max(a: nat, b: nat): nat {
    if a < b then b else a
  }
}
