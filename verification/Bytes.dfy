/** Bytes and little-endian numbers, as both sides of every wire format write them. */
module Bytes {

  type Byte = n: int | 0 <= n < 256

  // A UTF-16 code unit.
  type Unit = n: int | 0 <= n < 0x1_0000

  // 256 to the power of `width`.
  function Range(width: nat): nat
    ensures Range(width) >= 1
  {
    if width == 0 then 1 else 256 * Range(width - 1)
  }

  const U16: nat := 0x1_0000
  const U32: nat := 0x1_0000_0000
  const U64: nat := 0x1_0000_0000_0000_0000

  lemma Ranges()
    ensures Range(1) == 256 && Range(2) == U16 && Range(4) == U32 && Range(8) == U64
  {
    assert Range(2) == 256 * Range(1) && Range(3) == 256 * Range(2) && Range(4) == 256 * Range(3);
    assert Range(5) == 256 * Range(4) && Range(6) == 256 * Range(5) && Range(7) == 256 * Range(6);
  }

  // `width` bytes of `n`, the least significant first; what does not fit is cut off.
  function LE(n: nat, width: nat): (s: seq<Byte>)
    ensures |s| == width
  {
    if width == 0 then [] else [n % 256] + LE(n / 256, width - 1)
  }

  function FromLE(s: seq<Byte>): (n: nat)
    ensures n < Range(|s|)
  {
    if s == [] then 0 else s[0] + 256 * FromLE(s[1..])
  }

  lemma {:induction false} LERoundTrip(n: nat, width: nat)
    requires n < Range(width)
    ensures FromLE(LE(n, width)) == n
  {
    if width > 0 {
      LERoundTrip(n / 256, width - 1);
      assert LE(n, width)[1..] == LE(n / 256, width - 1);
    }
  }

  lemma {:induction false} FromLEInjective(a: seq<Byte>, b: seq<Byte>)
    requires |a| == |b| && FromLE(a) == FromLE(b)
    ensures a == b
  {
    if a != [] {
      assert a[0] == b[0] && FromLE(a[1..]) == FromLE(b[1..]);
      FromLEInjective(a[1..], b[1..]);
      assert a == [a[0]] + a[1..] && b == [b[0]] + b[1..];
    }
  }

  // A byte as a set of bits, and back.
  function OfBits(b: bv8): Byte { b as int }

  function ToBits(b: Byte): bv8 { b as bv8 }

  lemma BitsRoundTrip(b: bv8)
    ensures ToBits(OfBits(b)) == b
  {
  }
}
