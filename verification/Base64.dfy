/** Unpadded base64url as the browser writes and reads it (section 5 of RFC 4648), with its
    32-bit accumulator that is never masked. */
module Base64 {
  import opened BitGroups
  import opened Bytes
  import opened KeyBitmaps

  datatype Result = Read(bytes: seq<bv8>) | NotBase64

  // ------------------------------------------------------------------ the alphabet

  function CharOf(digit: nat): Unit
    requires digit < 64
  {
    if digit < 26 then 'A' as int + digit
    else if digit < 52 then 'a' as int + digit - 26
    else if digit < 62 then '0' as int + digit - 52
    else if digit == 62 then '-' as int else '_' as int
  }

  // The entry of the 256-entry table; both alphabets are accepted.
  function LookUp(u: Unit): nat
    requires u < 256
  {
    if 'A' as int <= u <= 'Z' as int then u - 'A' as int
    else if 'a' as int <= u <= 'z' as int then u - 'a' as int + 26
    else if '0' as int <= u <= '9' as int then u - '0' as int + 52
    else if u == '-' as int || u == '+' as int then 62
    else if u == '_' as int || u == '/' as int then 63
    else 255
  }

  // Past the table's end there is no entry, which is not the 255 that is refused, and which
  // the bitwise operators take for zero.
  function Value(u: Unit): nat {
    if u >= 256 then 0 else LookUp(u)
  }

  predicate Accepted(u: Unit) { u >= 256 || LookUp(u) != 255 }

  lemma AlphabetRoundTrip(digit: nat)
    requires digit < 64
    ensures var u := CharOf(digit); u < 256 && Accepted(u) && Value(u) == digit && u != '=' as int
  {
  }

  // ------------------------------------------------------------------ 32-bit numbers

  // (acc << 6) | value on 32 bits: what leaves at the top is lost.
  function Push6(acc: bv32, value: bv8): bv32 { (acc << 6) | (value as bv32) }

  // x >> n, which copies the sign.
  function Sar(x: bv32, n: nat): bv32
    requires n < 8
  {
    var sign := x & 0x8000_0000 != 0;
    if n == 0 then x
    else if n == 1 then (x >> 1) | if sign then 0x8000_0000 else 0
    else if n == 2 then (x >> 2) | if sign then 0xC000_0000 else 0
    else if n == 3 then (x >> 3) | if sign then 0xE000_0000 else 0
    else if n == 4 then (x >> 4) | if sign then 0xF000_0000 else 0
    else if n == 5 then (x >> 5) | if sign then 0xF800_0000 else 0
    else if n == 6 then (x >> 6) | if sign then 0xFC00_0000 else 0
    else (x >> 7) | if sign then 0xFE00_0000 else 0
  }

  // (acc >> n) & 0xFF
  function Low8(acc: bv32, n: nat): bv8
    requires n < 8
  {
    (Sar(acc, n) & 0xFF) as bv8
  }

  // The accumulator ends in these six bits.
  predicate EndsIn(acc: bv32, value: bv8) { acc & 63 == value as bv32 }

  // ----------------------------------------------------------------- single digits

  // Byte `i`, or zero past the end.
  function At(bytes: seq<bv8>, i: nat): bv8 { if i < |bytes| then bytes[i] else 0 }

  function FirstOf3(a: bv8, b: bv8, c: bv8, r: nat): (d: bv8)
    ensures d < 64
  {
    if r == 0 then a >> 2
    else if r == 1 then ((a & 3) << 4) | (b >> 4)
    else if r == 2 then ((b & 15) << 2) | (c >> 6)
    else c & 63
  }

  // Sextet `k` of a sequence of bytes.
  function SextetAt(bytes: seq<bv8>, k: nat): (d: bv8)
    ensures d < 64
  {
    FirstOf3(At(bytes, 3 * (k / 4)), At(bytes, 3 * (k / 4) + 1), At(bytes, 3 * (k / 4) + 2), k % 4)
  }

  function Group(a: bv8, b: bv8, c: bv8): bv32 { ((a as bv32) << 16) | ((b as bv32) << 8) | (c as bv32) }

  lemma GroupDigits(a: bv8, b: bv8, c: bv8)
    ensures var n := Group(a, b, c);
      && ((n >> 18) & 63) as bv8 == FirstOf3(a, b, c, 0) && ((n >> 12) & 63) as bv8 == FirstOf3(a, b, c, 1)
      && ((n >> 6) & 63) as bv8 == FirstOf3(a, b, c, 2) && (n & 63) as bv8 == FirstOf3(a, b, c, 3)
  {
  }

  // Bit `p` of three bytes in a row.
  predicate BitOf3(a: bv8, b: bv8, c: bv8, p: nat)
    requires p < 24
  {
    if p < 8 then Bit(a, 7 - p) else if p < 16 then Bit(b, 15 - p) else Bit(c, 23 - p)
  }

  lemma SextetBits(a: bv8, b: bv8, c: bv8, r: nat, j: nat)
    requires r < 4 && j < 8
    ensures Bit(FirstOf3(a, b, c, r), j) == (j < 6 && BitOf3(a, b, c, 6 * r + 5 - j))
  {
    if r == 0 {
    } else if r == 1 {
    } else if r == 2 {
    } else {
    }
  }

  // The three bytes of four sextets.
  function FirstOf4(a: bv8, b: bv8, c: bv8, d: bv8, r: nat): bv8 {
    if r == 0 then (a << 2) | (b >> 4)
    else if r == 1 then (b << 4) | (c >> 2)
    else (c << 6) | d
  }

  function ByteAt(sextets: seq<bv8>, k: nat): bv8 {
    var q := 4 * (k / 3);
    FirstOf4(At(sextets, q), At(sextets, q + 1), At(sextets, q + 2), At(sextets, q + 3), k % 3)
  }

  predicate BitOf4(a: bv8, b: bv8, c: bv8, d: bv8, p: nat)
    requires p < 24
  {
    if p < 6 then Bit(a, 5 - p)
    else if p < 12 then Bit(b, 11 - p)
    else if p < 18 then Bit(c, 17 - p)
    else Bit(d, 23 - p)
  }

  lemma FirstByteBits(a: bv8, b: bv8, j: nat)
    requires j < 8 && a < 64 && b < 64
    ensures Bit((a << 2) | (b >> 4), j) == if j >= 2 then Bit(a, j - 2) else Bit(b, j + 4)
  {
  }

  lemma SecondByteBits(b: bv8, c: bv8, j: nat)
    requires j < 8 && b < 64 && c < 64
    ensures Bit((b << 4) | (c >> 2), j) == if j >= 4 then Bit(b, j - 4) else Bit(c, j + 2)
  {
  }

  lemma ThirdByteBits(c: bv8, d: bv8, j: nat)
    requires j < 8 && c < 64 && d < 64
    ensures Bit((c << 6) | d, j) == if j >= 6 then Bit(c, j - 6) else Bit(d, j)
  {
  }

  lemma ByteBits(a: bv8, b: bv8, c: bv8, d: bv8, r: nat, j: nat)
    requires r < 3 && j < 8 && a < 64 && b < 64 && c < 64 && d < 64
    ensures Bit(FirstOf4(a, b, c, d, r), j) == BitOf4(a, b, c, d, 8 * r + 7 - j)
  {
    hide Bit;
    FirstByteBits(a, b, j);
    SecondByteBits(b, c, j);
    ThirdByteBits(c, d, j);
  }

  // --------------------------------------------------------------- whole sequences

  // As many digits as it takes, the last one filled up with zeros.
  function Sextets(bytes: seq<bv8>): (d: seq<bv8>)
    ensures |d| == (8 * |bytes| + 5) / 6 && forall s <- d :: s < 64
  {
    seq((8 * |bytes| + 5) / 6, k requires k >= 0 => SextetAt(bytes, k))
  }

  // As many whole bytes as there are; what is left over is dropped.
  function Octets(sextets: seq<bv8>): (b: seq<bv8>)
    ensures |b| == 6 * |sextets| / 8
  {
    seq(6 * |sextets| / 8, k requires k >= 0 => ByteAt(sextets, k))
  }

  lemma StreamAt(bytes: seq<bv8>, i: nat, j: nat)
    requires j < 8
    ensures StreamBit(bytes, 8, 8 * i + 7 - j) == Bit(At(bytes, i), j)
  {
    hide Bit;
    assert (8 * i + 7 - j) / 8 == i && (8 * i + 7 - j) % 8 == 7 - j;
    NothingSet(j);
  }

  lemma SextetStreamAt(sextets: seq<bv8>, i: nat, j: nat)
    requires j < 6
    ensures StreamBit(sextets, 6, 6 * i + 5 - j) == Bit(At(sextets, i), j)
  {
    hide Bit;
    assert (6 * i + 5 - j) / 6 == i && (6 * i + 5 - j) % 6 == 5 - j;
    NothingSet(j);
  }

  // The sextets are the bits of the bytes in groups of six.
  lemma SextetsRegroup(bytes: seq<bv8>)
    ensures Regrouped(bytes, 8, Sextets(bytes), 6)
  {
    hide Bit, StreamBit;
    forall k: nat, j: nat | k < |Sextets(bytes)| && j < 8
      ensures Bit(Sextets(bytes)[k], j) == (j < 6 && StreamBit(bytes, 8, 6 * k + (6 - 1 - j)))
    {
      SextetInStream(bytes, k, j);
    }
  }

  lemma SextetInStream(bytes: seq<bv8>, k: nat, j: nat)
    requires j < 8
    ensures Bit(SextetAt(bytes, k), j) == (j < 6 && StreamBit(bytes, 8, 6 * k + (5 - j)))
  {
    hide Bit, StreamBit, FirstOf3;
    var q, r := k / 4, k % 4;
    SextetBits(At(bytes, 3 * q), At(bytes, 3 * q + 1), At(bytes, 3 * q + 2), r, j);
    if j < 6 {
      var p := 6 * r + 5 - j;
      StreamAt(bytes, 3 * q + p / 8, 7 - p % 8);
      assert 8 * (3 * q + p / 8) + 7 - (7 - p % 8) == 6 * k + (5 - j);
    }
  }

  // The octets are the bits of the sextets in groups of eight.
  lemma OctetsRegroup(sextets: seq<bv8>)
    requires forall s <- sextets :: s < 64
    ensures Regrouped(sextets, 6, Octets(sextets), 8)
  {
    hide Bit, StreamBit;
    forall k: nat, j: nat | k < |Octets(sextets)| && j < 8
      ensures Bit(Octets(sextets)[k], j) == (j < 8 && StreamBit(sextets, 6, 8 * k + (8 - 1 - j)))
    {
      OctetInStream(sextets, k, j);
    }
  }

  lemma SmallAt(sextets: seq<bv8>, i: nat)
    requires forall s <- sextets :: s < 64
    ensures At(sextets, i) < 64
  {
    if i < |sextets| {
      assert sextets[i] in sextets;
    }
  }

  lemma OctetInStream(sextets: seq<bv8>, k: nat, j: nat)
    requires j < 8 && forall s <- sextets :: s < 64
    ensures Bit(ByteAt(sextets, k), j) == StreamBit(sextets, 6, 8 * k + (7 - j))
  {
    hide Bit, StreamBit, FirstOf4;
    var q, r := k / 3, k % 3;
    SmallAt(sextets, 4 * q);
    SmallAt(sextets, 4 * q + 1);
    SmallAt(sextets, 4 * q + 2);
    SmallAt(sextets, 4 * q + 3);
    ByteBits(At(sextets, 4 * q), At(sextets, 4 * q + 1), At(sextets, 4 * q + 2), At(sextets, 4 * q + 3), r, j);
    var p := 8 * r + 7 - j;
    SextetStreamAt(sextets, 4 * q + p / 6, 5 - p % 6);
    assert 6 * (4 * q + p / 6) + 5 - (5 - p % 6) == 8 * k + (7 - j);
  }

  // Bytes to sextets to bytes loses nothing, although the last sextet is filled up and what is
  // left over on the way back is dropped.
  lemma OctetsOfSextets(bytes: seq<bv8>)
    ensures Octets(Sextets(bytes)) == bytes
  {
    hide Regrouped, ByteAt, SextetAt;
    SextetsRegroup(bytes);
    OctetsRegroup(Sextets(bytes));
    ThereAndBack(bytes, Sextets(bytes), Octets(Sextets(bytes)));
  }

  // ------------------------------------------------------------------------- texts

  function DigitChar(s: bv8): Unit
    requires s < 64
  {
    SmallByte(s);
    CharOf(OfBits(s))
  }

  function Text(sextets: seq<bv8>): (t: seq<Unit>)
    requires forall s <- sextets :: s < 64
    ensures |t| == |sextets|
  {
    seq(|sextets|, k requires 0 <= k < |sextets| => assert sextets[k] in sextets; DigitChar(sextets[k]))
  }

  lemma SmallByte(b: bv8)
    requires b < 64
    ensures OfBits(b) < 64
  {
  }

  // Without the padding at the end.
  function Stripped(text: seq<Unit>): seq<Unit> {
    if text != [] && text[|text| - 1] == '=' as int then Stripped(text[..|text| - 1]) else text
  }

  function Values(clean: seq<Unit>): (v: seq<bv8>)
    ensures |v| == |clean|
  {
    seq(|clean|, k requires 0 <= k < |clean| => ValueBits(clean[k]))
  }

  function ValueBits(u: Unit): bv8 { ToBits(Value(u)) }

  lemma ValueIsSmall(u: Unit)
    requires Accepted(u)
    ensures ValueBits(u) < 64
  {
    assert Value(u) < 64;
    SmallBits(Value(u));
  }

  lemma SmallBits(n: Byte)
    requires n < 64
    ensures ToBits(n) < 64
  {
  }

  // B64_CHARS[(n >> shift) & 63]
  function Char(n: bv32, shift: nat): Unit {
    var shifted := if shift == 0 then n else if shift == 6 then n >> 6 else if shift == 12 then n >> 12 else n >> 18;
    DigitChar((shifted & 63) as bv8)
  }

  lemma GroupChars(a: bv8, b: bv8, c: bv8)
    ensures var n := Group(a, b, c);
      && Char(n, 18) == DigitChar(FirstOf3(a, b, c, 0)) && Char(n, 12) == DigitChar(FirstOf3(a, b, c, 1))
      && Char(n, 6) == DigitChar(FirstOf3(a, b, c, 2)) && Char(n, 0) == DigitChar(FirstOf3(a, b, c, 3))
  {
    hide DigitChar, FirstOf3, Group;
    GroupDigits(a, b, c);
  }

  lemma FourDigits(view: seq<bv8>, i: nat)
    requires i % 3 == 0
    ensures var n := Group(At(view, i), At(view, i + 1), At(view, i + 2)); var k := 4 * (i / 3);
      && Char(n, 18) == DigitChar(SextetAt(view, k)) && Char(n, 12) == DigitChar(SextetAt(view, k + 1))
      && Char(n, 6) == DigitChar(SextetAt(view, k + 2)) && Char(n, 0) == DigitChar(SextetAt(view, k + 3))
  {
    hide Group, FirstOf3, DigitChar, Char, At;
    GroupChars(At(view, i), At(view, i + 1), At(view, i + 2));
    var k := 4 * (i / 3);
    assert k / 4 == (k + 1) / 4 == (k + 2) / 4 == (k + 3) / 4 == i / 3;
    assert k % 4 == 0 && (k + 1) % 4 == 1 && (k + 2) % 4 == 2 && (k + 3) % 4 == 3;
  }

  // The first `n` characters.
  function Chars(view: seq<bv8>, n: nat): (t: seq<Unit>)
    ensures |t| == n
  {
    seq(n, k requires k >= 0 => DigitChar(SextetAt(view, k)))
  }

  lemma OneMoreChar(view: seq<bv8>, n: nat)
    ensures Chars(view, n + 1) == Chars(view, n) + [DigitChar(SextetAt(view, n))]
  {
    hide DigitChar, SextetAt;
  }

  lemma FourMore(view: seq<bv8>, k: nat, w: Unit, x: Unit, y: Unit, z: Unit)
    requires w == DigitChar(SextetAt(view, k)) && x == DigitChar(SextetAt(view, k + 1))
    requires y == DigitChar(SextetAt(view, k + 2)) && z == DigitChar(SextetAt(view, k + 3))
    ensures Chars(view, k + 2) == Chars(view, k) + [w, x]
    ensures Chars(view, k + 3) == Chars(view, k) + [w, x, y]
    ensures Chars(view, k + 4) == Chars(view, k) + [w, x, y, z]
  {
    hide DigitChar, SextetAt, Chars;
    OneMoreChar(view, k);
    OneMoreChar(view, k + 1);
    OneMoreChar(view, k + 2);
    OneMoreChar(view, k + 3);
  }

  lemma GroupExtends(view: seq<bv8>, i: nat)
    requires i % 3 == 0
    ensures var n := Group(At(view, i), At(view, i + 1), At(view, i + 2)); var k := 4 * (i / 3);
      && Chars(view, k + 4) == Chars(view, k) + [Char(n, 18), Char(n, 12), Char(n, 6), Char(n, 0)]
      && Chars(view, k + 3) == Chars(view, k) + [Char(n, 18), Char(n, 12), Char(n, 6)]
      && Chars(view, k + 2) == Chars(view, k) + [Char(n, 18), Char(n, 12)]
  {
    hide *;
    var n := Group(At(view, i), At(view, i + 1), At(view, i + 2));
    FourDigits(view, i);
    FourMore(view, 4 * (i / 3), Char(n, 18), Char(n, 12), Char(n, 6), Char(n, 0));
  }

  lemma AllChars(view: seq<bv8>)
    ensures Chars(view, |Sextets(view)|) == Text(Sextets(view))
  {
    hide DigitChar, SextetAt;
  }

  lemma NextGroup(i: nat)
    requires i % 3 == 0
    ensures (i + 3) % 3 == 0 && 4 * ((i + 3) / 3) == 4 * (i / 3) + 4
  {
  }

  // What is left of the characters after the whole groups.
  lemma CharsLeft(i: nat, rest: nat)
    requires i % 3 == 0 && rest < 3
    ensures (8 * (i + rest) + 5) / 6 == 4 * (i / 3) + if rest == 0 then 0 else rest + 1
  {
    var q := i / 3;
    assert i == 3 * q && 8 * (i + rest) + 5 == 6 * (4 * q) + (8 * rest + 5);
  }

  method ToB64(view: seq<bv8>) returns (out: seq<Unit>)
    ensures out == Text(Sextets(view))
  {
    hide Char, Chars, Group, Text, Sextets;
    out := [];
    var i := 0;
    assert Chars(view, 0) == [];
    while i + 2 < |view|
      invariant i % 3 == 0 && i <= |view| && out == Chars(view, 4 * (i / 3))
    {
      GroupExtends(view, i);
      var n := Group(view[i], view[i + 1], view[i + 2]);
      out := out + [Char(n, 18), Char(n, 12), Char(n, 6), Char(n, 0)];
      NextGroup(i);
      i := i + 3;
    }
    AllChars(view);
    GroupExtends(view, i);
    CharsLeft(i, |view| - i);
    var rest := |view| - i;
    if rest == 1 {
      var n := Group(view[i], 0, 0);
      out := out + [Char(n, 18), Char(n, 12)];
    } else if rest == 2 {
      var n := Group(view[i], view[i + 1], 0);
      out := out + [Char(n, 18), Char(n, 12), Char(n, 6)];
    }
  }

  // --------------------------------------------------------------------- reading

  // A byte of the result from the newest value and the one before it; `before` is how many bits
  // were waiting when the newest came.
  function Joined(last: bv8, value: bv8, before: nat): bv8 {
    if before == 6 then (last << 2) | (value >> 4)
    else if before == 4 then (last << 4) | (value >> 2)
    else (last << 6) | value
  }

  lemma Emitted(acc: bv32, last: bv8, value: bv8, before: nat)
    requires before in {2, 4, 6} && EndsIn(acc, last) && last < 64 && value < 64
    ensures Low8(Push6(acc, value), before - 2) == Joined(last, value, before)
  {
  }

  lemma NewestStays(acc: bv32, value: bv8)
    requires value < 64
    ensures EndsIn(Push6(acc, value), value)
  {
  }

  lemma Places(i: nat)
    requires 6 * i % 8 != 0
    ensures var q, r, k := i / 4, i % 4, 6 * i / 8;
      1 <= r <= 3 && i == 4 * q + r && k / 3 == q && k % 3 == r - 1 && 6 * i % 8 == 8 - 2 * r
  {
    var q, r := i / 4, i % 4;
    assert i == 4 * q + r;
    if r == 0 {
      OfEight(i, 3 * q, 0);
      assert false;
    } else {
      OfEight(i, 3 * q + r - 1, 8 - 2 * r);
      OfThree(3 * q + r - 1, q, r - 1);
    }
  }

  lemma OfEight(i: nat, k: nat, rest: nat)
    requires 6 * i == 8 * k + rest && rest < 8
    ensures 6 * i / 8 == k && 6 * i % 8 == rest
  {
  }

  lemma OfThree(k: nat, q: nat, rest: nat)
    requires k == 3 * q + rest && rest < 3
    ensures k / 3 == q && k % 3 == rest
  {
  }

  lemma ByteAtIs(values: seq<bv8>, k: nat, q: nat, r: nat)
    requires k == 3 * q + r && r < 3
    ensures ByteAt(values, k)
      == FirstOf4(At(values, 4 * q), At(values, 4 * q + 1), At(values, 4 * q + 2), At(values, 4 * q + 3), r)
  {
    hide FirstOf4, At;
    assert k / 3 == q && k % 3 == r;
  }

  lemma ByteAtEnd(values: seq<bv8>, i: nat)
    requires 0 < i < |values| && 6 * i % 8 != 0
    ensures ByteAt(values, 6 * i / 8) == Joined(values[i - 1], values[i], 6 * i % 8)
  {
    hide ByteAt;
    Places(i);
    var q, r := i / 4, i % 4;
    ByteAtIs(values, 6 * i / 8, q, r - 1);
    assert At(values, 4 * q + r) == values[i] && At(values, 4 * q + r - 1) == values[i - 1];
  }

  // How the counters go on.
  lemma Counters(i: nat)
    ensures var bits := 6 * i % 8;
      && (bits + 6 < 8 ==> 6 * (i + 1) / 8 == 6 * i / 8 && 6 * (i + 1) % 8 == bits + 6)
      && (bits + 6 >= 8 ==>
            && i > 0 && bits in {2, 4, 6}
            && 6 * (i + 1) / 8 == 6 * i / 8 + 1 && 6 * (i + 1) % 8 == bits - 2)
  {
  }

  // The first `n` bytes.
  function FirstBytes(values: seq<bv8>, n: nat): (b: seq<bv8>)
    ensures |b| == n
  {
    seq(n, k requires k >= 0 => ByteAt(values, k))
  }

  lemma OneMoreByte(values: seq<bv8>, n: nat)
    ensures FirstBytes(values, n + 1) == FirstBytes(values, n) + [ByteAt(values, n)]
  {
    hide ByteAt;
  }

  lemma AllBytes(values: seq<bv8>)
    ensures FirstBytes(values, 6 * |values| / 8) == Octets(values) && FirstBytes(values, 0) == []
  {
    hide ByteAt;
  }

  // Reads exactly the texts of which every unit before the padding is accepted, as the octets
  // of their values.
  method FromB64(text: seq<Unit>) returns (r: Result)
    ensures r.Read? <==> forall u <- Stripped(text) :: Accepted(u)
    ensures r.Read? ==> r.bytes == Octets(Values(Stripped(text)))
  {
    hide Accepted, ValueBits, ByteAt, Push6, EndsIn, Low8, FirstBytes, Octets, Joined;
    var clean := Stripped(text);
    ghost var values := Values(clean);
    var out := [];
    var acc: bv32 := 0;
    var bits := 0;
    AllBytes(values);
    for i := 0 to |clean|
      invariant bits == 6 * i % 8 && out == FirstBytes(values, 6 * i / 8)
      invariant forall j | 0 <= j < i :: Accepted(clean[j])
      invariant i > 0 ==> values[i - 1] < 64 && EndsIn(acc, values[i - 1])
    {
      if !Accepted(clean[i]) {
        assert clean[i] in clean;
        return NotBase64;
      }
      var value := ValueBits(clean[i]);
      ValueIsSmall(clean[i]);
      Counters(i);
      NewestStays(acc, value);
      ghost var was := acc;
      acc := Push6(acc, value);
      bits := bits + 6;
      if bits >= 8 {
        bits := bits - 8;
        Emitted(was, values[i - 1], value, bits + 2);
        ByteAtEnd(values, i);
        OneMoreByte(values, 6 * i / 8);
        out := out + [Low8(acc, bits)];
      }
    }
    return Read(out);
  }

  // ------------------------------------------------------------------- round trip

  lemma ValueOfDigit(s: bv8)
    requires s < 64
    ensures var u := DigitChar(s); u < 256 && Accepted(u) && ValueBits(u) == s && u != '=' as int
  {
    SmallByte(s);
    AlphabetRoundTrip(OfBits(s));
    BitsRoundTrip(s);
  }

  lemma NothingToStrip(sextets: seq<bv8>)
    requires forall s <- sextets :: s < 64
    ensures Stripped(Text(sextets)) == Text(sextets) && Values(Text(sextets)) == sextets
    ensures forall u <- Text(sextets) :: Accepted(u)
  {
    hide DigitChar, Accepted, ValueBits;
    forall k | 0 <= k < |sextets|
      ensures Text(sextets)[k] != '=' as int && Accepted(Text(sextets)[k]) && ValueBits(Text(sextets)[k]) == sextets[k]
    {
      assert sextets[k] in sextets;
      ValueOfDigit(sextets[k]);
    }
  }

  // What the browser writes it reads back, whatever the bytes and however many.
  method RoundTrip(bytes: seq<bv8>) returns (text: seq<Unit>, back: Result)
    ensures text == Text(Sextets(bytes)) && back == Read(bytes)
  {
    hide Text, Values, Octets, Sextets, Accepted;
    text := ToB64(bytes);
    back := FromB64(text);
    NothingToStrip(Sextets(bytes));
    OctetsOfSextets(bytes);
  }

  // A unit past the table is read as an A would be, where the code means to refuse it.
  lemma WideUnitsReadAsA(clean: seq<Unit>, k: nat)
    requires k < |clean| && clean[k] >= 256
    ensures Accepted(clean[k]) && Values(clean) == Values(clean[k := 'A' as int])
  {
    hide ToBits;
  }

  // --------------------------------------------------- which texts are encodings

  // The same text in the alphabet that is written.
  function Plain(u: Unit): Unit {
    if u == '+' as int then '-' as int else if u == '/' as int then '_' as int else u
  }

  function Plained(clean: seq<Unit>): (t: seq<Unit>)
    ensures |t| == |clean|
  {
    seq(|clean|, k requires 0 <= k < |clean| => Plain(clean[k]))
  }

  // Some bytes are written like this, up to '+', '/' and padding.
  ghost predicate IsEncoding(clean: seq<Unit>) {
    exists bytes: seq<bv8> :: Plained(clean) == Text(Sextets(bytes))
  }

  // The bits that fill up the last sextet are zeros.
  predicate FilledWithZeros(values: seq<bv8>) {
    if |values| % 4 == 2 then values[|values| - 1] & 15 == 0
    else if |values| % 4 == 3 then values[|values| - 1] & 3 == 0
    else true
  }

  // No bit of the stream is set past its last whole byte.
  ghost predicate NothingLeft(values: seq<bv8>) {
    forall n: nat | 8 * (6 * |values| / 8) <= n < 6 * |values| :: !StreamBit(values, 6, n)
  }

  lemma LowBits(b: bv8)
    ensures b & 15 == 0 <==> !Bit(b, 0) && !Bit(b, 1) && !Bit(b, 2) && !Bit(b, 3)
    ensures b & 3 == 0 <==> !Bit(b, 0) && !Bit(b, 1)
  {
  }

  lemma LastBits(values: seq<bv8>, j: nat)
    requires values != [] && j < 6
    ensures StreamBit(values, 6, 6 * |values| - 1 - j) == Bit(values[|values| - 1], j)
  {
    hide Bit;
    var k := |values| - 1;
    assert (6 * k + (5 - j)) / 6 == k && (6 * k + (5 - j)) % 6 == 5 - j;
  }

  lemma ZerosMeanNothingLeft(values: seq<bv8>)
    requires |values| % 4 != 1
    ensures FilledWithZeros(values) <==> NothingLeft(values)
  {
    hide StreamBit, Bit;
    if values != [] {
      LowBits(values[|values| - 1]);
      LastBits(values, 0);
      LastBits(values, 1);
      LastBits(values, 2);
      LastBits(values, 3);
    }
    var m, end := |values|, 8 * (6 * |values| / 8);
    Leftover(m);
    if m % 4 == 2 {
      assert NothingLeft(values) <==> FourClear(values);
    } else if m % 4 == 3 {
      assert NothingLeft(values) <==> TwoClear(values);
    } else {
      assert end == 6 * m;
    }
  }

  predicate TwoClear(values: seq<bv8>)
    requires |values| >= 1
  {
    !StreamBit(values, 6, 6 * |values| - 1) && !StreamBit(values, 6, 6 * |values| - 2)
  }

  predicate FourClear(values: seq<bv8>)
    requires |values| >= 1
  {
    TwoClear(values) && !StreamBit(values, 6, 6 * |values| - 3) && !StreamBit(values, 6, 6 * |values| - 4)
  }

  // How many bits are left over past the last whole byte.
  lemma Leftover(m: nat)
    ensures 6 * m - 8 * (6 * m / 8) == if m % 4 == 0 then 0 else if m % 4 == 1 then 6 else if m % 4 == 2 then 4 else 2
    ensures m % 4 != 1 <==> (8 * (6 * m / 8) + 5) / 6 == m
  {
    var q, r := m / 4, m % 4;
    assert m == 4 * q + r;
    assert 6 * m / 8 == 3 * q + 6 * r / 8;
  }

  // Sextets that leave nothing over are those of the bytes they are read as.
  lemma SextetsOfOctets(values: seq<bv8>)
    requires |values| % 4 != 1 && NothingLeft(values) && forall v <- values :: v < 64
    ensures Sextets(Octets(values)) == values
  {
    hide Bit, StreamBit, Regrouped, ByteAt, SextetAt;
    Leftover(|values|);
    OctetsRegroup(values);
    SextetsRegroup(Octets(values));
    assert Regrouped(Octets(values), 8, values, 6) by { ValuesRegroup(values); }
    RegroupedIsUnique(Octets(values), 8, values, Sextets(Octets(values)), 6);
  }

  lemma ValuesRegroup(values: seq<bv8>)
    requires NothingLeft(values) && Regrouped(values, 6, Octets(values), 8) && forall v <- values :: v < 64
    ensures Regrouped(Octets(values), 8, values, 6)
  {
    hide Bit, StreamBit, ByteAt;
    forall k: nat, j: nat | k < |values| && j < 8
      ensures Bit(values[k], j) == (j < 6 && StreamBit(Octets(values), 8, 6 * k + (6 - 1 - j)))
    {
      assert values[k] in values;
      OneValueBit(values, k, j);
    }
  }

  lemma OneValueBit(values: seq<bv8>, k: nat, j: nat)
    requires NothingLeft(values) && Regrouped(values, 6, Octets(values), 8)
    requires k < |values| && values[k] < 64 && j < 8
    ensures Bit(values[k], j) == (j < 6 && StreamBit(Octets(values), 8, 6 * k + (5 - j)))
  {
    hide Bit, StreamBit, Regrouped, ByteAt;
    NoHighBits(values[k]);
    if j < 6 {
      var n := 6 * k + (5 - j);
      SextetStreamAt(values, k, j);
      if n / 8 < |Octets(values)| {
        SameStream(values, 6, Octets(values), 8, n);
      } else {
        PastTheEnd(Octets(values), n);
      }
    } else {
      assert j == 6 || j == 7;
    }
  }

  lemma NoHighBits(b: bv8)
    requires b < 64
    ensures !Bit(b, 6) && !Bit(b, 7)
  {
  }

  lemma PastTheEnd(bytes: seq<bv8>, n: nat)
    requires n / 8 >= |bytes|
    ensures !StreamBit(bytes, 8, n)
  {
  }

  // The sextets of bytes leave nothing over, and there are never one too many.
  lemma SextetsLeaveNothing(bytes: seq<bv8>)
    ensures |Sextets(bytes)| % 4 != 1 && NothingLeft(Sextets(bytes))
  {
    hide Bit, StreamBit, SextetAt;
    var v := Sextets(bytes);
    SextetsRegroup(bytes);
    assert 6 * |v| / 8 == |bytes|;
    forall n: nat | 8 * (6 * |v| / 8) <= n < 6 * |v| ensures !StreamBit(v, 6, n) {
      SameStream(bytes, 8, v, 6, n);
      PastTheEnd(bytes, n);
    }
  }

  lemma WrittenBack(u: Unit)
    requires Accepted(u) && u < 256
    ensures ValueBits(u) < 64 && DigitChar(ValueBits(u)) == Plain(u)
  {
    ValueIsSmall(u);
    CharOfValue(u);
    ByteRoundTrip(Value(u));
  }

  lemma CharOfValue(u: Unit)
    requires Accepted(u) && u < 256
    ensures Value(u) < 64 && CharOf(Value(u)) == Plain(u)
  {
  }

  lemma ByteRoundTrip(n: Byte)
    requires n < 64
    ensures OfBits(ToBits(n)) == n
  {
  }

  lemma PlainIsRead(u: Unit)
    ensures Value(Plain(u)) == Value(u) && (u >= 256 ==> Plain(u) == u)
  {
  }

  // A text that is read is the encoding of some bytes, up to '+', '/' and padding, exactly if no
  // unit is past the table, its length is not one more than a multiple of four, and what fills
  // up its last sextet is zeros.
  lemma EncodingExactly(text: seq<Unit>)
    requires forall u <- Stripped(text) :: Accepted(u)
    ensures var clean := Stripped(text);
      IsEncoding(clean) <==>
        (forall u <- clean :: u < 256) && |clean| % 4 != 1 && FilledWithZeros(Values(clean))
  {
    var clean := Stripped(text);
    hide Accepted, ValueBits, DigitChar, Sextets, Plain, FilledWithZeros, NothingLeft;
    if (forall u <- clean :: u < 256) && |clean| % 4 != 1 && FilledWithZeros(Values(clean)) {
      GoodTextEncodes(clean);
    }
    if IsEncoding(clean) {
      var bytes :| Plained(clean) == Text(Sextets(bytes));
      EncodingIsGood(clean, bytes);
    }
  }

  lemma GoodTextEncodes(clean: seq<Unit>)
    requires forall u <- clean :: Accepted(u) && u < 256
    requires |clean| % 4 != 1 && FilledWithZeros(Values(clean))
    ensures Plained(clean) == Text(Sextets(Octets(Values(clean))))
  {
    hide Accepted, ValueBits, DigitChar, Sextets, Octets, Plain, FilledWithZeros, NothingLeft;
    var v := Values(clean);
    forall k | 0 <= k < |clean| ensures v[k] < 64 && DigitChar(v[k]) == Plain(clean[k]) {
      assert clean[k] in clean;
      WrittenBack(clean[k]);
    }
    ZerosMeanNothingLeft(v);
    SextetsOfOctets(v);
    assert forall x <- v :: x < 64;
    assert forall k | 0 <= k < |clean| :: Text(v)[k] == Plained(clean)[k];
  }

  lemma EncodingIsGood(clean: seq<Unit>, bytes: seq<bv8>)
    requires Plained(clean) == Text(Sextets(bytes))
    ensures (forall u <- clean :: u < 256) && |clean| % 4 != 1 && FilledWithZeros(Values(clean))
  {
    hide ValueBits, DigitChar, SextetAt, Plain, FilledWithZeros, NothingLeft;
    var s := Sextets(bytes);
    forall k | 0 <= k < |clean| ensures clean[k] < 256 && ValueBits(clean[k]) == s[k] {
      assert s[k] in s;
      ValueOfDigit(s[k]);
      assert Plained(clean)[k] == Text(s)[k];
      PlainIsRead(clean[k]);
      SameValueSameBits(clean[k], Plain(clean[k]));
    }
    assert Values(clean) == s;
    SextetsLeaveNothing(bytes);
    ZerosMeanNothingLeft(s);
  }

  lemma SameValueSameBits(u: Unit, v: Unit)
    requires Value(u) == Value(v)
    ensures ValueBits(u) == ValueBits(v)
  {
  }

  // One letter is read, as no bytes at all, and is not what any bytes are written as; so are two
  // letters with bits left over.
  lemma SingleLetter()
    ensures forall u <- ['A' as int] :: Accepted(u)
    ensures Octets(Values(['A' as int])) == [] && !IsEncoding(['A' as int])
    ensures (forall u <- ['A' as int, 'B' as int] :: Accepted(u)) && !IsEncoding(['A' as int, 'B' as int])
  {
    var one, two := ['A' as int], ['A' as int, 'B' as int];
    EncodingExactly(one);
    EncodingExactly(two);
    assert Stripped(one) == one && Stripped(two) == two;
    assert Values(two)[1] == 1;
  }

  // Two vectors: three letters, and bytes written with the two characters that only the URL
  // alphabet has.
  lemma AlphabetVectors()
    ensures Text(Sextets([0x4D, 0x61, 0x6E])) == ['T' as int, 'W' as int, 'F' as int, 'u' as int]
    ensures Text(Sextets([0xFB, 0xFF, 0xBF])) == ['-' as int, '_' as int, '-' as int, '_' as int]
  {
    ThreeBytes(0x4D, 0x61, 0x6E);
    ThreeBytes(0xFB, 0xFF, 0xBF);
  }

  lemma ThreeBytes(a: bv8, b: bv8, c: bv8)
    ensures Sextets([a, b, c]) == [a >> 2, ((a & 3) << 4) | (b >> 4), ((b & 15) << 2) | (c >> 6), c & 63]
  {
  }
}
