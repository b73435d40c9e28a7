/** Text on its way from the browser to the agent: UTF-16 in the browser, UTF-8 on the wire
    (section 3 of RFC 3629). */
module Texts {
  import opened Bytes

  predicate High(u: Unit) { 0xD800 <= u < 0xDC00 }

  predicate Low(u: Unit) { 0xDC00 <= u < 0xE000 }

  // What stands for half of a pair without the other half.
  const REPLACEMENT: Unit := 0xFFFD

  // One, two or three bytes for what fits one unit.
  function OneUnit(u: Unit): (b: seq<Byte>)
    ensures 1 <= |b| <= 3 && (|b| == 1 <==> u < 0x80)
  {
    if u < 0x80 then [u]
    else if u < 0x800 then [0xC0 + u / 0x40, 0x80 + u % 0x40]
    else [0xE0 + u / 0x1000, 0x80 + u / 0x40 % 0x40, 0x80 + u % 0x40]
  }

  // The code point of a pair, and back.
  function OfPair(high: Unit, low: Unit): (c: nat)
    requires High(high) && Low(low)
    ensures 0x1_0000 <= c < 0x11_0000
  {
    0x1_0000 + (high - 0xD800) * 0x400 + (low - 0xDC00)
  }

  function PairOf(c: nat): seq<Unit>
    requires 0x1_0000 <= c < 0x11_0000
  {
    [0xD800 + (c - 0x1_0000) / 0x400, 0xDC00 + (c - 0x1_0000) % 0x400]
  }

  // Four bytes for a pair.
  function Pair(high: Unit, low: Unit): (b: seq<Byte>)
    requires High(high) && Low(low)
    ensures |b| == 4
  {
    var c := OfPair(high, low);
    [0xF0 + c / 0x4_0000, 0x80 + c / 0x1000 % 0x40, 0x80 + c / 0x40 % 0x40, 0x80 + c % 0x40]
  }

  function Utf8(text: seq<Unit>): seq<Byte> {
    if text == [] then []
    else if High(text[0]) && |text| > 1 && Low(text[1]) then Pair(text[0], text[1]) + Utf8(text[2..])
    else OneUnit(if High(text[0]) || Low(text[0]) then REPLACEMENT else text[0]) + Utf8(text[1..])
  }

  // Never more than three bytes for a unit, and one for each exactly in plain ASCII.
  lemma {:induction false} Utf8Size(text: seq<Unit>)
    ensures |text| <= |Utf8(text)| <= 3 * |text|
    ensures |Utf8(text)| == |text| <==> Ascii(text)
  {
    hide OneUnit, Pair;
    if text != [] {
      if High(text[0]) && |text| > 1 && Low(text[1]) {
        Utf8Size(text[2..]);
        assert !Ascii(text) by { assert text[0] in text; }
      } else {
        Utf8Size(text[1..]);
        AsciiFromTheFront(text);
      }
    }
  }

  predicate Ascii(text: seq<Unit>) { forall u <- text :: u < 0x80 }

  lemma AsciiFromTheFront(text: seq<Unit>)
    requires text != []
    ensures Ascii(text) <==> text[0] < 0x80 && Ascii(text[1..])
  {
    assert text == [text[0]] + text[1..];
    assert forall u <- text[1..] :: u in text;
    assert forall u <- text :: u == text[0] || u in text[1..];
    assert text[0] in text;
  }

  function Euros(n: nat): (t: seq<Unit>)
    ensures |t| == n
  {
    seq(n, _ => 0x20AC)
  }

  lemma {:induction false} EurosSize(n: nat)
    ensures |Utf8(Euros(n))| == 3 * n
  {
    if n > 0 {
      EurosSize(n - 1);
      assert Euros(n)[1..] == Euros(n - 1);
    }
  }

  // ------------------------------------------------------------------ the way back

  predicate Cont(b: Byte) { 0x80 <= b < 0xC0 }

  // The six bits of a byte that continues another.
  function Six(b: Byte): (r: nat)
    requires Cont(b)
    ensures r < 0x40
  {
    var x: int := b; x - 0x80
  }

  // The code point at the front and how many bytes it takes; what is not the start of one in
  // its shortest form takes one byte and stands for the replacement. An encoded half of a pair
  // is let through.
  function Front(b: seq<Byte>): (r: (nat, nat))
    requires b != []
    ensures 1 <= r.1 <= |b| && r.0 < 0x11_0000
  {
    var lead: int := b[0];
    if lead < 0x80 then (lead, 1)
    else if 0xC2 <= lead < 0xE0 && |b| >= 2 && Cont(b[1]) then ((lead - 0xC0) * 0x40 + Six(b[1]), 2)
    else if 0xE0 <= lead < 0xF0 && |b| >= 3 && Cont(b[1]) && Cont(b[2])
      && (lead == 0xE0 ==> b[1] >= 0xA0) then
      ((lead - 0xE0) * 0x1000 + Six(b[1]) * 0x40 + Six(b[2]), 3)
    else if 0xF0 <= lead < 0xF5 && |b| >= 4 && Cont(b[1]) && Cont(b[2]) && Cont(b[3])
      && (lead == 0xF0 ==> b[1] >= 0x90) && (lead == 0xF4 ==> b[1] < 0x90) then
      ((lead - 0xF0) * 0x4_0000 + Six(b[1]) * 0x1000 + Six(b[2]) * 0x40 + Six(b[3]), 4)
    else (REPLACEMENT, 1)
  }

  // The UTF-16 form of what the bytes say.
  function Units(b: seq<Byte>): seq<Unit> {
    if b == [] then []
    else
      var (c, size) := Front(b);
      (if c < 0x1_0000 then [c] else PairOf(c)) + Units(b[size..])
  }

  // The text with every half that has no other half replaced.
  function Mended(text: seq<Unit>): seq<Unit> {
    if text == [] then []
    else if High(text[0]) && |text| > 1 && Low(text[1]) then [text[0], text[1]] + Mended(text[2..])
    else [if High(text[0]) || Low(text[0]) then REPLACEMENT else text[0]] + Mended(text[1..])
  }

  // No half stands alone.
  predicate WellFormed(text: seq<Unit>) {
    text == [] ||
    (if High(text[0]) then |text| > 1 && Low(text[1]) && WellFormed(text[2..])
     else !Low(text[0]) && WellFormed(text[1..]))
  }

  lemma FrontOfOne(u: Unit, rest: seq<Byte>)
    requires !High(u) && !Low(u)
    ensures Front(OneUnit(u) + rest) == (u, |OneUnit(u)|)
  {
    var b := OneUnit(u) + rest;
    if u < 0x80 {
    } else if u < 0x800 {
      assert b[0] == 0xC0 + u / 0x40 && b[1] == 0x80 + u % 0x40;
    } else {
      assert b[0] == 0xE0 + u / 0x1000 && b[1] == 0x80 + u / 0x40 % 0x40 && b[2] == 0x80 + u % 0x40;
      ThreeDigits(u);
    }
  }

  lemma ThreeDigits(u: nat)
    requires u < 0x1_0000
    ensures u == u / 0x1000 * 0x1000 + u / 0x40 % 0x40 * 0x40 + u % 0x40 && u / 0x1000 < 16
    ensures u >= 0x800 && u / 0x1000 == 0 ==> u / 0x40 % 0x40 >= 0x20
  {
    var q := u / 0x40;
    assert u == q * 0x40 + u % 0x40;
    assert q / 0x40 == u / 0x1000;
    assert q == q / 0x40 * 0x40 + q % 0x40;
  }

  lemma FourDigits(c: nat)
    requires 0x1_0000 <= c < 0x11_0000
    ensures c == c / 0x4_0000 * 0x4_0000 + c / 0x1000 % 0x40 * 0x1000 + c / 0x40 % 0x40 * 0x40 + c % 0x40
    ensures c / 0x4_0000 <= 4 && (c / 0x4_0000 == 0 ==> c / 0x1000 % 0x40 >= 0x10)
    ensures c / 0x4_0000 == 4 ==> c / 0x1000 % 0x40 < 0x10
  {
    var q, p := c / 0x40, c / 0x1000;
    assert c == q * 0x40 + c % 0x40;
    assert q / 0x40 == p && q == p * 0x40 + q % 0x40;
    assert p / 0x40 == c / 0x4_0000 && p == p / 0x40 * 0x40 + p % 0x40;
  }

  lemma FrontOfPair(high: Unit, low: Unit, rest: seq<Byte>)
    requires High(high) && Low(low)
    ensures Front(Pair(high, low) + rest) == (OfPair(high, low), 4) && PairOf(OfPair(high, low)) == [high, low]
  {
    var c := OfPair(high, low);
    var b := Pair(high, low) + rest;
    FourDigits(c);
    assert b[0] == 0xF0 + c / 0x4_0000 && b[1] == 0x80 + c / 0x1000 % 0x40;
    assert b[2] == 0x80 + c / 0x40 % 0x40 && b[3] == 0x80 + c % 0x40;
  }

  // What was written is read back, but for halves that stood alone.
  lemma {:induction false} ReadBack(text: seq<Unit>)
    ensures Units(Utf8(text)) == Mended(text)
  {
    hide OneUnit, Pair, Front, PairOf, OfPair;
    if text != [] {
      if High(text[0]) && |text| > 1 && Low(text[1]) {
        ReadBack(text[2..]);
        var rest := Utf8(text[2..]);
        FrontOfPair(text[0], text[1], rest);
        assert (Pair(text[0], text[1]) + rest)[4..] == rest;
      } else {
        ReadBack(text[1..]);
        var u := if High(text[0]) || Low(text[0]) then REPLACEMENT else text[0];
        var rest := Utf8(text[1..]);
        FrontOfOne(u, rest);
        assert (OneUnit(u) + rest)[|OneUnit(u)|..] == rest;
      }
    }
  }

  // Nothing is replaced exactly in a text without lone halves.
  lemma {:induction false} MendedExactly(text: seq<Unit>)
    ensures |Mended(text)| == |text| && (Mended(text) == text <==> WellFormed(text))
  {
    if text != [] {
      if High(text[0]) && |text| > 1 && Low(text[1]) {
        MendedExactly(text[2..]);
        assert text == [text[0], text[1]] + text[2..] && Mended(text)[2..] == Mended(text[2..]);
        assert WellFormed(text) <==> WellFormed(text[2..]) by {
          assert text[1..][1..] == text[2..];
        }
      } else {
        MendedExactly(text[1..]);
        assert text == [text[0]] + text[1..] && Mended(text)[1..] == Mended(text[1..]);
      }
    }
  }

  lemma ZeroOfOne(u: Unit)
    ensures 0 in OneUnit(u) <==> u == 0
  {
    if u < 0x80 {
      assert OneUnit(u)[0] == u;
    }
  }

  // A zero byte stands for a zero unit only.
  lemma {:induction false} ZeroByte(text: seq<Unit>)
    ensures 0 in Utf8(text) <==> 0 in text
  {
    hide OneUnit, OfPair;
    if text != [] {
      if High(text[0]) && |text| > 1 && Low(text[1]) {
        ZeroByte(text[2..]);
        assert text == [text[0], text[1]] + text[2..];
      } else {
        ZeroByte(text[1..]);
        ZeroOfOne(if High(text[0]) || Low(text[0]) then REPLACEMENT else text[0]);
        assert text == [text[0]] + text[1..];
      }
    }
  }
}
