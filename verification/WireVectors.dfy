/** The repository's own byte vectors of the input plane, which its two implementations are checked
    against: the model's encodings are those bytes. */
module WireVectors {
  import opened Bytes
  import opened KeyBitmaps
  import opened Texts
  import Wire

  lemma OneByte(a: Byte, rest: nat, width: nat)
    ensures LE(a + 256 * rest, width + 1) == [a] + LE(rest, width)
  {
    assert (a + 256 * rest) % 256 == a && (a + 256 * rest) / 256 == rest;
  }

  lemma TwoBytes(a: Byte, b: Byte)
    ensures LE(a + 256 * b, 2) == [a, b]
  {
    OneByte(a, b, 1);
    OneByte(b, 0, 0);
  }

  lemma FourBytes(a: Byte, b: Byte, c: Byte, d: Byte)
    ensures LE(a + 256 * (b + 256 * (c + 256 * d)), 4) == [a, b, c, d]
  {
    hide LE;
    OneByte(a, b + 256 * (c + 256 * d), 3);
    OneByte(b, c + 256 * d, 2);
    TwoBytes(c, d);
  }

  lemma EightBytes(low: nat, high: nat, a: Byte, b: Byte, c: Byte, d: Byte)
    requires low == a + 256 * (b + 256 * (c + 256 * d))
    ensures LE(low + 0x1_0000_0000 * high, 8) == [a, b, c, d] + LE(high, 4)
  {
    hide LE;
    OneByte(a, b + 256 * (c + 256 * (d + 256 * high)), 7);
    OneByte(b, c + 256 * (d + 256 * high), 6);
    OneByte(c, d + 256 * high, 5);
    OneByte(d, high, 4);
  }

  lemma Heads(n: Byte, ts: Byte)
    ensures LE(n, 4) == [n, 0, 0, 0] && LE(ts, 4) == [ts, 0, 0, 0]
  {
    FourBytes(n, 0, 0, 0);
    FourBytes(ts, 0, 0, 0);
  }

  // mouseMoveAbs: 0101000000020000000080004001
  lemma MoveAbsVector()
    ensures Wire.Encode(Wire.MoveAbs(1, 2, 32768, 16384, 1)) ==
      [0x01, 0x01, 0, 0, 0, 0x02, 0, 0, 0, 0x00, 0x80, 0x00, 0x40, 0x01]
  {
    hide LE;
    Heads(1, 2);
    TwoBytes(0, 0x80);
    TwoBytes(0, 0x40);
  }

  // mouseMoveRel: 020300000004000000fbff060006
  lemma MoveRelVector()
    ensures Wire.Encode(Wire.MoveRel(3, 4, -5, 6, 6)) ==
      [0x02, 0x03, 0, 0, 0, 0x04, 0, 0, 0, 0xFB, 0xFF, 0x06, 0x00, 0x06]
  {
    hide LE;
    Heads(3, 4);
    TwoBytes(0xFB, 0xFF);
    TwoBytes(6, 0);
  }

  // mouseButton: 030700000008000000020104
  lemma ButtonVector()
    ensures Wire.Encode(Wire.Button(7, 8, 2, true, 4)) == [0x03, 0x07, 0, 0, 0, 0x08, 0, 0, 0, 0x02, 0x01, 0x04]
  {
    hide LE;
    Heads(7, 8);
  }

  // mouseWheel: 04090000000a00000088fffffff0000000
  lemma WheelVector()
    ensures Wire.Encode(Wire.Wheel(9, 10, -120, 240)) ==
      [0x04, 0x09, 0, 0, 0, 0x0A, 0, 0, 0, 0x88, 0xFF, 0xFF, 0xFF, 0xF0, 0, 0, 0]
  {
    hide LE;
    Heads(9, 10);
    FourBytes(0x88, 0xFF, 0xFF, 0xFF);
    FourBytes(0xF0, 0, 0, 0);
  }

  // The bytes of a bitmap that holds 0x1A and the left shift key, 0xE1.
  function TwoHeld(): seq<Byte> {
    seq(32, i requires 0 <= i < 32 => if i == 3 then 0x04 else if i == 28 then 0x02 else 0)
  }

  lemma TwoHeldBytes()
    ensures Wire.BitmapBytes(WithKey(WithKey(NoKeys(), 0x1A, true), 0xE1, true)) == TwoHeld()
  {
    var m := WithKey(WithKey(NoKeys(), 0x1A, true), 0xE1, true);
    assert m[3] == 4 && m[28] == 2;
    assert forall i | 0 <= i < 32 && i != 3 && i != 28 :: m[i] == 0;
  }

  // key: 050b0000000c0000001a0001 and the bitmap
  lemma KeyVector()
    ensures Wire.Encode(Wire.Key(11, 12, 0x1A, true, WithKey(WithKey(NoKeys(), 0x1A, true), 0xE1, true))) ==
      [0x05, 0x0B, 0, 0, 0, 0x0C, 0, 0, 0, 0x1A, 0x00, 0x01] + TwoHeld()
  {
    hide LE, WithKey, Wire.BitmapBytes, TwoHeld;
    Heads(11, 12);
    TwoBytes(0x1A, 0);
    TwoHeldBytes();
  }

  // keyStateSync: 060d0000000e00000000 and 32 zeros
  lemma SyncVector()
    ensures Wire.Encode(Wire.Sync(13, 14, 0, NoKeys())) ==
      [0x06, 0x0D, 0, 0, 0, 0x0E, 0, 0, 0, 0x00] + seq(32, _ => 0)
  {
    hide LE;
    Heads(13, 14);
    assert Wire.BitmapBytes(NoKeys()) == seq(32, _ => 0);
  }

  // inputPing: 070f0000004022224648470600
  lemma PingVector()
    ensures Wire.Encode(Wire.Ping(15, 1_767_225_600_123_456)) ==
      [0x07, 0x0F, 0, 0, 0, 0x40, 0x22, 0x22, 0x46, 0x48, 0x47, 0x06, 0x00]
  {
    hide LE;
    Heads(15, 0);
    EightBytes(0x4622_2240, 0x0006_4748, 0x40, 0x22, 0x22, 0x46);
    FourBytes(0x48, 0x47, 0x06, 0x00);
  }

  lemma AsciiUnit(u: Unit)
    requires u < 0x80
    ensures OneUnit(u) == [u]
  {
  }

  // Plain ASCII goes as it is.
  lemma {:induction false} AsciiFirst(plain: seq<Byte>, rest: seq<Unit>)
    requires forall u <- plain :: u < 0x80
    ensures Utf8(plain + rest) == plain + Utf8(rest)
  {
    hide OneUnit, Pair;
    if plain == [] {
      assert plain + rest == rest;
    } else {
      assert plain == [plain[0]] + plain[1..] && plain[0] in plain && forall u <- plain[1..] :: u in plain;
      AsciiFirst(plain[1..], rest);
      assert (plain + rest)[1..] == plain[1..] + rest;
      AsciiUnit(plain[0]);
    }
  }

  lemma AccentFirst(u: Unit, rest: seq<Unit>)
    requires 0x80 <= u < 0x800
    ensures Utf8([u] + rest) == [0xC0 + u / 0x40, 0x80 + u % 0x40] + Utf8(rest)
  {
    assert ([u] + rest)[1..] == rest;
  }

  const WORDS: seq<Unit> := [0x68, 0xE9, 0x6C, 0x6C, 0x6F, 0x0A, 0x77, 0xF6, 0x72, 0x6C, 0x64]
  const WORDS_BYTES: seq<Byte> := [0x68, 0xC3, 0xA9, 0x6C, 0x6C, 0x6F, 0x0A, 0x77, 0xC3, 0xB6, 0x72, 0x6C, 0x64]

  lemma NoText()
    ensures Utf8([]) == []
  {
  }

  lemma WordsInUtf8()
    ensures Utf8(WORDS) == WORDS_BYTES
  {
    hide Utf8;
    var h: seq<Byte>, low: seq<Byte>, rld: seq<Byte> := [0x68], [0x6C, 0x6C, 0x6F, 0x0A, 0x77], [0x72, 0x6C, 0x64];
    NoText();
    AsciiFirst(rld, []);
    assert rld + [] == rld;
    AccentFirst(0xF6, rld);
    AsciiFirst(low, [0xF6] + rld);
    AccentFirst(0xE9, low + ([0xF6] + rld));
    AsciiFirst(h, [0xE9] + (low + ([0xF6] + rld)));
    assert h + ([0xE9] + (low + ([0xF6] + rld))) == WORDS;
  }

  // textInput: 08140000000d000000 and the thirteen bytes of two words with an accent each
  lemma TextVector()
    ensures Wire.Encode(Wire.Text(20, WORDS_BYTES)) == [0x08, 0x14, 0, 0, 0, 0x0D, 0, 0, 0] + WORDS_BYTES
    ensures Utf8(WORDS) == WORDS_BYTES
  {
    hide LE, Utf8;
    Heads(20, 13);
    WordsInUtf8();
  }

  // A sign outside the basic plane, from section 7 of RFC 3629: U+233B4.
  lemma PairVector()
    ensures Utf8([0xD84C, 0xDFB4]) == [0xF0, 0xA3, 0x8E, 0xB4] && Units([0xF0, 0xA3, 0x8E, 0xB4]) == [0xD84C, 0xDFB4]
  {
    var text: seq<Unit> := [0xD84C, 0xDFB4];
    assert text[2..] == [];
    assert Utf8(text) == [0xF0, 0xA3, 0x8E, 0xB4];
    ReadBack(text);
  }

  // pong: 871300000000100000000000000020000000000000
  lemma PongVector()
    ensures Wire.PongBytes(Wire.Pong(19, 0x1000, 0x2000)) ==
      [0x87, 0x13, 0, 0, 0, 0x00, 0x10, 0, 0, 0, 0, 0, 0, 0x00, 0x20, 0, 0, 0, 0, 0, 0]
  {
    hide LE;
    Heads(19, 0);
    EightBytes(0x1000, 0, 0, 0x10, 0, 0);
    EightBytes(0x2000, 0, 0, 0x20, 0, 0);
  }
}
