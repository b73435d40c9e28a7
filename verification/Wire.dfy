/** The binary packets of the input plane, as the Go side encodes and decodes them and as
    the browser does. */
module Wire {
  import opened Basics
  import opened Bytes
  import opened KeyBitmaps
  import opened Texts

  datatype Kind = MoveAbsKind | MoveRelKind | ButtonKind | WheelKind | KeyKind | SyncKind | PingKind | TextKind

  datatype Message =
    | MoveAbs(seqNo: nat, ts: nat, x: nat, y: nat, buttons: bv8)
    | MoveRel(seqNo: nat, ts: nat, dx: int, dy: int, buttons: bv8)
    | Button(seqNo: nat, ts: nat, index: nat, down: bool, buttons: bv8)
    | Wheel(seqNo: nat, ts: nat, dx: int, dy: int)
    | Key(seqNo: nat, ts: nat, usage: nat, down: bool, state: Bitmap)
    | Sync(seqNo: nat, ts: nat, buttons: bv8, state: Bitmap)
    | Ping(seqNo: nat, micros: nat)
    | Text(seqNo: nat, text: seq<Byte>)

  datatype Result = Decoded(message: Message) | Short | TooLong

  const MAX_TEXT: nat := 8 * 1024

  function KindOf(m: Message): Kind {
    match m
    case MoveAbs(_, _, _, _, _) => MoveAbsKind
    case MoveRel(_, _, _, _, _) => MoveRelKind
    case Button(_, _, _, _, _) => ButtonKind
    case Wheel(_, _, _, _) => WheelKind
    case Key(_, _, _, _, _) => KeyKind
    case Sync(_, _, _, _) => SyncKind
    case Ping(_, _) => PingKind
    case Text(_, _) => TextKind
  }

  function TypeByte(k: Kind): Byte {
    match k
    case MoveAbsKind => 0x01
    case MoveRelKind => 0x02
    case ButtonKind => 0x03
    case WheelKind => 0x04
    case KeyKind => 0x05
    case SyncKind => 0x06
    case PingKind => 0x07
    case TextKind => 0x08
  }

  // The declared sizes without the type byte; for text, of what precedes the text.
  function PayloadSize(k: Kind): nat {
    match k
    case MoveAbsKind => 4 + 4 + 2 + 2 + 1
    case MoveRelKind => 4 + 4 + 2 + 2 + 1
    case ButtonKind => 4 + 4 + 1 + 1 + 1
    case WheelKind => 4 + 4 + 4 + 4
    case KeyKind => 4 + 4 + 2 + 1 + 32
    case SyncKind => 4 + 4 + 1 + 32
    case PingKind => 4 + 8
    case TextKind => 4 + 4
  }

  predicate Signed(n: int, range: nat) { -(range / 2) <= n < range / 2 }

  // The values the fields of a Go message can have.
  predicate InRange(m: Message) {
    && m.seqNo < U32
    && match m
       case MoveAbs(_, ts, x, y, _) => ts < U32 && x < U16 && y < U16
       case MoveRel(_, ts, dx, dy, _) => ts < U32 && Signed(dx, U16) && Signed(dy, U16)
       case Button(_, ts, index, _, _) => ts < U32 && index < 256
       case Wheel(_, ts, dx, dy) => ts < U32 && Signed(dx, U32) && Signed(dy, U32)
       case Key(_, ts, usage, _, _) => ts < U32 && usage < U16
       case Sync(_, ts, _, _) => ts < U32
       case Ping(_, micros) => micros < U64
       case Text(_, text) => |text| < U32
  }

  // ------------------------------------------------------------------ fields

  // Reinterpreting a signed number as an unsigned one of the same width, and back.
  function ToUnsigned(n: int, range: nat): (u: nat)
    requires Signed(n, range)
    ensures u < range
  {
    if n < 0 then n + range else n
  }

  function ToSigned(u: nat, range: nat): int {
    if u < range / 2 then u else u - range
  }

  // The nearest number of the width.
  function Clamped(n: int, range: nat): (c: int)
    requires range >= 2 && range % 2 == 0
    ensures Signed(c, range) && (Signed(n, range) ==> c == n)
    ensures forall m | Signed(m, range) :: (n <= m ==> c <= m) && (m <= n ==> m <= c)
  {
    if n < -(range / 2) then -(range / 2) else if n > range / 2 - 1 then range / 2 - 1 else n
  }

  lemma TwosComplement(n: int, range: nat)
    requires Signed(n, range) && range % 2 == 0
    ensures ToSigned(ToUnsigned(n, range), range) == n
  {
  }

  function BoolByte(b: bool): Byte { if b then 1 else 0 }

  function BitmapBytes(m: Bitmap): (s: seq<Byte>)
    ensures |s| == 32
  {
    seq(32, i requires 0 <= i < 32 => OfBits(m[i]))
  }

  function BitmapOf(s: seq<Byte>): Bitmap
    requires |s| == 32
  {
    seq(32, i requires 0 <= i < 32 => ToBits(s[i]))
  }

  lemma BitmapRoundTrip(m: Bitmap)
    ensures BitmapOf(BitmapBytes(m)) == m
  {
    forall i | 0 <= i < 32 ensures BitmapOf(BitmapBytes(m))[i] == m[i] {
      BitsRoundTrip(m[i]);
    }
  }

  function Field(b: seq<Byte>, at: nat, width: nat): nat
    requires at + width <= |b|
  {
    FromLE(b[at..at + width])
  }

  // -------------------------------------------------------------- the Go side

  function Payload(m: Message): seq<Byte>
    requires InRange(m)
  {
    match m
    case MoveAbs(n, ts, x, y, buttons) => LE(n, 4) + LE(ts, 4) + LE(x, 2) + LE(y, 2) + [OfBits(buttons)]
    case MoveRel(n, ts, dx, dy, buttons) =>
      LE(n, 4) + LE(ts, 4) + LE(ToUnsigned(dx, U16), 2) + LE(ToUnsigned(dy, U16), 2) + [OfBits(buttons)]
    case Button(n, ts, index, down, buttons) => LE(n, 4) + LE(ts, 4) + [index, BoolByte(down), OfBits(buttons)]
    case Wheel(n, ts, dx, dy) => LE(n, 4) + LE(ts, 4) + LE(ToUnsigned(dx, U32), 4) + LE(ToUnsigned(dy, U32), 4)
    case Key(n, ts, usage, down, state) =>
      LE(n, 4) + LE(ts, 4) + LE(usage, 2) + [BoolByte(down)] + BitmapBytes(state)
    case Sync(n, ts, buttons, state) => LE(n, 4) + LE(ts, 4) + [OfBits(buttons)] + BitmapBytes(state)
    case Ping(n, micros) => LE(n, 4) + LE(micros, 8)
    case Text(n, text) => LE(n, 4) + LE(|text|, 4) + text
  }

  function Encode(m: Message): seq<Byte>
    requires InRange(m)
  {
    [TypeByte(KindOf(m))] + Payload(m)
  }

  // Parses what follows the type byte.
  function Decode(k: Kind, b: seq<Byte>): Result {
    if |b| < PayloadSize(k) then Short
    else
      match k
      case MoveAbsKind =>
        Decoded(MoveAbs(Field(b, 0, 4), Field(b, 4, 4), Field(b, 8, 2), Field(b, 10, 2), ToBits(b[12])))
      case MoveRelKind =>
        var dx, dy := ToSigned(Field(b, 8, 2), U16), ToSigned(Field(b, 10, 2), U16);
        Decoded(MoveRel(Field(b, 0, 4), Field(b, 4, 4), dx, dy, ToBits(b[12])))
      case ButtonKind =>
        Decoded(Button(Field(b, 0, 4), Field(b, 4, 4), b[8], b[9] != 0, ToBits(b[10])))
      case WheelKind =>
        Decoded(Wheel(Field(b, 0, 4), Field(b, 4, 4), ToSigned(Field(b, 8, 4), U32), ToSigned(Field(b, 12, 4), U32)))
      case KeyKind =>
        Decoded(Key(Field(b, 0, 4), Field(b, 4, 4), Field(b, 8, 2), b[10] != 0, BitmapOf(b[11..43])))
      case SyncKind =>
        Decoded(Sync(Field(b, 0, 4), Field(b, 4, 4), ToBits(b[8]), BitmapOf(b[9..41])))
      case PingKind =>
        Decoded(Ping(Field(b, 0, 4), Field(b, 4, 8)))
      case TextKind =>
        var n := Field(b, 4, 4);
        if n > MAX_TEXT then TooLong
        else if |b| < 8 + n then Short
        else Decoded(Text(Field(b, 0, 4), b[8..8 + n]))
  }

  // ------------------------------------------------------------------ round trips

  lemma FieldAfter(before: seq<Byte>, n: nat, width: nat, after: seq<Byte>)
    requires n < Range(width)
    ensures Field(before + LE(n, width) + after, |before|, width) == n
  {
    assert (before + LE(n, width) + after)[|before|..|before| + width] == LE(n, width);
    LERoundTrip(n, width);
  }

  // Two 32-bit numbers head every packet but the ping's.
  lemma Heads(n: nat, ts: nat, rest: seq<Byte>)
    requires n < U32 && ts < U32
    ensures var b := LE(n, 4) + LE(ts, 4) + rest; Field(b, 0, 4) == n && Field(b, 4, 4) == ts && b[8..] == rest
  {
    Ranges();
    var b := LE(n, 4) + LE(ts, 4) + rest;
    FieldAfter([], n, 4, LE(ts, 4) + rest);
    assert b == [] + LE(n, 4) + (LE(ts, 4) + rest);
    FieldAfter(LE(n, 4), ts, 4, rest);
  }

  lemma FieldOfTail(b: seq<Byte>, cut: nat, at: nat, width: nat)
    requires cut <= at && at + width <= |b|
    ensures Field(b, at, width) == Field(b[cut..], at - cut, width)
  {
    var x, y := b[at..at + width], b[cut..][at - cut..at - cut + width];
    assert |x| == |y| && forall i | 0 <= i < width :: x[i] == b[at + i] == y[i];
    assert x == y;
  }

  lemma PairRoundTrip(p: nat, q: nat, width: nat, tail: seq<Byte>)
    requires p < Range(width) && q < Range(width)
    ensures var b := LE(p, width) + LE(q, width) + tail;
      Field(b, 0, width) == p && Field(b, width, width) == q && b[2 * width..] == tail
  {
    hide LE, FromLE, Range, Field;
    FieldAfter([], p, width, LE(q, width) + tail);
    assert LE(p, width) + LE(q, width) + tail == [] + LE(p, width) + (LE(q, width) + tail);
    FieldAfter(LE(p, width), q, width, tail);
  }

  lemma SecondPart(a: seq<Byte>, b: seq<Byte>)
    ensures (a + b)[|a|..|a| + |b|] == b
  {
  }

  lemma RoundTripMoveAbs(m: Message)
    requires m.MoveAbs? && InRange(m)
    ensures |Payload(m)| == PayloadSize(MoveAbsKind) && Decode(MoveAbsKind, Payload(m)) == Decoded(m)
  {
    hide Field, LE, FromLE, Range, OfBits, ToBits, BitmapOf, BitmapBytes, ToSigned, ToUnsigned;
    Ranges();
    var MoveAbs(n, ts, x, y, buttons) := m;
    var b := Payload(m);
    var rest := LE(x, 2) + LE(y, 2) + [OfBits(buttons)];
    assert b == LE(n, 4) + LE(ts, 4) + rest;
    Heads(n, ts, rest);
    PairRoundTrip(x, y, 2, [OfBits(buttons)]);
    FieldOfTail(b, 8, 8, 2);
    FieldOfTail(b, 8, 10, 2);
    BitsRoundTrip(buttons);
  }

  lemma RoundTripMoveRel(m: Message)
    requires m.MoveRel? && InRange(m)
    ensures |Payload(m)| == PayloadSize(MoveRelKind) && Decode(MoveRelKind, Payload(m)) == Decoded(m)
  {
    hide Field, LE, FromLE, Range, OfBits, ToBits, BitmapOf, BitmapBytes, ToSigned, ToUnsigned;
    Ranges();
    var MoveRel(n, ts, dx, dy, buttons) := m;
    var b := Payload(m);
    var u, v := ToUnsigned(dx, U16), ToUnsigned(dy, U16);
    var rest := LE(u, 2) + LE(v, 2) + [OfBits(buttons)];
    assert b == LE(n, 4) + LE(ts, 4) + rest;
    Heads(n, ts, rest);
    PairRoundTrip(u, v, 2, [OfBits(buttons)]);
    FieldOfTail(b, 8, 8, 2);
    FieldOfTail(b, 8, 10, 2);
    TwosComplement(dx, U16);
    TwosComplement(dy, U16);
    BitsRoundTrip(buttons);
  }

  lemma RoundTripButton(m: Message)
    requires m.Button? && InRange(m)
    ensures |Payload(m)| == PayloadSize(ButtonKind) && Decode(ButtonKind, Payload(m)) == Decoded(m)
  {
    hide Field, LE, FromLE, Range, OfBits, ToBits, BitmapOf, BitmapBytes, ToSigned, ToUnsigned;
    Ranges();
    var Button(n, ts, index, down, buttons) := m;
    var b := Payload(m);
    Heads(n, ts, [index, BoolByte(down), OfBits(buttons)]);
    BitsRoundTrip(buttons);
  }

  lemma RoundTripWheel(m: Message)
    requires m.Wheel? && InRange(m)
    ensures |Payload(m)| == PayloadSize(WheelKind) && Decode(WheelKind, Payload(m)) == Decoded(m)
  {
    hide Field, LE, FromLE, Range, OfBits, ToBits, BitmapOf, BitmapBytes, ToSigned, ToUnsigned;
    Ranges();
    var Wheel(n, ts, dx, dy) := m;
    var b := Payload(m);
    var u, v := ToUnsigned(dx, U32), ToUnsigned(dy, U32);
    var rest := LE(u, 4) + LE(v, 4) + [];
    assert b == LE(n, 4) + LE(ts, 4) + rest;
    Heads(n, ts, rest);
    PairRoundTrip(u, v, 4, []);
    FieldOfTail(b, 8, 8, 4);
    FieldOfTail(b, 8, 12, 4);
    TwosComplement(dx, U32);
    TwosComplement(dy, U32);
  }

  lemma RoundTripKey(m: Message)
    requires m.Key? && InRange(m)
    ensures |Payload(m)| == PayloadSize(KeyKind) && Decode(KeyKind, Payload(m)) == Decoded(m)
  {
    hide Field, LE, FromLE, Range, OfBits, ToBits, BitmapOf, BitmapBytes, ToSigned, ToUnsigned;
    Ranges();
    var Key(n, ts, usage, down, state) := m;
    var b := Payload(m);
    var rest := LE(usage, 2) + [BoolByte(down)] + BitmapBytes(state);
    assert b == LE(n, 4) + LE(ts, 4) + rest;
    Heads(n, ts, rest);
    FieldAfter([], usage, 2, [BoolByte(down)] + BitmapBytes(state));
    assert rest == [] + LE(usage, 2) + ([BoolByte(down)] + BitmapBytes(state));
    FieldOfTail(b, 8, 8, 2);
    SecondPart(LE(n, 4) + LE(ts, 4) + LE(usage, 2) + [BoolByte(down)], BitmapBytes(state));
    BitmapRoundTrip(state);
  }

  lemma RoundTripSync(m: Message)
    requires m.Sync? && InRange(m)
    ensures |Payload(m)| == PayloadSize(SyncKind) && Decode(SyncKind, Payload(m)) == Decoded(m)
  {
    hide Field, LE, FromLE, Range, OfBits, ToBits, BitmapOf, BitmapBytes, ToSigned, ToUnsigned;
    Ranges();
    var Sync(n, ts, buttons, state) := m;
    var b := Payload(m);
    Heads(n, ts, [OfBits(buttons)] + BitmapBytes(state));
    assert b == LE(n, 4) + LE(ts, 4) + ([OfBits(buttons)] + BitmapBytes(state));
    SecondPart(LE(n, 4) + LE(ts, 4) + [OfBits(buttons)], BitmapBytes(state));
    BitsRoundTrip(buttons);
    BitmapRoundTrip(state);
  }

  lemma RoundTripPing(m: Message)
    requires m.Ping? && InRange(m)
    ensures |Payload(m)| == PayloadSize(PingKind) && Decode(PingKind, Payload(m)) == Decoded(m)
  {
    hide Field, LE, FromLE, Range, OfBits, ToBits, BitmapOf, BitmapBytes, ToSigned, ToUnsigned;
    Ranges();
    var Ping(n, micros) := m;
    var b := Payload(m);
    FieldAfter([], n, 4, LE(micros, 8));
    assert b == [] + LE(n, 4) + LE(micros, 8);
    FieldAfter(LE(n, 4), micros, 8, []);
    assert b == LE(n, 4) + LE(micros, 8) + [];
  }

  lemma RoundTripText(m: Message)
    requires m.Text? && InRange(m)
    ensures |Payload(m)| == PayloadSize(TextKind) + |m.text|
    ensures Decode(TextKind, Payload(m)) == if |m.text| <= MAX_TEXT then Decoded(m) else TooLong
  {
    hide Field, LE, FromLE, Range, OfBits, ToBits, BitmapOf, BitmapBytes, ToSigned, ToUnsigned;
    Ranges();
    var Text(n, text) := m;
    var b := Payload(m);
    Heads(n, |text|, text);
    assert b[8..8 + |text|] == text;
  }

  // Decoding undoes encoding of everything but a text over the limit, which is refused; and
  // encodings have the declared size.
  lemma RoundTrip(m: Message)
    requires InRange(m)
    ensures |Payload(m)| == PayloadSize(KindOf(m)) + if m.Text? then |m.text| else 0
    ensures Decode(KindOf(m), Payload(m)) == if m.Text? && |m.text| > MAX_TEXT then TooLong else Decoded(m)
  {
    hide Payload, Decode;
    match m
    case MoveAbs(_, _, _, _, _) => RoundTripMoveAbs(m);
    case MoveRel(_, _, _, _, _) => RoundTripMoveRel(m);
    case Button(_, _, _, _, _) => RoundTripButton(m);
    case Wheel(_, _, _, _) => RoundTripWheel(m);
    case Key(_, _, _, _, _) => RoundTripKey(m);
    case Sync(_, _, _, _) => RoundTripSync(m);
    case Ping(_, _) => RoundTripPing(m);
    case Text(_, _) => RoundTripText(m);
  }

  // Anything shorter than the declared size is refused, and for a fixed-size packet only that.
  lemma ShortPayloads(k: Kind, b: seq<Byte>)
    ensures |b| < PayloadSize(k) ==> Decode(k, b) == Short
    ensures !k.TextKind? ==> (Decode(k, b) == Short <==> |b| < PayloadSize(k))
    ensures k.TextKind? && |b| >= 8 ==>
      var n := Field(b, 4, 4);
      && (Decode(k, b) == TooLong <==> n > MAX_TEXT)
      && (Decode(k, b) == Short <==> n <= MAX_TEXT && |b| < 8 + n)
  {
    hide Field, ToSigned, ToBits, BitmapOf;
  }

  // Two messages are never encoded alike.
  lemma EncodeIsInjective(m: Message, n: Message)
    requires InRange(m) && InRange(n) && Encode(m) == Encode(n)
    requires m.Text? ==> |m.text| <= MAX_TEXT
    requires n.Text? ==> |n.text| <= MAX_TEXT
    ensures m == n
  {
    RoundTrip(m);
    RoundTrip(n);
    EncodeSplits(m);
    EncodeSplits(n);
    hide *;
    TypeBytesDiffer(KindOf(m), KindOf(n));
  }

  lemma EncodeSplits(m: Message)
    requires InRange(m)
    ensures Encode(m) != [] && Encode(m)[0] == TypeByte(KindOf(m)) && Encode(m)[1..] == Payload(m)
  {
    hide Payload;
  }

  lemma TypeBytesDiffer(k: Kind, l: Kind)
    ensures TypeByte(k) == TypeByte(l) ==> k == l
  {
  }

  // ------------------------------------------------------------ the browser's side

  // A view of a buffer of the packet's size, filled front to back.
  class Writer {
    const bytes: array<Byte>

    constructor (size: nat)
      ensures fresh(bytes) && bytes.Length == size
    {
      bytes := new Byte[size](_ => 0);
    }

    // setUint8, setUint16, setUint32 and setBigUint64, all little-endian.
    method SetUnsigned(at: nat, value: nat, width: nat)
      requires at + width <= bytes.Length
      modifies bytes
      ensures bytes[..at + width] == old(bytes[..at]) + LE(value, width)
    {
      var rest := value;
      for i := 0 to width
        invariant bytes[..at] == old(bytes[..at])
        invariant bytes[at..at + i] + LE(rest, width - i) == LE(value, width)
      {
        bytes[at + i] := rest % 256;
        assert bytes[at..at + i + 1] == bytes[at..at + i] + [rest % 256];
        assert LE(rest, width - i) == [rest % 256] + LE(rest / 256, width - i - 1);
        rest := rest / 256;
      }
      assert bytes[..at + width] == bytes[..at] + bytes[at..at + width];
    }

    // setInt16 and setInt32 after the clamp of the encoders.
    method SetClamped(at: nat, value: int, range: nat, width: nat)
      requires at + width <= bytes.Length && range >= 2 && range % 2 == 0
      modifies bytes
      ensures bytes[..at + width] == old(bytes[..at]) + LE(ToUnsigned(Clamped(value, range), range), width)
    {
      SetUnsigned(at, ToUnsigned(Clamped(value, range), range), width);
    }

    method SetBytes(at: nat, data: seq<Byte>)
      requires at + |data| <= bytes.Length
      modifies bytes
      ensures bytes[..at + |data|] == old(bytes[..at]) + data
    {
      for i := 0 to |data|
        invariant bytes[..at + i] == old(bytes[..at]) + data[..i]
      {
        bytes[at + i] := data[i];
        assert data[..i + 1] == data[..i] + [data[i]];
        assert bytes[..at + i + 1] == bytes[..at + i] + [data[i]];
      }
      assert data[..|data|] == data;
    }
  }

  // A buffer of `size` bytes with a type byte and the two numbers after it set.
  method Begin(k: Kind, size: nat, n: nat, second: nat, width: nat) returns (w: Writer)
    requires size >= 5 + width
    ensures fresh(w) && fresh(w.bytes) && w.bytes.Length == size
    ensures w.bytes[..5 + width] == [TypeByte(k)] + LE(n, 4) + LE(second, width)
  {
    hide LE;
    w := new Writer(size);
    w.SetBytes(0, [TypeByte(k)]);
    w.SetUnsigned(1, n, 4);
    w.SetUnsigned(5, second, width);
  }

  // The eight encoders of the browser write the bytes of the Go side, of deltas too far out
  // those of the furthest one there is.

  method JsMoveAbs(n: nat, ts: nat, x: nat, y: nat, buttons: bv8) returns (w: Writer)
    requires InRange(MoveAbs(n, ts, x, y, buttons))
    ensures fresh(w) && fresh(w.bytes) && w.bytes[..] == Encode(MoveAbs(n, ts, x, y, buttons))
  {
    hide LE, OfBits;
    w := Begin(MoveAbsKind, 14, n, ts, 4);
    w.SetUnsigned(9, x, 2);
    w.SetUnsigned(11, y, 2);
    w.SetBytes(13, [OfBits(buttons)]);
  }

  method JsMoveRel(n: nat, ts: nat, dx: int, dy: int, buttons: bv8) returns (w: Writer)
    requires n < U32 && ts < U32
    ensures fresh(w) && fresh(w.bytes)
    ensures w.bytes[..] == Encode(MoveRel(n, ts, Clamped(dx, U16), Clamped(dy, U16), buttons))
  {
    hide LE, OfBits, ToUnsigned;
    w := Begin(MoveRelKind, 14, n, ts, 4);
    w.SetClamped(9, dx, U16, 2);
    w.SetClamped(11, dy, U16, 2);
    w.SetBytes(13, [OfBits(buttons)]);
  }

  method JsButton(n: nat, ts: nat, index: nat, down: bool, buttons: bv8) returns (w: Writer)
    requires InRange(Button(n, ts, index, down, buttons))
    ensures fresh(w) && fresh(w.bytes) && w.bytes[..] == Encode(Button(n, ts, index, down, buttons))
  {
    hide LE, OfBits;
    w := Begin(ButtonKind, 12, n, ts, 4);
    w.SetBytes(9, [index]);
    w.SetBytes(10, [BoolByte(down)]);
    w.SetBytes(11, [OfBits(buttons)]);
  }

  method JsWheel(n: nat, ts: nat, dx: int, dy: int) returns (w: Writer)
    requires n < U32 && ts < U32
    ensures fresh(w) && fresh(w.bytes)
    ensures w.bytes[..] == Encode(Wheel(n, ts, Clamped(dx, U32), Clamped(dy, U32)))
  {
    hide LE, ToUnsigned;
    w := Begin(WheelKind, 17, n, ts, 4);
    w.SetClamped(9, dx, U32, 4);
    w.SetClamped(13, dy, U32, 4);
  }

  method JsKey(n: nat, ts: nat, usage: nat, down: bool, state: Bitmap) returns (w: Writer)
    requires InRange(Key(n, ts, usage, down, state))
    ensures fresh(w) && fresh(w.bytes) && w.bytes[..] == Encode(Key(n, ts, usage, down, state))
  {
    hide LE, BitmapBytes;
    w := Begin(KeyKind, 44, n, ts, 4);
    w.SetUnsigned(9, usage, 2);
    w.SetBytes(11, [BoolByte(down)]);
    w.SetBytes(12, BitmapBytes(state));
  }

  method JsSync(n: nat, ts: nat, buttons: bv8, state: Bitmap) returns (w: Writer)
    requires InRange(Sync(n, ts, buttons, state))
    ensures fresh(w) && fresh(w.bytes) && w.bytes[..] == Encode(Sync(n, ts, buttons, state))
  {
    hide LE, OfBits, BitmapBytes;
    w := Begin(SyncKind, 42, n, ts, 4);
    w.SetBytes(9, [OfBits(buttons)]);
    w.SetBytes(10, BitmapBytes(state));
  }

  // A time of the browser: one of its numbers, or a whole number of any size.
  datatype Time = Number(x: real) | BigInt(n: int)

  // What goes out for it: a number rounded and not negative, and either cut to 64 bits.
  function MicrosOf(t: Time): (m: nat)
    ensures m < U64
  {
    match t
    case Number(x) => (if Round(x) < 0 then 0 else Round(x)) % U64
    case BigInt(n) => n % U64
  }

  // A whole number of microseconds goes out as it is.
  lemma WholeMicros(micros: nat)
    requires micros < U64
    ensures MicrosOf(Number(micros as real)) == micros == MicrosOf(BigInt(micros))
  {
  }

  // Any other number goes out as the nearest whole one, of two the higher, and none below zero.
  lemma MicrosAreNearest(x: real)
    requires x < 0x8000_0000_0000_0000 as real
    ensures if x < 0.0 then MicrosOf(Number(x)) == 0 else x - 0.5 < MicrosOf(Number(x)) as real <= x + 0.5
  {
    var w := Round(x);
    assert x - 0.5 < w as real <= x + 0.5;
    if x < 0.0 {
      assert w <= 0;
    } else {
      assert 0 <= w <= 0x8000_0000_0000_0000;
    }
  }

  method JsPing(n: nat, tsMicro: Time) returns (w: Writer)
    requires n < U32
    ensures fresh(w) && fresh(w.bytes) && w.bytes[..] == Encode(Ping(n, MicrosOf(tsMicro)))
  {
    hide LE;
    var micro: int;
    match tsMicro {
      case Number(x) =>
        micro := Round(x);
        if micro < 0 {
          micro := 0;
        }
      case BigInt(whole) => micro := whole;
    }
    w := Begin(PingKind, 13, n, micro % U64, 8);
  }

  method JsText(n: nat, text: seq<Unit>) returns (w: Writer)
    requires InRange(Text(n, Utf8(text)))
    ensures fresh(w) && fresh(w.bytes) && w.bytes[..] == Encode(Text(n, Utf8(text)))
  {
    hide LE, Utf8;
    var body := Utf8(text);
    w := Begin(TextKind, 9 + |body|, n, |body|, 4);
    w.SetBytes(9, body);
    assert w.bytes[..] == [TypeByte(TextKind)] + LE(n, 4) + LE(|body|, 4) + body;
    assert w.bytes[..] == [TypeByte(TextKind)] + (LE(n, 4) + LE(|body|, 4) + body);
  }

  // The distance between the numbers the browser has at this size: 53 significant bits.
  function Grain(u: nat): (g: nat)
    ensures g >= 1
  {
    if u < 0x20_0000_0000_0000 then 1 else 2 * Grain(u / 2)
  }

  // The nearest number the browser has, of two the one with the even last bit.
  function ToNumber(u: nat): nat {
    var g := Grain(u);
    var q, r := u / g, u % g;
    if 2 * r < g || (2 * r == g && q % 2 == 0) then q * g else (q + 1) * g
  }

  // A number is kept exactly if it has no bits below its grain; all below 2^53 have none.
  lemma KeptExactly(u: nat)
    ensures ToNumber(u) == u <==> u % Grain(u) == 0
  {
    hide Grain;
    var g := Grain(u);
    Divided(u, g);
    NextMultiple(u / g, g);
  }

  // The grain leaves 53 significant bits.
  lemma {:induction false} GrainExactly(u: nat)
    ensures Grain(u) == 1 || 0x10_0000_0000_0000 * Grain(u) <= u
    ensures u < 0x20_0000_0000_0000 * Grain(u)
  {
    if u >= 0x20_0000_0000_0000 {
      GrainExactly(u / 2);
    }
  }

  // What a number is read as is a whole number of grains, and none is nearer; of two it is the
  // one with the even last bit.
  lemma NumberIsNearest(u: nat) returns (grains: nat)
    ensures var n, g := ToNumber(u), Grain(u);
      && n == grains * g && 2 * (n - u) <= g && 2 * (u - n) <= g
      && (2 * (n - u) == g || 2 * (u - n) == g ==> grains % 2 == 0)
  {
    hide Grain;
    var g := Grain(u);
    Divided(u, g);
    NextMultiple(u / g, g);
    grains := if ToNumber(u) == u / g * g then u / g else u / g + 1;
  }

  lemma SmallAreKept(u: nat)
    requires u < 0x20_0000_0000_0000
    ensures ToNumber(u) == u
  {
    hide ToNumber;
    assert Grain(u) == 1 && u % 1 == 0;
    KeptExactly(u);
  }

  lemma Divided(u: nat, g: nat)
    requires g >= 1
    ensures u == u / g * g + u % g && u % g < g
  {
  }

  lemma NextMultiple(q: nat, g: nat)
    ensures (q + 1) * g == q * g + g
  {
  }

  // The browser's decoders read the whole packet, type byte included, at their own offsets;
  // they do not look at the type, and have no limit of their own on text.
  function JsDecode(k: Kind, bytes: seq<Byte>): Result {
    if |bytes| < 1 + PayloadSize(k) then Short
    else
      var n := Field(bytes, 1, 4);
      match k
      case MoveAbsKind =>
        Decoded(MoveAbs(n, Field(bytes, 5, 4), Field(bytes, 9, 2), Field(bytes, 11, 2), ToBits(bytes[13])))
      case MoveRelKind =>
        var dx, dy := ToSigned(Field(bytes, 9, 2), U16), ToSigned(Field(bytes, 11, 2), U16);
        Decoded(MoveRel(n, Field(bytes, 5, 4), dx, dy, ToBits(bytes[13])))
      case ButtonKind =>
        Decoded(Button(n, Field(bytes, 5, 4), bytes[9], bytes[10] != 0, ToBits(bytes[11])))
      case WheelKind =>
        Decoded(Wheel(n, Field(bytes, 5, 4), ToSigned(Field(bytes, 9, 4), U32), ToSigned(Field(bytes, 13, 4), U32)))
      case KeyKind =>
        Decoded(Key(n, Field(bytes, 5, 4), Field(bytes, 9, 2), bytes[11] != 0, BitmapOf(bytes[12..44])))
      case SyncKind =>
        Decoded(Sync(n, Field(bytes, 5, 4), ToBits(bytes[9]), BitmapOf(bytes[10..42])))
      case PingKind =>
        Decoded(Ping(n, ToNumber(Field(bytes, 5, 8))))
      case TextKind =>
        var len := Field(bytes, 5, 4);
        if len > |bytes| - 9 then Short else Decoded(Text(n, bytes[9..9 + len]))
  }

  lemma SliceOfTail(bytes: seq<Byte>, lo: nat, hi: nat)
    requires lo <= hi < |bytes|
    ensures bytes[1..][lo..hi] == bytes[lo + 1..hi + 1]
  {
  }

  // Both decoders read every packet alike, but for texts over the agent's limit, and exactly but
  // for pings whose time the browser has no number for.
  lemma DecodersAgree(k: Kind, bytes: seq<Byte>)
    requires bytes != [] && Decode(k, bytes[1..]) != TooLong
    ensures JsDecode(k, bytes) == Decode(k, bytes[1..]) <==>
      (k.PingKind? && |bytes| > PayloadSize(k) ==> Field(bytes, 5, 8) % Grain(Field(bytes, 5, 8)) == 0)
  {
    hide Field, ToSigned, ToBits, BitmapOf, ToNumber, Grain;
    var b := bytes[1..];
    if |b| >= PayloadSize(k) {
      FieldOfTail(bytes, 1, 1, 4);
      if k.PingKind? {
        FieldOfTail(bytes, 1, 5, 8);
        KeptExactly(Field(bytes, 5, 8));
      } else {
        FieldOfTail(bytes, 1, 5, 4);
      }
      match k
      case MoveAbsKind => FieldOfTail(bytes, 1, 9, 2); FieldOfTail(bytes, 1, 11, 2);
      case MoveRelKind => FieldOfTail(bytes, 1, 9, 2); FieldOfTail(bytes, 1, 11, 2);
      case WheelKind => FieldOfTail(bytes, 1, 9, 4); FieldOfTail(bytes, 1, 13, 4);
      case KeyKind =>
        FieldOfTail(bytes, 1, 9, 2);
        SliceOfTail(bytes, 11, 43);
      case SyncKind => SliceOfTail(bytes, 9, 41);
      case TextKind =>
        var n := Field(b, 4, 4);
        if 8 + n <= |b| {
          SliceOfTail(bytes, 8, 8 + n);
        }
      case ButtonKind =>
      case PingKind =>
    }
  }

  // ------------------------------------------------------------ the answer to a ping

  datatype Pong = Pong(seqNo: nat, clientMicros: nat, agentMicros: nat)

  const PONG: Byte := 0x87

  // Pings and their answers whose fields fit.
  predicate PongInRange(p: Pong) { p.seqNo < U32 && p.clientMicros < U64 && p.agentMicros < U64 }

  function PongBytes(p: Pong): seq<Byte> {
    [PONG] + (LE(p.seqNo, 4) + LE(p.clientMicros, 8) + LE(p.agentMicros, 8))
  }

  // The Go decoder of what follows the type byte.
  function ReadPong(b: seq<Byte>): Option<Pong> {
    if |b| < 20 then None else Some(Pong(Field(b, 0, 4), Field(b, 4, 8), Field(b, 12, 8)))
  }

  // The browser's decoder of the whole packet.
  function JsReadPong(bytes: seq<Byte>): Option<Pong> {
    if |bytes| < 21 || bytes[0] != PONG then None
    else Some(Pong(Field(bytes, 1, 4), ToNumber(Field(bytes, 5, 8)), ToNumber(Field(bytes, 13, 8))))
  }

  // Go reads back every answer it wrote; the browser reads its times as the numbers it has.
  lemma PongRoundTrip(p: Pong)
    requires PongInRange(p)
    ensures ReadPong(PongBytes(p)[1..]) == Some(p)
    ensures JsReadPong(PongBytes(p)) == Some(Pong(p.seqNo, ToNumber(p.clientMicros), ToNumber(p.agentMicros)))
  {
    hide LE, FromLE, Range, Field, ToNumber;
    Ranges();
    var Pong(n, c, a) := p;
    var b := LE(n, 4) + LE(c, 8) + LE(a, 8);
    assert PongBytes(p)[1..] == b;
    FieldAfter([], n, 4, LE(c, 8) + LE(a, 8));
    assert b == [] + LE(n, 4) + (LE(c, 8) + LE(a, 8));
    FieldAfter(LE(n, 4), c, 8, LE(a, 8));
    FieldAfter(LE(n, 4) + LE(c, 8), a, 8, []);
    assert b == LE(n, 4) + LE(c, 8) + LE(a, 8) + [];
    FieldOfTail(PongBytes(p), 1, 1, 4);
    FieldOfTail(PongBytes(p), 1, 5, 8);
    FieldOfTail(PongBytes(p), 1, 13, 8);
  }

  // So of pings sent with whole times the browser's decoder, too, reads those below 2^53.
  lemma SmallPingsAgree(n: nat, micros: nat)
    requires n < U32 && micros < 0x20_0000_0000_0000
    ensures var packet := Encode(Ping(n, MicrosOf(Number(micros as real))));
      JsDecode(PingKind, packet) == Decode(PingKind, packet[1..]) == Decoded(Ping(n, micros))
  {
    hide Field, ToNumber, Grain, Encode, Payload;
    WholeMicros(micros);
    var m := Ping(n, micros);
    RoundTrip(m);
    EncodeSplits(m);
    var packet := Encode(m);
    DecodersAgree(PingKind, packet);
    FieldOfTail(packet, 1, 5, 8);
    SmallAreKept(micros);
    KeptExactly(micros);
  }
}
