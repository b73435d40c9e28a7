/** The agent's end of the input channel: from the bytes of a packet to the injector.

    `Session` holds what one session keeps about input, together with its injector and the
    list of key calls it has made. `AgentSession` is the object whose handlers update it. */
module InputSession {
  import opened Basics
  import opened Bytes
  import opened Injectors
  import opened KeyBitmaps
  import opened Texts
  import Wire

  datatype Session = Session(
    keys: Bitmap,
    buttons: bv8,
    lastSeq: nat,
    lastAt: nat,
    injector: Injector,
    keyCalls: seq<Transition>)

  const OPENED := Session(NoKeys(), 0, 0, 0, UNTOUCHED, [])

  const HALF: nat := 0x8000_0000

  // --------------------------------------------------------------- the helpers

  function Noted(s: Session, seqNo: nat, ts: nat): Session {
    if seqNo > s.lastSeq || s.lastSeq - seqNo > HALF then s.(lastSeq := seqNo, lastAt := ts) else s
  }

  function KeyCalls(j: Injector, table: ScanTable, ts: seq<Transition>): Injector {
    if ts == [] then j
    else KeyCall(KeyCalls(j, table, ts[..|ts| - 1]), table, ts[|ts| - 1].usage, ts[|ts| - 1].down)
  }

  // Diff against the packet's state, every difference injected, then the state taken over.
  function KeysApplied(s: Session, table: ScanTable, next: Bitmap): Session {
    var diff := Differences(s.keys, next, USAGES);
    s.(injector := KeyCalls(s.injector, table, diff), keyCalls := s.keyCalls + diff, keys := next)
  }

  function ButtonCalls(j: Injector, was: bv8, mask: bv8, n: nat): Injector
    requires n <= 5
  {
    if n == 0 then j
    else
      var before := ButtonCalls(j, was, mask, n - 1);
      if Bit(was, n - 1) != Bit(mask, n - 1) then ButtonCall(before, n - 1, Bit(mask, n - 1)) else before
  }

  function ButtonsApplied(s: Session, mask: bv8): Session {
    if mask == s.buttons then s
    else s.(injector := ButtonCalls(s.injector, s.buttons, mask, 5), buttons := mask)
  }

  function Moved(j: Injector, dx: int, dy: int): Injector {
    if dx == 0 && dy == 0 then j else Sent(j, Motion(dx, dy))
  }

  function Scrolled(j: Injector, dx: int, dy: int): Injector {
    var vertical := if dy != 0 then Sent(j, Scroll(0, dy)) else j;
    if dx != 0 then Sent(vertical, Scroll(dx, 0)) else vertical
  }

  // ------------------------------------------------------------------ one packet

  function Handled(s: Session, table: ScanTable, m: Wire.Message): Session {
    match m
    case MoveAbs(n, ts, x, y, buttons) =>
      var after := ButtonsApplied(Noted(s, n, ts), buttons);
      after.(injector := Sent(after.injector, Pointer(x, y)))
    case MoveRel(n, ts, dx, dy, buttons) =>
      var after := ButtonsApplied(Noted(s, n, ts), buttons);
      after.(injector := Moved(after.injector, dx, dy))
    case Button(n, ts, index, down, buttons) =>
      var noted := Noted(s, n, ts);
      noted.(injector := ButtonCall(noted.injector, index, down), buttons := buttons)
    case Wheel(n, ts, dx, dy) =>
      var noted := Noted(s, n, ts);
      noted.(injector := Scrolled(noted.injector, dx, dy))
    case Key(n, ts, _, _, state) => KeysApplied(Noted(s, n, ts), table, state)
    case Sync(n, ts, buttons, state) => ButtonsApplied(KeysApplied(Noted(s, n, ts), table, state), buttons)
    case Text(_, text) => s.(injector := TextCall(s.injector, text))
    case Ping(_, _) => s
  }

  // What a packet says, if it says anything to this session: nothing is read from one that
  // is empty, of a type not known, too short or too long.
  function Reading(packet: seq<Byte>): Wire.Result {
    if packet == [] then Wire.Short
    else
      var body := packet[1..];
      match packet[0]
      case 0x01 => Wire.Decode(Wire.MoveAbsKind, body)
      case 0x02 => Wire.Decode(Wire.MoveRelKind, body)
      case 0x03 => Wire.Decode(Wire.ButtonKind, body)
      case 0x04 => Wire.Decode(Wire.WheelKind, body)
      case 0x05 => Wire.Decode(Wire.KeyKind, body)
      case 0x06 => Wire.Decode(Wire.SyncKind, body)
      case 0x07 => Wire.Decode(Wire.PingKind, body)
      case 0x08 => Wire.Decode(Wire.TextKind, body)
      case _ => Wire.Short
  }

  // A session without control handles nothing.
  function Received(s: Session, table: ScanTable, control: bool, packet: seq<Byte>): Session {
    if control && Reading(packet).Decoded? then Handled(s, table, Reading(packet).message) else s
  }

  // What the Go or the browser encoder wrote is what is read.
  lemma ReadsWhatWasWritten(m: Wire.Message)
    requires Wire.InRange(m) && (m.Text? ==> |m.text| <= Wire.MAX_TEXT)
    ensures Reading(Wire.Encode(m)) == Wire.Decoded(m)
  {
    Wire.RoundTrip(m);
    Wire.EncodeSplits(m);
    ReadsItsKind(Wire.KindOf(m), Wire.Encode(m));
  }

  // What is sent back: an open channel gets the answer to a ping, with the agent's own time.
  function Answer(control: bool, packet: seq<Byte>, now: nat, open: bool): Option<seq<Byte>> {
    if control && open && Reading(packet).Decoded? && Reading(packet).message.Ping? then
      Some(Wire.PongBytes(Wire.Pong(Reading(packet).message.seqNo, Reading(packet).message.micros, now)))
    else None
  }

  // Exactly a ping is answered, if the session has control and the channel is open.
  lemma AnsweredExactly(control: bool, m: Wire.Message, now: nat, open: bool)
    requires Wire.InRange(m) && (m.Text? ==> |m.text| <= Wire.MAX_TEXT)
    ensures Answer(control, Wire.Encode(m), now, open).Some? <==> control && open && m.Ping?
  {
    hide Reading, Wire.Encode, Wire.PongBytes;
    ReadsWhatWasWritten(m);
  }

  // A ping sent with a whole time comes back to the browser with its number and the agent's time,
  // and with its own time exactly if the browser has a number for it; below 2^53 it has.
  lemma PingComesBack(n: nat, micros: nat, now: nat)
    requires n < U32 && micros < U64 && now < U64
    ensures var packet := Wire.Encode(Wire.Ping(n, Wire.MicrosOf(Wire.Number(micros as real))));
      var pong := Answer(true, packet, now, true);
      && pong.Some? && Wire.JsReadPong(pong.value).Some?
      && var read := Wire.JsReadPong(pong.value).value;
         && read.seqNo == n && read.agentMicros == Wire.ToNumber(now)
         && (read.clientMicros == micros <==> micros % Wire.Grain(micros) == 0)
         && (micros < 0x20_0000_0000_0000 ==> read.clientMicros == micros)
  {
    hide Reading, Wire.Grain, Wire.ToNumber, Wire.PongBytes, Wire.JsReadPong, Wire.Encode;
    Wire.WholeMicros(micros);
    ReadsWhatWasWritten(Wire.Ping(n, micros));
    Wire.PongRoundTrip(Wire.Pong(n, micros, now));
    Wire.KeptExactly(micros);
    if micros < 0x20_0000_0000_0000 {
      Wire.SmallAreKept(micros);
    }
  }

  // A text the browser sent is typed unit by unit, with a replacement for every half of a pair
  // that stood alone: as it was meant exactly if none did and there is no zero in it.
  lemma TypedAsMeant(s: Session, table: ScanTable, n: nat, text: seq<Unit>)
    requires n < U32 && |Utf8(text)| <= Wire.MAX_TEXT
    ensures var typed := if 0 in text then [] else Keystrokes(Mended(text));
      && Received(s, table, true, Wire.Encode(Wire.Text(n, Utf8(text))))
        == s.(injector := s.injector.(events := s.injector.events + typed))
      && (typed == Keystrokes(text) <==> 0 !in text && WellFormed(text))
      && |typed| == (if 0 in text then 0 else 2 * |text|) && |Mended(text)| == |text|
      && (forall k | 0 <= k < |typed| / 2 ::
            typed[2 * k] == Unicode(Mended(text)[k], false) && typed[2 * k + 1] == Unicode(Mended(text)[k], true))
  {
    hide Reading, Utf8, Units, Mended, WellFormed, Keystrokes, Wire.Encode;
    ReadsWhatWasWritten(Wire.Text(n, Utf8(text)));
    ZeroByte(text);
    ReadBack(text);
    MendedExactly(text);
    KeystrokesDiffer(text, Mended(text));
    KeystrokesDiffer(text, []);
    KeystrokesAt(Mended(text));
  }

  lemma ReadsItsKind(k: Wire.Kind, packet: seq<Byte>)
    requires packet != [] && packet[0] == Wire.TypeByte(k)
    ensures Reading(packet) == Wire.Decode(k, packet[1..])
  {
    hide Wire.Decode;
  }

  // ------------------------------------------------------------ the mutable object

  class AgentSession {
    const injector: WindowsInjector
    const keyState: KeyBitmap
    const control: bool
    var buttonState: bv8
    var lastInputSeq: nat
    var lastInputAt: nat
    ghost var keyCalls: seq<Transition>

    constructor (injector: WindowsInjector, control: bool)
      ensures fresh(keyState) && fresh(keyState.bytes) && Valid()
      ensures this.injector == injector && this.control == control
      ensures State() == OPENED.(injector := injector.State())
    {
      this.injector, this.control := injector, control;
      keyState := new KeyBitmap();
      buttonState, lastInputSeq, lastInputAt, keyCalls := 0, 0, 0, [];
    }

    predicate Valid() { keyState.Valid() }

    ghost function State(): Session
      requires Valid()
      reads this, injector, keyState.bytes
    {
      Session(keyState.View(), buttonState, lastInputSeq, lastInputAt, injector.State(), keyCalls)
    }

    method NoteInput(seqNo: nat, ts: nat)
      requires Valid()
      modifies this
      ensures State() == Noted(old(State()), seqNo, ts)
    {
      var previous := lastInputSeq;
      if seqNo > previous || previous - seqNo > HALF {
        lastInputSeq := seqNo;
        lastInputAt := ts;
      }
    }

    method ApplyKeyState(next: KeyBitmap)
      requires Valid() && next.Valid() && next.bytes != keyState.bytes
      modifies this, injector, keyState.bytes
      ensures State() == KeysApplied(old(State()), injector.table, next.View())
    {
      hide KeyCall, Differences;
      var diff := keyState.Diff(next);
      ghost var was := injector.State();
      for i := 0 to |diff|
        modifies injector
        invariant injector.State() == KeyCalls(was, injector.table, diff[..i])
      {
        assert diff[..i + 1][..i] == diff[..i];
        injector.Key(diff[i].usage, diff[i].down);
      }
      assert diff[..|diff|] == diff;
      keyCalls := keyCalls + diff;
      forall i | 0 <= i < 32 {
        keyState.bytes[i] := next.bytes[i];
      }
      assert keyState.bytes[..] == next.bytes[..];
    }

    method ApplyButtons(mask: bv8)
      requires Valid()
      modifies this, injector
      ensures State() == ButtonsApplied(old(State()), mask)
    {
      hide Mask, ButtonCall;
      if mask == buttonState {
        return;
      }
      ghost var j := injector.State();
      for index := 0 to 5
        modifies injector
        invariant injector.State() == ButtonCalls(j, buttonState, mask, index)
      {
        var bit := Mask(index);
        var was := buttonState & bit != 0;
        var now := mask & bit != 0;
        assert was == Bit(buttonState, index) && now == Bit(mask, index);
        if was != now {
          injector.MouseButton(index, now);
        }
      }
      buttonState := mask;
    }

    method Handle(m: Wire.Message)
      requires Valid()
      modifies this, injector, keyState.bytes
      ensures State() == Handled(old(State()), injector.table, m)
    {
      hide Noted, ButtonsApplied, KeysApplied, ButtonCall;
      match m {
        case MoveAbs(n, ts, x, y, buttons) =>
          NoteInput(n, ts);
          ApplyButtons(buttons);
          injector.Send(Pointer(x, y));
        case MoveRel(n, ts, dx, dy, buttons) =>
          NoteInput(n, ts);
          ApplyButtons(buttons);
          if dx != 0 || dy != 0 {
            injector.Send(Motion(dx, dy));
          }
        case Button(n, ts, index, down, buttons) =>
          NoteInput(n, ts);
          injector.MouseButton(index, down);
          buttonState := buttons;
        case Wheel(n, ts, dx, dy) =>
          NoteInput(n, ts);
          if dy != 0 {
            injector.Send(Scroll(0, dy));
          }
          if dx != 0 {
            injector.Send(Scroll(dx, 0));
          }
        case Key(n, ts, _, _, state) =>
          NoteInput(n, ts);
          var next := Unpacked(state);
          ApplyKeyState(next);
        case Sync(n, ts, buttons, state) =>
          NoteInput(n, ts);
          var next := Unpacked(state);
          ApplyKeyState(next);
          ApplyButtons(buttons);
        case Text(_, text) =>
          injector.TypeText(text);
        case Ping(_, _) =>
      }
    }

    // `now` is the agent's clock and `open` the state of the channel answers go out on.
    method OnInputMessage(packet: seq<Byte>, now: nat, open: bool) returns (pong: Option<seq<Byte>>)
      requires Valid()
      modifies this, injector, keyState.bytes
      ensures State() == Received(old(State()), injector.table, control, packet)
      ensures pong == Answer(control, packet, now, open)
    {
      hide Handled, Reading;
      if !control {
        return None;
      }
      var reading := Reading(packet);
      if !reading.Decoded? {
        return None;
      }
      Handle(reading.message);
      if reading.message.Ping? && open {
        return Some(Wire.PongBytes(Wire.Pong(reading.message.seqNo, reading.message.micros, now)));
      }
      return None;
    }
  }

  // The bitmap a decoded packet carries, as an object of its own.
  method Unpacked(state: Bitmap) returns (b: KeyBitmap)
    ensures fresh(b) && fresh(b.bytes) && b.Valid() && b.View() == state
  {
    b := new KeyBitmap();
    for i := 0 to 32
      invariant forall j | 0 <= j < i :: b.bytes[j] == state[j]
    {
      b.bytes[i] := state[i];
    }
    assert b.bytes[..] == state;
  }
}
