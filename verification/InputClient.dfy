/** The browser's end of the input channel: what it believes is held and what it sends.

    `Client` is the value; `InputController` is the object whose handlers update it and encode
    their packets. */
module InputClient {
  import opened Bytes
  import opened KeyBitmaps
  import opened Texts
  import Wire

  // `pending` is the newest pointer position not yet sent.
  datatype Position = Nowhere | At(x: nat, y: nat)

  datatype Client = Client(seqNo: nat, buttons: bv8, keys: Bitmap, pending: Position, sent: seq<Wire.Message>)

  // What the user or a timer does; `ts` is the clock of the packets. On a press with the pointer
  // not locked its position goes out first: where it is now, unless the picture has no size.
  datatype Event =
    | KeyDown(usage: nat, ts: nat)
    | KeyUp(usage: nat, ts: nat)
    | PointerDown(index: nat, locked: bool, now: Position, ts: nat)
    | PointerUp(index: nat, ts: nat)
    | PointerAt(x: nat, y: nat)
    | PointerMoved(dx: int, dy: int, ts: nat)
    | FlushPointer(ts: nat)
    | SyncState(ts: nat)
    | ReleaseAll(ts: nat)
    | Heartbeat(ts: nat)

  predicate Inside(p: Position) { p.At? ==> p.x < U16 && p.y < U16 }

  predicate Fits(e: Event) {
    match e
    case KeyDown(usage, ts) => 0 < usage < USAGES && ts < U32
    case KeyUp(usage, ts) => 0 < usage < USAGES && ts < U32
    case PointerDown(index, _, now, ts) => index < 5 && Inside(now) && ts < U32
    case PointerUp(index, ts) => index < 5 && ts < U32
    case PointerAt(x, y) => Inside(At(x, y))
    case PointerMoved(_, _, ts) => ts < U32
    case FlushPointer(ts) => ts < U32
    case SyncState(ts) => ts < U32
    case ReleaseAll(ts) => ts < U32
    case Heartbeat(ts) => ts < U32
  }

  function NextSeq(c: Client): nat { (c.seqNo + 1) % U32 }

  function Post(c: Client, m: Wire.Message): Client { c.(seqNo := NextSeq(c), sent := c.sent + [m]) }

  function Flushed(c: Client, ts: nat): Client {
    if c.pending.Nowhere? then c
    else Post(c, Wire.MoveAbs(NextSeq(c), ts, c.pending.x, c.pending.y, c.buttons)).(pending := Nowhere)
  }

  function Synced(c: Client, ts: nat): Client {
    Post(c, Wire.Sync(NextSeq(c), ts, c.buttons, c.keys))
  }

  function Typed(c: Client, usage: nat, down: bool, ts: nat): Client {
    var keys := WithKey(c.keys, usage, down);
    Post(c.(keys := keys), Wire.Key(NextSeq(c), ts, usage, down, keys))
  }

  function Clicked(c: Client, index: nat, down: bool, ts: nat): Client
    requires index < 5
  {
    var buttons := WithBit(c.buttons, index, down);
    Post(c.(buttons := buttons), Wire.Button(NextSeq(c), ts, index, down, buttons))
  }

  predicate Holds(c: Client) { c.keys != NoKeys() || c.buttons != 0 }

  function Happened(c: Client, e: Event): Client
    requires Fits(e)
  {
    match e
    case KeyDown(usage, ts) => Typed(c, usage, true, ts)
    case KeyUp(usage, ts) => Typed(c, usage, false, ts)
    case PointerDown(index, locked, now, ts) =>
      Clicked(if locked then c else Flushed(if now.At? then c.(pending := now) else c, ts), index, true, ts)
    case PointerUp(index, ts) => Clicked(c, index, false, ts)
    case PointerAt(x, y) => c.(pending := At(x, y))
    case PointerMoved(dx, dy, ts) =>
      if dx == 0 && dy == 0 then c
      else Post(c, Wire.MoveRel(NextSeq(c), ts, Wire.Clamped(dx, U16), Wire.Clamped(dy, U16), c.buttons))
    case FlushPointer(ts) => Flushed(c, ts)
    case SyncState(ts) => Synced(c, ts)
    case ReleaseAll(ts) => Synced(c.(keys := NoKeys(), buttons := 0), ts)
    case Heartbeat(ts) => if Holds(c) then Synced(c, ts) else c
  }

  predicate Valid(c: Client) {
    c.seqNo < U32 && Inside(c.pending) && forall m <- c.sent :: Wire.InRange(m)
  }

  lemma PostStaysValid(c: Client, m: Wire.Message)
    requires Valid(c) && Wire.InRange(m)
    ensures Valid(Post(c, m))
  {
    hide Wire.InRange;
  }

  lemma FlushStaysValid(c: Client, ts: nat)
    requires Valid(c) && ts < U32
    ensures Valid(Flushed(c, ts))
  {
    if c.pending.At? {
      PostStaysValid(c, Wire.MoveAbs(NextSeq(c), ts, c.pending.x, c.pending.y, c.buttons));
    }
  }

  lemma SyncStaysValid(c: Client, keys: Bitmap, buttons: bv8, ts: nat)
    requires Valid(c) && ts < U32
    ensures Valid(Synced(c.(keys := keys, buttons := buttons), ts))
  {
    HeldStaysValid(c, keys, buttons);
    var d := c.(keys := keys, buttons := buttons);
    PostStaysValid(d, Wire.Sync(NextSeq(d), ts, buttons, keys));
  }

  lemma KeyStaysValid(c: Client, usage: nat, down: bool, ts: nat)
    requires Valid(c) && usage < USAGES && ts < U32
    ensures Valid(Typed(c, usage, down, ts))
  {
    hide WithKey;
    var keys := WithKey(c.keys, usage, down);
    HeldStaysValid(c, keys, c.buttons);
    PostStaysValid(c.(keys := keys), Wire.Key(NextSeq(c), ts, usage, down, keys));
  }

  lemma MotionStaysValid(c: Client, dx: int, dy: int, ts: nat)
    requires Valid(c) && ts < U32
    ensures Valid(Happened(c, PointerMoved(dx, dy, ts)))
  {
    hide Valid;
    var x, y := Wire.Clamped(dx, U16), Wire.Clamped(dy, U16);
    PostStaysValid(c, Wire.MoveRel(NextSeq(c), ts, x, y, c.buttons));
  }

  lemma StaysValid(c: Client, e: Event)
    requires Valid(c) && Fits(e)
    ensures Valid(Happened(c, e))
  {
    hide Typed, Clicked, Flushed, Synced, Valid;
    match e
    case KeyDown(usage, ts) => KeyStaysValid(c, usage, true, ts);
    case KeyUp(usage, ts) => KeyStaysValid(c, usage, false, ts);
    case PointerDown(index, locked, now, ts) =>
      if now.At? {
        PendingStaysValid(c, now);
      }
      var moved := if now.At? then c.(pending := now) else c;
      FlushStaysValid(moved, ts);
      ClickStaysValid(if locked then c else Flushed(moved, ts), index, true, ts);
    case PointerUp(index, ts) => ClickStaysValid(c, index, false, ts);
    case PointerAt(x, y) => PendingStaysValid(c, At(x, y));
    case PointerMoved(dx, dy, ts) => MotionStaysValid(c, dx, dy, ts);
    case FlushPointer(ts) => FlushStaysValid(c, ts);
    case SyncState(ts) => SyncStaysValid(c, c.keys, c.buttons, ts);
    case ReleaseAll(ts) => SyncStaysValid(c, NoKeys(), 0, ts);
    case Heartbeat(ts) => SyncStaysValid(c, c.keys, c.buttons, ts);
  }

  lemma PendingStaysValid(c: Client, p: Position)
    requires Valid(c) && Inside(p)
    ensures Valid(c.(pending := p))
  {
  }

  lemma HeldStaysValid(c: Client, keys: Bitmap, buttons: bv8)
    requires Valid(c)
    ensures Valid(c.(keys := keys, buttons := buttons))
  {
  }

  lemma ClickStaysValid(c: Client, index: nat, down: bool, ts: nat)
    requires Valid(c) && index < 5 && ts < U32
    ensures Valid(Clicked(c, index, down, ts))
  {
    hide WithBit;
    var buttons := WithBit(c.buttons, index, down);
    PostStaysValid(c.(buttons := buttons), Wire.Button(NextSeq(c), ts, index, down, buttons));
  }

  function Encoded(ms: seq<Wire.Message>): seq<seq<Byte>>
    requires forall m <- ms :: Wire.InRange(m)
  {
    if ms == [] then []
    else
      assert ms[|ms| - 1] in ms && forall m <- ms[..|ms| - 1] :: m in ms;
      Encoded(ms[..|ms| - 1]) + [Wire.Encode(ms[|ms| - 1])]
  }

  lemma OneMoreEncoded(ms: seq<Wire.Message>, m: Wire.Message)
    requires (forall n <- ms :: Wire.InRange(n)) && Wire.InRange(m)
    ensures (forall n <- ms + [m] :: Wire.InRange(n)) && Encoded(ms + [m]) == Encoded(ms) + [Wire.Encode(m)]
  {
    assert (ms + [m])[..|ms|] == ms;
  }

  // ------------------------------------------------------------ the mutable object

  class InputController {
    const keys: KeyBitmap
    var seqNo: nat
    var buttons: bv8
    var pending: Position
    var sent: seq<seq<Byte>>
    ghost var messages: seq<Wire.Message>

    constructor ()
      ensures fresh(keys) && fresh(keys.bytes)
      ensures Consistent() && State() == Client(0, 0, NoKeys(), Nowhere, [])
    {
      keys := new KeyBitmap();
      seqNo, buttons, pending, sent, messages := 0, 0, Nowhere, [], [];
    }

    ghost function State(): Client
      requires keys.Valid()
      reads this, keys.bytes
    {
      Client(seqNo, buttons, keys.View(), pending, messages)
    }

    // What has gone out is the encoding of the messages.
    ghost predicate Consistent()
      reads this, keys.bytes
    {
      keys.Valid() && Valid(State()) && sent == Encoded(messages)
    }

    method TakeSeq() returns (n: nat)
      requires Consistent()
      modifies this`seqNo
      ensures n == NextSeq(old(State())) && State() == old(State()).(seqNo := n) && Consistent()
    {
      hide Wire.InRange, Encoded;
      seqNo := (seqNo + 1) % U32;
      n := seqNo;
    }

    method SendInput(w: Wire.Writer, ghost m: Wire.Message)
      requires Consistent()
      requires Wire.InRange(m) && w.bytes[..] == Wire.Encode(m)
      modifies this`sent, this`messages
      ensures Consistent() && State() == old(State()).(sent := old(messages) + [m])
    {
      OneMoreEncoded(messages, m);
      sent := sent + [w.bytes[..]];
      messages := messages + [m];
    }

    method OnKeyDown(usage: nat, ts: nat)
      requires Consistent() && Fits(KeyDown(usage, ts))
      modifies this, keys.bytes
      ensures Consistent() && State() == Happened(old(State()), KeyDown(usage, ts))
    {
      hide WithKey, Wire.Encode, Encoded;
      keys.Set(usage, true);
      var n := TakeSeq();
      var w := Wire.JsKey(n, ts, usage, true, keys.View());
      SendInput(w, Wire.Key(n, ts, usage, true, keys.View()));
    }

    method OnKeyUp(usage: nat, ts: nat)
      requires Consistent() && Fits(KeyUp(usage, ts))
      modifies this, keys.bytes
      ensures Consistent() && State() == Happened(old(State()), KeyUp(usage, ts))
    {
      hide WithKey, Wire.Encode, Encoded;
      keys.Set(usage, false);
      var n := TakeSeq();
      var w := Wire.JsKey(n, ts, usage, false, keys.View());
      SendInput(w, Wire.Key(n, ts, usage, false, keys.View()));
    }

    method SendPendingAbsolute(ts: nat)
      requires Consistent() && ts < U32
      modifies this
      ensures Consistent() && State() == Flushed(old(State()), ts)
    {
      hide Wire.Encode, Encoded;
      if pending.Nowhere? {
        return;
      }
      var n := TakeSeq();
      var w := Wire.JsMoveAbs(n, ts, pending.x, pending.y, buttons);
      SendInput(w, Wire.MoveAbs(n, ts, pending.x, pending.y, buttons));
      pending := Nowhere;
    }

    method SendButton(index: nat, down: bool, ts: nat)
      requires Consistent() && index < 5 && ts < U32
      modifies this
      ensures Consistent() && State() == Clicked(old(State()), index, down, ts)
    {
      hide WithBit, Wire.Encode, Encoded;
      buttons := BitSet(buttons, index, down);
      var n := TakeSeq();
      var w := Wire.JsButton(n, ts, index, down, buttons);
      SendInput(w, Wire.Button(n, ts, index, down, buttons));
    }

    method OnPointerDown(index: nat, locked: bool, now: Position, ts: nat)
      requires Consistent() && Fits(PointerDown(index, locked, now, ts))
      modifies this
      ensures Consistent() && State() == Happened(old(State()), PointerDown(index, locked, now, ts))
    {
      hide Clicked, Flushed, Encoded, Wire.InRange;
      if !locked {
        if now.At? {
          pending := now;
        }
        SendPendingAbsolute(ts);
      }
      SendButton(index, true, ts);
    }

    method OnPointerUp(index: nat, ts: nat)
      requires Consistent() && Fits(PointerUp(index, ts))
      modifies this
      ensures Consistent() && State() == Happened(old(State()), PointerUp(index, ts))
    {
      hide Clicked, Encoded, Wire.InRange;
      SendButton(index, false, ts);
    }

    method OnPointerMoveLocked(dx: int, dy: int, ts: nat)
      requires Consistent() && ts < U32
      modifies this
      ensures Consistent() && State() == Happened(old(State()), PointerMoved(dx, dy, ts))
    {
      hide Wire.Clamped, Wire.Encode, Encoded;
      if dx == 0 && dy == 0 {
        return;
      }
      var n := TakeSeq();
      var w := Wire.JsMoveRel(n, ts, dx, dy, buttons);
      SendInput(w, Wire.MoveRel(n, ts, Wire.Clamped(dx, U16), Wire.Clamped(dy, U16), buttons));
    }

    method DoSyncState(ts: nat)
      requires Consistent() && ts < U32
      modifies this
      ensures Consistent() && State() == Happened(old(State()), SyncState(ts))
    {
      hide Wire.Encode, Encoded;
      var n := TakeSeq();
      var w := Wire.JsSync(n, ts, buttons, keys.View());
      SendInput(w, Wire.Sync(n, ts, buttons, keys.View()));
    }

    method DoReleaseAll(ts: nat)
      requires Consistent() && ts < U32
      modifies this, keys.bytes
      ensures Consistent() && State() == Happened(old(State()), ReleaseAll(ts))
    {
      hide Wire.InRange, Encoded;
      forall i | 0 <= i < 32 {
        keys.bytes[i] := 0;
      }
      assert keys.bytes[..] == NoKeys();
      buttons := 0;
      DoSyncState(ts);
    }

    method DoHeartbeat(ts: nat)
      requires Consistent() && ts < U32
      modifies this
      ensures Consistent() && State() == Happened(old(State()), Heartbeat(ts))
    {
      hide Wire.InRange, Encoded;
      var any := keys.Any();
      if any || buttons != 0 {
        DoSyncState(ts);
      }
    }
  }

  // ------------------------------------------------------------------- typed text

  const MAX_UNITS: nat := 8192

  // What is sent of a text: no more than its first 8192 units.
  function Trimmed(text: seq<Unit>): seq<Unit> { if |text| > MAX_UNITS then text[..MAX_UNITS] else text }

  function TextMessage(c: Client, text: seq<Unit>): Wire.Message { Wire.Text(NextSeq(c), Utf8(Trimmed(text))) }

  lemma TrimmedFits(text: seq<Unit>)
    ensures |Utf8(Trimmed(text))| <= 3 * MAX_UNITS
  {
    Utf8Size(Trimmed(text));
  }

  // What the client cuts to 8192 units the agent takes exactly if it is at most 8192 bytes: a
  // text in plain ASCII always, and of a longer one exactly a part that is plain ASCII.
  lemma TextTakenExactly(c: Client, text: seq<Unit>)
    ensures var m := TextMessage(c, text);
      && Wire.InRange(m)
      && (Wire.Decode(Wire.TextKind, Wire.Payload(m)) == Wire.Decoded(m) <==> |Utf8(Trimmed(text))| <= Wire.MAX_TEXT)
      && (Ascii(text) ==> |Utf8(Trimmed(text))| <= Wire.MAX_TEXT)
      && (|text| >= MAX_UNITS ==> (|Utf8(Trimmed(text))| <= Wire.MAX_TEXT <==> Ascii(Trimmed(text))))
  {
    TrimmedSize(text);
    Utf8Size(Trimmed(text));
    hide Utf8, Trimmed, Ascii, Wire.Decode, Wire.Payload;
    TrimmedFits(text);
    Wire.RoundTrip(TextMessage(c, text));
    if Ascii(text) {
      AsciiFits(text);
    }
  }

  lemma TrimmedSize(text: seq<Unit>)
    ensures |Trimmed(text)| == if |text| >= MAX_UNITS then MAX_UNITS else |text|
  {
  }

  lemma AsciiFits(text: seq<Unit>)
    requires Ascii(text)
    ensures |Utf8(Trimmed(text))| <= Wire.MAX_TEXT
  {
    assert forall u <- Trimmed(text) :: u in text;
    Utf8Size(Trimmed(text));
  }

  // 2731 euro signs, a third of what the client lets through, are refused as a whole.
  lemma LongTextRefused(c: Client)
    ensures var m := TextMessage(c, Euros(2731));
      Wire.InRange(m) && Wire.Decode(Wire.TextKind, Wire.Payload(m)) == Wire.TooLong
  {
    hide Utf8, Wire.Decode, Wire.Payload;
    EurosSize(2731);
    Wire.RoundTrip(TextMessage(c, Euros(2731)));
  }
}
