/** What the browser sends for what the user does: which messages, in which order, and what they
    say. */
module ClientSends {
  import opened Bytes
  import opened ChannelRuns
  import opened InputClient
  import opened InputRuns
  import opened KeyBitmaps
  import Wire

  // What an event adds to what was sent.
  function Said(c: Client, e: Event): seq<Wire.Message>
    requires Fits(e)
  {
    var sent := Happened(c, e).sent;
    if |sent| < |c.sent| then [] else sent[|c.sent|..]
  }

  lemma OneSaid(c: Client, r: Client, m: Wire.Message)
    requires r.sent == c.sent + [m]
    ensures r.sent[..|c.sent|] == c.sent && r.sent[|c.sent|..] == [m]
  {
  }

  lemma TwoSaid(c: Client, r: Client, m: Wire.Message, n: Wire.Message)
    requires r.sent == c.sent + [m] + [n]
    ensures r.sent[..|c.sent|] == c.sent && r.sent[|c.sent|..] == [m, n]
  {
  }

  // A key goes down or comes up in one message that says which, when, and what is held by then:
  // that key or not, and all others as before.
  lemma KeysAreSaid(c: Client, e: Event)
    requires Fits(e) && (e.KeyDown? || e.KeyUp?)
    ensures var r := Happened(c, e);
      && Said(c, e) == [Wire.Key(NextSeq(c), e.ts, e.usage, e.KeyDown?, r.keys)]
      && (forall u: nat :: Held(r.keys, u) <==> if u == e.usage then e.KeyDown? else Held(c.keys, u))
      && r.buttons == c.buttons && r.pending == c.pending
  {
    hide WithKey, Held;
    var r := Happened(c, e);
    OneSaid(c, r, Wire.Key(NextSeq(c), e.ts, e.usage, e.KeyDown?, r.keys));
    forall u: nat ensures Held(r.keys, u) <==> if u == e.usage then e.KeyDown? else Held(c.keys, u) {
      WithKeySetsOne(c.keys, e.usage, e.KeyDown?, u);
    }
  }

  // Where a press finds the pointer, if its position is to be sent first.
  function FirstSent(c: Client, e: Event): Position
    requires e.PointerDown?
  {
    if e.locked then Nowhere else if e.now.At? then e.now else c.pending
  }

  // The messages of a press or a release.
  function ButtonMessages(c: Client, e: Event, first: Position, buttons: bv8): seq<Wire.Message>
    requires e.PointerDown? || e.PointerUp?
  {
    match first
    case Nowhere => [Wire.Button(NextSeq(c), e.ts, e.index, e.PointerDown?, buttons)]
    case At(x, y) =>
      [Wire.MoveAbs(NextSeq(c), e.ts, x, y, c.buttons),
       Wire.Button((NextSeq(c) + 1) % U32, e.ts, e.index, e.PointerDown?, buttons)]
  }

  // The client when it comes to the button itself.
  function AtButton(c: Client, e: Event): Client
    requires e.PointerDown?
  {
    match FirstSent(c, e)
    case Nowhere => c
    case At(x, y) => Post(c, Wire.MoveAbs(NextSeq(c), e.ts, x, y, c.buttons)).(pending := Nowhere)
  }

  lemma PressHasTwoParts(c: Client, e: Event)
    requires Fits(e) && e.PointerDown?
    ensures Happened(c, e) == Clicked(AtButton(c, e), e.index, true, e.ts)
  {
    hide Clicked;
  }

  lemma AtButtonSent(c: Client, e: Event)
    requires e.PointerDown?
    ensures var p := AtButton(c, e);
      && p.buttons == c.buttons && p.keys == c.keys && (FirstSent(c, e).At? ==> p.pending == Nowhere)
      && (match FirstSent(c, e)
          case Nowhere => p.sent == c.sent && p.seqNo == c.seqNo
          case At(x, y) =>
            p.sent == c.sent + [Wire.MoveAbs(NextSeq(c), e.ts, x, y, c.buttons)] && p.seqNo == NextSeq(c))
  {
    hide FirstSent;
  }

  lemma ClickedSent(p: Client, index: nat, down: bool, ts: nat)
    requires index < 5
    ensures var r := Clicked(p, index, down, ts);
      && r.sent == p.sent + [Wire.Button((p.seqNo + 1) % U32, ts, index, down, r.buttons)]
      && r.buttons == WithBit(p.buttons, index, down) && r.keys == p.keys && r.pending == p.pending
  {
    hide WithBit;
  }

  lemma PressIsSaid(c: Client, e: Event)
    requires Fits(e) && e.PointerDown?
    ensures var r := Happened(c, e); var first := FirstSent(c, e);
      && Said(c, e) == ButtonMessages(c, e, first, r.buttons) && r.buttons == WithBit(c.buttons, e.index, true)
      && r.keys == c.keys && (first.At? ==> r.pending == Nowhere)
  {
    hide WithBit, Happened, Clicked, AtButton, FirstSent;
    PressHasTwoParts(c, e);
    AtButtonSent(c, e);
    ClickedSent(AtButton(c, e), e.index, true, e.ts);
    var r, p := Happened(c, e), FirstSent(c, e);
    if p.At? {
      TwoSaid(c, r, Wire.MoveAbs(NextSeq(c), e.ts, p.x, p.y, c.buttons),
              Wire.Button((NextSeq(c) + 1) % U32, e.ts, e.index, true, r.buttons));
    } else {
      OneSaid(c, r, Wire.Button(NextSeq(c), e.ts, e.index, true, r.buttons));
    }
  }

  lemma ReleaseIsSaid(c: Client, e: Event)
    requires Fits(e) && e.PointerUp?
    ensures var r := Happened(c, e);
      && Said(c, e) == ButtonMessages(c, e, Nowhere, r.buttons) && r.buttons == WithBit(c.buttons, e.index, false)
      && r.keys == c.keys
  {
    hide WithBit;
    var r := Happened(c, e);
    OneSaid(c, r, Wire.Button(NextSeq(c), e.ts, e.index, false, r.buttons));
  }

  // A button goes down or comes up in one message that says which, when, and what is held by then;
  // a press that is not locked says before it where the pointer is, if that was not said yet.
  lemma ButtonsAreSaid(c: Client, e: Event)
    requires Fits(e) && (e.PointerDown? || e.PointerUp?)
    ensures var r := Happened(c, e); var first := if e.PointerDown? then FirstSent(c, e) else Nowhere;
      && Said(c, e) == ButtonMessages(c, e, first, r.buttons)
      && (forall i: nat | i < 8 :: Bit(r.buttons, i) <==> if i == e.index then e.PointerDown? else Bit(c.buttons, i))
      && r.keys == c.keys && (first.At? ==> r.pending == Nowhere)
  {
    hide WithBit, Bit, Said, Happened, FirstSent, ButtonMessages;
    forall i: nat | i < 8
      ensures Bit(WithBit(c.buttons, e.index, e.PointerDown?), i) <==>
        if i == e.index then e.PointerDown? else Bit(c.buttons, i)
    {
      WithBitSetsOne(c.buttons, e.index, e.PointerDown?, i);
    }
    if e.PointerDown? {
      PressIsSaid(c, e);
    } else {
      ReleaseIsSaid(c, e);
    }
  }

  // Anything at all is held.
  predicate HoldsSome(c: Client) {
    (exists u: nat | u < USAGES :: Held(c.keys, u)) || (exists i: nat | i < 8 :: Bit(c.buttons, i))
  }

  lemma HoldsExactly(c: Client)
    ensures Holds(c) <==> HoldsSome(c)
  {
    hide Held, Bit;
    if !HoldsSome(c) {
      forall u: nat | u < USAGES ensures Held(c.keys, u) == Held(NoKeys(), u) {
        HeldInNone(u);
      }
      SameKeysSameBitmap(c.keys, NoKeys());
      NoBitsNothing(c.buttons);
    } else if c.keys == NoKeys() && c.buttons == 0 {
      forall u: nat ensures !Held(NoKeys(), u) {
        HeldInNone(u);
      }
      forall i: nat | i < 8 ensures !Bit(0, i) {
        NothingSet(i);
      }
    }
  }

  lemma NoBitsNothing(b: bv8)
    requires forall i: nat | i < 8 :: !Bit(b, i)
    ensures b == 0
  {
    assert !Bit(b, 0) && !Bit(b, 1) && !Bit(b, 2) && !Bit(b, 3);
    assert !Bit(b, 4) && !Bit(b, 5) && !Bit(b, 6) && !Bit(b, 7);
  }

  // A snapshot says what is held. Letting go sends one in any case, with nothing held; a heartbeat
  // sends one exactly while anything is held.
  lemma SnapshotsAreSaid(c: Client, e: Event)
    requires Fits(e) && (e.SyncState? || e.ReleaseAll? || e.Heartbeat?)
    ensures var r := Happened(c, e);
      && Said(c, e) == (if e.Heartbeat? && !HoldsSome(c) then []
                        else [Wire.Sync(NextSeq(c), e.ts, r.buttons, r.keys)])
      && (if e.ReleaseAll? then !HoldsSome(r) else r.keys == c.keys && r.buttons == c.buttons)
      && r.pending == c.pending
  {
    HoldsExactly(c);
    var r := Happened(c, e);
    HoldsExactly(r);
    hide HoldsSome;
    if r.sent != c.sent {
      OneSaid(c, r, Wire.Sync(NextSeq(c), e.ts, r.buttons, r.keys));
    }
  }

  // A move of the locked pointer is said at once, unless it is none; one of the free pointer only
  // when it is flushed, and then once, however many came before.
  lemma MovesAreSaid(c: Client, e: Event)
    requires Fits(e) && (e.PointerMoved? || e.PointerAt? || e.FlushPointer?)
    ensures var r := Happened(c, e);
      && Said(c, e) == (
           if e.PointerMoved? && (e.dx != 0 || e.dy != 0) then
             [Wire.MoveRel(NextSeq(c), e.ts, Wire.Clamped(e.dx, U16), Wire.Clamped(e.dy, U16), c.buttons)]
           else if e.FlushPointer? && c.pending.At? then
             [Wire.MoveAbs(NextSeq(c), e.ts, c.pending.x, c.pending.y, c.buttons)]
           else [])
      && r.pending == (if e.PointerAt? then At(e.x, e.y) else if e.FlushPointer? then Nowhere else c.pending)
      && r.keys == c.keys && r.buttons == c.buttons
  {
    hide Wire.Clamped;
    var r := Happened(c, e);
    if r.sent != c.sent {
      OneSaid(c, r, r.sent[|c.sent|]);
    }
  }

  // The messages are numbered one after the other.
  ghost predicate Numbered(c: Client) {
    c.seqNo == |c.sent| % U32 && forall k | 0 <= k < |c.sent| :: c.sent[k].seqNo == (k + 1) % U32
  }

  lemma PostNumbers(c: Client, m: Wire.Message)
    requires Numbered(c) && m.seqNo == NextSeq(c)
    ensures Numbered(Post(c, m))
  {
    assert (|c.sent| % U32 + 1) % U32 == (|c.sent| + 1) % U32;
  }

  lemma EventNumbers(c: Client, e: Event)
    requires Fits(e) && Numbered(c)
    ensures Numbered(Happened(c, e))
  {
    hide WithKey, WithBit, Wire.Clamped, Numbered;
    var r := Happened(c, e);
    if e.PointerDown? && FirstSent(c, e).At? {
      var p := FirstSent(c, e);
      var m := Wire.MoveAbs(NextSeq(c), e.ts, p.x, p.y, c.buttons);
      PostNumbers(c, m);
      MovedNumbers(c, Post(c, m), e);
    } else if r.sent != c.sent {
      PostNumbers(c, r.sent[|c.sent|]);
      SameNumbers(Post(c, r.sent[|c.sent|]), r);
    } else {
      SameNumbers(c, r);
    }
  }

  lemma SameNumbers(c: Client, r: Client)
    requires Numbered(c) && r.seqNo == c.seqNo && r.sent == c.sent
    ensures Numbered(r)
  {
  }

  lemma MovedNumbers(c: Client, p: Client, e: Event)
    requires e.PointerDown? && Fits(e) && FirstSent(c, e).At? && Numbered(p)
    requires var at := FirstSent(c, e); p == Post(c, Wire.MoveAbs(NextSeq(c), e.ts, at.x, at.y, c.buttons))
    ensures Numbered(Happened(c, e))
  {
    hide WithBit, Numbered;
    var r := Happened(c, e);
    var m := Wire.Button(NextSeq(p), e.ts, e.index, true, r.buttons);
    PostNumbers(p, m);
    SameNumbers(Post(p, m), r);
  }

  // So the numbers of a session say which message is which, up to 2^32 of them.
  lemma {:induction false} NumbersAreConsecutive(events: seq<Event>)
    requires forall e <- events :: Fits(e)
    ensures forall k | 0 <= k < |AfterEvents(events).sent| :: AfterEvents(events).sent[k].seqNo == (k + 1) % U32
    ensures AfterEvents(events).seqNo == |AfterEvents(events).sent| % U32
  {
    hide Happened;
    if events != [] {
      var n := |events| - 1;
      assert events[n] in events && forall e <- events[..n] :: e in events;
      NumbersAreConsecutive(events[..n]);
      EventNumbers(AfterEvents(events[..n]), events[n]);
    }
  }
}
