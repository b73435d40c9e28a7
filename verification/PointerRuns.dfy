/** Where the pointer is put, how far it is moved and how far things are scrolled: by any packets,
    and by a client over a channel that loses nothing. */
module PointerRuns {
  import opened Basics
  import opened Bytes
  import opened ButtonRuns
  import opened ChannelRuns
  import opened InputClient
  import opened InputSession
  import opened Injectors
  import opened KeyBitmaps
  import opened Texts
  import Wire

  // ------------------------------------------------------------------ what the system saw

  // Where the pointer was put last, if it ever was.
  function PutAt(events: seq<OsEvent>): Option<(int, int)> {
    if events == [] then None
    else
      var e := events[|events| - 1];
      if e.Pointer? then Some((e.x, e.y)) else PutAt(events[..|events| - 1])
  }

  function Plus(a: (int, int), b: (int, int)): (int, int) { (a.0 + b.0, a.1 + b.1) }

  lemma PlusNothing(a: (int, int))
    ensures Plus(a, (0, 0)) == a
  {
  }

  // How far it was moved, and how far was scrolled, in all.
  function MovedBy(events: seq<OsEvent>): (int, int) {
    if events == [] then (0, 0)
    else
      var e := events[|events| - 1];
      Plus(MovedBy(events[..|events| - 1]), if e.Motion? then (e.dx, e.dy) else (0, 0))
  }

  function ScrolledBy(events: seq<OsEvent>): (int, int) {
    if events == [] then (0, 0)
    else
      var e := events[|events| - 1];
      Plus(ScrolledBy(events[..|events| - 1]), if e.Scroll? then (e.dx, e.dy) else (0, 0))
  }

  lemma OneMoreSeen(events: seq<OsEvent>, e: OsEvent)
    ensures PutAt(events + [e]) == if e.Pointer? then Some((e.x, e.y)) else PutAt(events)
    ensures MovedBy(events + [e]) == Plus(MovedBy(events), if e.Motion? then (e.dx, e.dy) else (0, 0))
    ensures ScrolledBy(events + [e]) == Plus(ScrolledBy(events), if e.Scroll? then (e.dx, e.dy) else (0, 0))
  {
    assert (events + [e])[..|events|] == events;
  }

  // `more` neither puts, moves nor scrolls.
  predicate Still(more: seq<OsEvent>) { forall e <- more :: !e.Pointer? && !e.Motion? && !e.Scroll? }

  ghost predicate SamePointer(a: seq<OsEvent>, b: seq<OsEvent>) {
    PutAt(a) == PutAt(b) && MovedBy(a) == MovedBy(b) && ScrolledBy(a) == ScrolledBy(b)
  }

  lemma {:induction false} StillKeeps(events: seq<OsEvent>, more: seq<OsEvent>)
    requires Still(more)
    ensures SamePointer(events, events + more)
  {
    hide PutAt, MovedBy, ScrolledBy, Plus;
    if more == [] {
      assert events + more == events;
    } else {
      var n := |more| - 1;
      assert more[n] in more && forall e <- more[..n] :: e in more;
      StillKeeps(events, more[..n]);
      OneMoreSeen(events + more[..n], more[n]);
      PlusNothing(MovedBy(events + more[..n]));
      PlusNothing(ScrolledBy(events + more[..n]));
      assert events + more == events + more[..n] + [more[n]];
    }
  }

  lemma KeyCallKeeps(j: Injector, table: ScanTable, usage: nat, down: bool)
    ensures SamePointer(j.events, KeyCall(j, table, usage, down).events)
  {
    hide PutAt, MovedBy, ScrolledBy, Scan;
    StillKeeps(j.events, [PauseKey(!down)]);
    StillKeeps(j.events, [KeyCode(Scan(table, usage), !down)]);
  }

  lemma {:induction false} KeyCallsKeep(j: Injector, table: ScanTable, ts: seq<Transition>)
    ensures SamePointer(j.events, KeyCalls(j, table, ts).events)
  {
    hide KeyCall, PutAt, MovedBy, ScrolledBy;
    if ts != [] {
      KeyCallsKeep(j, table, ts[..|ts| - 1]);
      KeyCallKeeps(KeyCalls(j, table, ts[..|ts| - 1]), table, ts[|ts| - 1].usage, ts[|ts| - 1].down);
    }
  }

  lemma ButtonCallKeeps(j: Injector, index: nat, down: bool)
    ensures SamePointer(j.events, ButtonCall(j, index, down).events)
  {
    hide PutAt, MovedBy, ScrolledBy, WithBit;
    StillKeeps(j.events, [Pressed(index, down)]);
  }

  lemma {:induction false} ButtonCallsKeep(j: Injector, was: bv8, mask: bv8, n: nat)
    requires n <= 5
    ensures SamePointer(j.events, ButtonCalls(j, was, mask, n).events)
  {
    hide ButtonCall, Bit, PutAt, MovedBy, ScrolledBy;
    if n > 0 {
      ButtonCallsKeep(j, was, mask, n - 1);
      ButtonCallKeeps(ButtonCalls(j, was, mask, n - 1), n - 1, Bit(mask, n - 1));
    }
  }

  lemma {:induction false} KeystrokesStill(units: seq<Unit>)
    ensures Still(Keystrokes(units))
  {
    if units != [] {
      KeystrokesStill(units[..|units| - 1]);
    }
  }

  lemma TextKeeps(j: Injector, text: seq<Byte>)
    ensures SamePointer(j.events, TextCall(j, text).events)
  {
    hide Units, Keystrokes, PutAt, MovedBy, ScrolledBy;
    KeystrokesStill(Units(text));
    StillKeeps(j.events, Typing(text));
  }

  // ------------------------------------------------------------------ one message

  // How far a message says to move, and to scroll.
  function Motions(m: Wire.Message): (int, int) { if m.MoveRel? then (m.dx, m.dy) else (0, 0) }

  function Scrolls(m: Wire.Message): (int, int) { if m.Wheel? then (m.dx, m.dy) else (0, 0) }

  lemma ButtonsAppliedKeep(s: Session, mask: bv8)
    ensures SamePointer(s.injector.events, ButtonsApplied(s, mask).injector.events)
  {
    hide ButtonCalls, PutAt, MovedBy, ScrolledBy;
    ButtonCallsKeep(s.injector, s.buttons, mask, 5);
  }

  lemma ScrolledMoves(j: Injector, dx: int, dy: int)
    ensures var r := Scrolled(j, dx, dy);
      && PutAt(r.events) == PutAt(j.events) && MovedBy(r.events) == MovedBy(j.events)
      && ScrolledBy(r.events) == Plus(ScrolledBy(j.events), (dx, dy))
  {
    hide PutAt, MovedBy, ScrolledBy;
    OneMoreSeen(j.events, Scroll(0, dy));
    OneMoreSeen(j.events, Scroll(dx, 0));
    OneMoreSeen(j.events + [Scroll(0, dy)], Scroll(dx, 0));
  }

  ghost predicate Points(was: seq<OsEvent>, now: seq<OsEvent>, m: Wire.Message) {
    && PutAt(now) == (if m.MoveAbs? then Some((m.x, m.y)) else PutAt(was))
    && MovedBy(now) == Plus(MovedBy(was), Motions(m))
    && ScrolledBy(now) == Plus(ScrolledBy(was), Scrolls(m))
  }

  lemma HandledPoints(s: Session, table: ScanTable, m: Wire.Message)
    ensures Points(s.injector.events, Handled(s, table, m).injector.events, m)
  {
    hide KeyCalls, ButtonCall, ButtonsApplied, Differences, PutAt, MovedBy, ScrolledBy, Typing, Scrolled;
    match m
    case MoveAbs(n, ts, x, y, buttons) =>
      ButtonsAppliedKeep(Noted(s, n, ts), buttons);
      OneMoreSeen(ButtonsApplied(Noted(s, n, ts), buttons).injector.events, Pointer(x, y));
    case MoveRel(n, ts, dx, dy, buttons) =>
      ButtonsAppliedKeep(Noted(s, n, ts), buttons);
      OneMoreSeen(ButtonsApplied(Noted(s, n, ts), buttons).injector.events, Motion(dx, dy));
    case Button(n, ts, index, down, buttons) => ButtonCallKeeps(s.injector, index, down);
    case Wheel(n, ts, dx, dy) => ScrolledMoves(s.injector, dx, dy);
    case Key(n, ts, _, _, state) => KeyCallsKeep(s.injector, table, Differences(s.keys, state, USAGES));
    case Sync(n, ts, buttons, state) =>
      KeyCallsKeep(s.injector, table, Differences(s.keys, state, USAGES));
      ButtonsAppliedKeep(KeysApplied(Noted(s, n, ts), table, state), buttons);
    case Text(_, text) => TextKeeps(s.injector, text);
    case Ping(_, _) =>
  }

  // With control, a packet puts the pointer where it says if it is of that kind, moves and scrolls
  // by its own deltas if it is of those, and else leaves all three; without, it does nothing.
  lemma PacketPoints(s: Session, table: ScanTable, control: bool, m: Wire.Message)
    requires Wire.InRange(m) && (m.Text? ==> |m.text| <= Wire.MAX_TEXT)
    ensures var r := Received(s, table, control, Wire.Encode(m));
      var was, now := s.injector.events, r.injector.events;
      if control then
        && PutAt(now) == (if m.MoveAbs? then Some((m.x, m.y)) else PutAt(was))
        && MovedBy(now) == Plus(MovedBy(was), if m.MoveRel? then (m.dx, m.dy) else (0, 0))
        && ScrolledBy(now) == Plus(ScrolledBy(was), if m.Wheel? then (m.dx, m.dy) else (0, 0))
      else r == s
  {
    hide Handled, Reading, Wire.Encode, PutAt, MovedBy, ScrolledBy;
    ReadsWhatWasWritten(m);
    HandledPoints(s, table, m);
  }

  // ------------------------------------------------------------------ a perfect channel

  // Where the client last had the pointer, if it ever did.
  function LastHad(events: seq<Event>): Position {
    if events == [] then Nowhere
    else
      var before := LastHad(events[..|events| - 1]);
      match events[|events| - 1]
      case PointerAt(x, y) => At(x, y)
      case PointerDown(_, locked, now, _) => if !locked && now.At? then now else before
      case _ => before
  }

  // How far the client moved it while it was locked, each move cut to what a packet can say.
  function MovedInAll(events: seq<Event>): (int, int) {
    if events == [] then (0, 0)
    else
      var e := events[|events| - 1];
      Plus(MovedInAll(events[..|events| - 1]),
           if e.PointerMoved? then (Wire.Clamped(e.dx, U16), Wire.Clamped(e.dy, U16)) else (0, 0))
  }

  predicate IsAt(put: Option<(int, int)>, p: Position) {
    match p
    case Nowhere => put == None
    case At(x, y) => put == Some((x, y))
  }

  // The agent has put the pointer where the client last had it, but for a position still pending.
  ghost predicate Follows(events: seq<OsEvent>, pending: Position, had: Position, moved: (int, int)) {
    && (if pending.At? then pending == had else IsAt(PutAt(events), had))
    && MovedBy(events) == moved && ScrolledBy(events) == (0, 0)
  }

  function Agent(table: ScanTable, c: Client): Injector { HandledAll(OPENED, table, c.sent).injector }

  lemma PostPoints(table: ScanTable, c: Client, m: Wire.Message)
    ensures Points(Agent(table, c).events, Agent(table, Post(c, m)).events, m)
  {
    hide Handled, PutAt, MovedBy, ScrolledBy;
    PostMirrors(OPENED, table, c.sent, m);
    HandledPoints(HandledAll(OPENED, table, c.sent), table, m);
  }

  lemma SameSentSameAgent(table: ScanTable, c: Client, d: Client)
    requires c.sent == d.sent
    ensures Agent(table, c) == Agent(table, d)
  {
  }

  lemma FlushFollows(table: ScanTable, c: Client, ts: nat, had: Position, moved: (int, int))
    requires Follows(Agent(table, c).events, c.pending, had, moved)
    ensures var r := Flushed(c, ts); r.pending == Nowhere && Follows(Agent(table, r).events, Nowhere, had, moved)
  {
    hide Agent, Follows, Points;
    if c.pending.At? {
      var m := Wire.MoveAbs(NextSeq(c), ts, c.pending.x, c.pending.y, c.buttons);
      PostPoints(table, c, m);
      SameSentSameAgent(table, Flushed(c, ts), Post(c, m));
      PutFollows(Agent(table, c).events, Agent(table, Flushed(c, ts)).events, c.pending, m, had, moved);
    }
  }

  // The pending position is put.
  lemma PutFollows(was: seq<OsEvent>, now: seq<OsEvent>, pending: Position, m: Wire.Message,
                   had: Position, moved: (int, int))
    requires Follows(was, pending, had, moved) && Points(was, now, m)
    requires m.MoveAbs? && pending == At(m.x, m.y)
    ensures Follows(now, Nowhere, had, moved)
  {
    hide PutAt, MovedBy, ScrolledBy, Plus;
    PlusNothing(MovedBy(was));
    PlusNothing(ScrolledBy(was));
  }

  // Something else is said.
  lemma ElseFollows(was: seq<OsEvent>, now: seq<OsEvent>, pending: Position, m: Wire.Message,
                    had: Position, moved: (int, int))
    requires Follows(was, pending, had, moved) && Points(was, now, m) && !m.MoveAbs? && !m.Wheel?
    ensures Follows(now, pending, had, Plus(moved, Motions(m)))
  {
    hide PutAt, MovedBy, ScrolledBy, Plus;
    PlusNothing(ScrolledBy(was));
  }

  // A client that sent one more message, and moved the pointer no otherwise.
  lemma SaidFollows(table: ScanTable, c: Client, r: Client, m: Wire.Message, had: Position, moved: (int, int))
    requires Follows(Agent(table, c).events, c.pending, had, moved)
    requires r.sent == c.sent + [m] && r.pending == c.pending && !m.MoveAbs? && !m.Wheel?
    ensures Follows(Agent(table, r).events, r.pending, had, Plus(moved, Motions(m)))
  {
    hide Agent, Follows, Points;
    SameSentSameAgent(table, r, Post(c, m));
    PostPoints(table, c, m);
    ElseFollows(Agent(table, c).events, Agent(table, r).events, c.pending, m, had, moved);
  }

  // The client on a press that is not locked, its position sent.
  function Placed(c: Client, e: Event): Client
    requires e.PointerDown?
  {
    if e.locked then c else Flushed(if e.now.At? then c.(pending := e.now) else c, e.ts)
  }

  lemma PressFollows(table: ScanTable, c: Client, e: Event, had: Position, moved: (int, int))
    requires e.PointerDown? && Fits(e) && Follows(Agent(table, c).events, c.pending, had, moved)
    ensures var now := if !e.locked && e.now.At? then e.now else had; var p := Placed(c, e);
      && Follows(Agent(table, p).events, p.pending, now, moved) && (!e.locked ==> p.pending == Nowhere)
      && Follows(Agent(table, Happened(c, e)).events, Happened(c, e).pending, now, moved)
      && Agent(table, Happened(c, e)).events == Agent(table, p).events + [Pressed(e.index, true)]
  {
    hide PutAt, MovedBy, ScrolledBy, HandledAll, Bit, WithBit, Mask;
    var now := if !e.locked && e.now.At? then e.now else had;
    if !e.locked {
      var moving := if e.now.At? then c.(pending := e.now) else c;
      FlushFollows(table, moving, e.ts, now, moved);
    }
    var p, r := Placed(c, e), Happened(c, e);
    var m := r.sent[|p.sent|];
    SaidFollows(table, p, r, m, now, moved);
    PlusNothing(moved);
    PostMirrors(OPENED, table, p.sent, m);
  }

  lemma EventFollows(table: ScanTable, c: Client, e: Event, had: Position, moved: (int, int))
    requires Fits(e) && Follows(Agent(table, c).events, c.pending, had, moved)
    ensures var r := Happened(c, e);
      var now := if e.PointerAt? then At(e.x, e.y)
                 else if e.PointerDown? && !e.locked && e.now.At? then e.now else had;
      var far := if e.PointerMoved? then (Wire.Clamped(e.dx, U16), Wire.Clamped(e.dy, U16)) else (0, 0);
      Follows(Agent(table, r).events, r.pending, now, Plus(moved, far))
  {
    hide Agent, Follows, WithKey, WithBit, Wire.Clamped;
    PlusNothing(moved);
    var r := Happened(c, e);
    match e
    case PointerDown(_, _, _, _) => PressFollows(table, c, e, had, moved);
    case FlushPointer(ts) => FlushFollows(table, c, ts, had, moved);
    case PointerAt(x, y) => PendingFollows(table, c, e, had, moved);
    case PointerMoved(dx, dy, ts) =>
      if dx == 0 && dy == 0 {
        NoMove();
      } else {
        SaidFollows(table, c, r, r.sent[|c.sent|], had, moved);
      }
    case _ =>
      if r != c {
        SaidFollows(table, c, r, r.sent[|c.sent|], had, moved);
      }
  }

  lemma NoMove()
    ensures Wire.Clamped(0, U16) == 0
  {
  }

  lemma PendingFollows(table: ScanTable, c: Client, e: Event, had: Position, moved: (int, int))
    requires e.PointerAt? && Fits(e) && Follows(Agent(table, c).events, c.pending, had, moved)
    ensures var r := Happened(c, e); Follows(Agent(table, r).events, r.pending, At(e.x, e.y), moved)
  {
    hide PutAt, MovedBy, ScrolledBy, HandledAll;
  }

  // With nothing lost and everything in order, the agent's pointer is where the client last had it
  // once no position is pending, and has been moved exactly as far as the client moved it.
  lemma {:induction false} PointerFollows(table: ScanTable, events: seq<Event>)
    requires forall e <- events :: Fits(e)
    ensures var c := AfterEvents(events);
      Follows(Agent(table, c).events, c.pending, LastHad(events), MovedInAll(events))
  {
    hide Happened, Follows, Wire.Clamped;
    if events == [] {
      NothingFollows(table);
    } else {
      var n := |events| - 1;
      assert events[n] in events && forall e <- events[..n] :: e in events;
      PointerFollows(table, events[..n]);
      EventFollows(table, AfterEvents(events[..n]), events[n], LastHad(events[..n]), MovedInAll(events[..n]));
    }
  }

  lemma NothingFollows(table: ScanTable)
    ensures Follows(Agent(table, IDLE).events, IDLE.pending, Nowhere, (0, 0))
  {
  }

  // And a press that is not locked happens with the pointer where the client last had it.
  lemma PressedWhereItWas(table: ScanTable, events: seq<Event>)
    requires events != [] && forall e <- events :: Fits(e)
    requires var e := events[|events| - 1]; e.PointerDown? && !e.locked
    ensures var e := events[|events| - 1]; var seen := Agent(table, AfterEvents(events)).events;
      && seen != [] && seen[|seen| - 1] == Pressed(e.index, true)
      && IsAt(PutAt(seen[..|seen| - 1]), LastHad(events))
  {
    hide Happened, PutAt, HandledAll, MovedBy, ScrolledBy, Wire.Clamped;
    var n := |events| - 1;
    assert events[n] in events && forall e <- events[..n] :: e in events;
    var c := AfterEvents(events[..n]);
    PointerFollows(table, events[..n]);
    PressFollows(table, c, events[n], LastHad(events[..n]), MovedInAll(events[..n]));
    var before := Agent(table, Placed(c, events[n])).events;
    assert (before + [Pressed(events[n].index, true)])[..|before|] == before;
  }
}
