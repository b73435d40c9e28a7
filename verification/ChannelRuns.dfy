/** The browser, a channel that loses, repeats and reorders, and the agent's session together.

    The channel keeps everything ever sent; a step delivers any of it, again or never. */
module ChannelRuns {
  import opened Bytes
  import opened ButtonRuns
  import opened InputClient
  import opened InputRuns
  import opened InputSession
  import opened Injectors
  import opened KeyBitmaps
  import Wire

  datatype World = World(client: Client, agent: Session)

  datatype Step = Act(event: Event) | Deliver(index: nat)

  const IDLE := Client(0, 0, NoKeys(), Nowhere, [])

  // A step that cannot be taken changes nothing.
  ghost function Stepped(w: World, table: ScanTable, s: Step): World
    requires Valid(w.client)
    ensures Valid(Stepped(w, table, s).client)
  {
    match s
    case Act(e) =>
      if Fits(e) then (StaysValid(w.client, e); w.(client := Happened(w.client, e))) else w
    case Deliver(k) =>
      if k < |w.client.sent| then
        assert w.client.sent[k] in w.client.sent;
        w.(agent := Received(w.agent, table, true, Wire.Encode(w.client.sent[k])))
      else w
  }

  ghost function Ran(table: ScanTable, run: seq<Step>): World
    ensures Valid(Ran(table, run).client)
  {
    if run == [] then World(IDLE, OPENED)
    else Stepped(Ran(table, run[..|run| - 1]), table, run[|run| - 1])
  }

  // ------------------------------------------------------------ what the client sends

  // The state in the newest message that carries one.
  function Newest(sent: seq<Wire.Message>): Bitmap {
    if sent == [] then NoKeys()
    else if CarriesKeys(sent[|sent| - 1]) then sent[|sent| - 1].state
    else Newest(sent[..|sent| - 1])
  }

  lemma PostedIsNewest(sent: seq<Wire.Message>, m: Wire.Message)
    ensures Newest(sent + [m]) == if CarriesKeys(m) then m.state else Newest(sent)
  {
    assert (sent + [m])[..|sent|] == sent;
  }

  // `b` goes on from `a` with messages that carry, if any, the state `keys`.
  ghost predicate GoesOn(a: seq<Wire.Message>, b: seq<Wire.Message>, keys: Bitmap) {
    && |a| <= |b| && b[..|a|] == a
    && forall k | |a| <= k < |b| :: !b[k].Text? && (CarriesKeys(b[k]) ==> b[k].state == keys)
  }

  lemma PostGoesOn(a: seq<Wire.Message>, sent: seq<Wire.Message>, m: Wire.Message, keys: Bitmap)
    requires GoesOn(a, sent, keys) && !m.Text? && (CarriesKeys(m) ==> m.state == keys)
    requires CarriesKeys(m) || Newest(sent) == keys
    ensures GoesOn(a, sent + [m], keys) && Newest(sent + [m]) == keys
  {
    hide Newest;
    PostedIsNewest(sent, m);
  }

  lemma FlushGoesOn(c: Client, ts: nat)
    requires Newest(c.sent) == c.keys
    ensures var r := Flushed(c, ts); GoesOn(c.sent, r.sent, c.keys) && Newest(r.sent) == c.keys == r.keys
  {
    hide Newest;
    if c.pending.At? {
      PostGoesOn(c.sent, c.sent, Wire.MoveAbs(NextSeq(c), ts, c.pending.x, c.pending.y, c.buttons), c.keys);
    }
  }

  // Whatever the client does, its newest snapshot says what it holds, and each message it adds
  // that carries one says what it holds by then.
  lemma SnapshotsAreCurrent(c: Client, e: Event)
    requires Fits(e) && Newest(c.sent) == c.keys
    ensures var r := Happened(c, e); GoesOn(c.sent, r.sent, r.keys) && Newest(r.sent) == r.keys
  {
    hide Newest, WithKey, WithBit, Wire.Clamped, GoesOn, Flushed;
    var r := Happened(c, e);
    NothingMore(c.sent, r.keys);
    match e
    case PointerDown(_, locked, now, ts) =>
      var moved := if now.At? then c.(pending := now) else c;
      FlushGoesOn(moved, ts);
      var placed := if locked then c else Flushed(moved, ts);
      PostGoesOn(c.sent, placed.sent, r.sent[|placed.sent|], c.keys);
    case FlushPointer(ts) => FlushGoesOn(c, ts);
    case PointerAt(_, _) =>
    case _ =>
      if r != c {
        PostGoesOn(c.sent, c.sent, r.sent[|c.sent|], r.keys);
      }
  }

  lemma NothingMore(sent: seq<Wire.Message>, keys: Bitmap)
    ensures GoesOn(sent, sent, keys)
  {
  }

  // ------------------------------------------------------------------ any channel at all

  ghost predicate WasTrue(table: ScanTable, run: seq<Step>, keys: Bitmap) {
    exists i | 0 <= i <= |run| :: Ran(table, run[..i]).client.keys == keys
  }

  ghost predicate Sound(table: ScanTable, run: seq<Step>)
  {
    var w := Ran(table, run);
    && Newest(w.client.sent) == w.client.keys
    && KeysAgree(w.agent, table)
    && (forall m <- w.client.sent :: m.Text? ==> |m.text| <= Wire.MAX_TEXT)
    && (forall m <- w.client.sent | CarriesKeys(m) :: WasTrue(table, run, m.state))
    && WasTrue(table, run, w.agent.keys)
  }

  lemma TruthLasts(table: ScanTable, run: seq<Step>, keys: Bitmap)
    requires run != [] && WasTrue(table, run[..|run| - 1], keys)
    ensures WasTrue(table, run, keys)
  {
    hide Ran;
    var before := run[..|run| - 1];
    var i :| 0 <= i <= |before| && Ran(table, before[..i]).client.keys == keys;
    assert run[..i] == before[..i];
  }

  lemma NowIsTrue(table: ScanTable, run: seq<Step>)
    ensures WasTrue(table, run, Ran(table, run).client.keys)
  {
    assert run[..|run|] == run;
  }

  lemma DeliveredIsHandled(w: World, table: ScanTable, k: nat)
    requires Valid(w.client) && k < |w.client.sent|
    requires w.client.sent[k].Text? ==> |w.client.sent[k].text| <= Wire.MAX_TEXT
    ensures Stepped(w, table, Deliver(k)).agent == Handled(w.agent, table, w.client.sent[k])
  {
    hide Handled, Reading, Wire.Encode;
    assert w.client.sent[k] in w.client.sent;
    ReadsWhatWasWritten(w.client.sent[k]);
  }

  lemma ActKeepsSound(table: ScanTable, run: seq<Step>)
    requires run != [] && run[|run| - 1].Act? && Fits(run[|run| - 1].event) && Sound(table, run[..|run| - 1])
    ensures Sound(table, run)
  {
    hide WasTrue, KeysAgree, Happened, Newest;
    var w, r := Ran(table, run[..|run| - 1]), Ran(table, run);
    SnapshotsAreCurrent(w.client, run[|run| - 1].event);
    NowIsTrue(table, run);
    forall m <- r.client.sent
      ensures (m.Text? ==> |m.text| <= Wire.MAX_TEXT) && (CarriesKeys(m) ==> WasTrue(table, run, m.state))
    {
      var k :| 0 <= k < |r.client.sent| && r.client.sent[k] == m;
      if k < |w.client.sent| {
        assert w.client.sent[k] in w.client.sent;
        if CarriesKeys(m) {
          TruthLasts(table, run, m.state);
        }
      }
    }
    TruthLasts(table, run, w.agent.keys);
  }

  lemma DeliverKeepsSound(table: ScanTable, run: seq<Step>)
    requires run != [] && run[|run| - 1].Deliver? && Sound(table, run[..|run| - 1])
    requires run[|run| - 1].index < |Ran(table, run[..|run| - 1]).client.sent|
    ensures Sound(table, run)
  {
    hide WasTrue, KeysAgree, Handled, Newest;
    var w, r := Ran(table, run[..|run| - 1]), Ran(table, run);
    var k := run[|run| - 1].index;
    var m := w.client.sent[k];
    assert m in w.client.sent;
    DeliveredIsHandled(w, table, k);
    if CarriesKeys(m) {
      SnapshotApplied(w.agent, table, m);
    } else {
      HandledKeepsKeys(w.agent, table, m);
    }
    TruthLasts(table, run, r.agent.keys);
    forall n <- w.client.sent | CarriesKeys(n) ensures WasTrue(table, run, n.state) {
      TruthLasts(table, run, n.state);
    }
  }

  lemma NothingKeepsSound(table: ScanTable, run: seq<Step>)
    requires run != [] && Ran(table, run) == Ran(table, run[..|run| - 1]) && Sound(table, run[..|run| - 1])
    ensures Sound(table, run)
  {
    hide WasTrue, KeysAgree, Newest, Ran;
    var w := Ran(table, run);
    TruthLasts(table, run, w.agent.keys);
    forall n <- w.client.sent | CarriesKeys(n) ensures WasTrue(table, run, n.state) {
      TruthLasts(table, run, n.state);
    }
  }

  lemma {:induction false} AlwaysSound(table: ScanTable, run: seq<Step>)
    ensures Sound(table, run)
  {
    hide WasTrue, KeysAgree, Happened, Received;
    if run == [] {
      OpenedAgrees(table);
      NowIsTrue(table, run);
    } else {
      AlwaysSound(table, run[..|run| - 1]);
      var step := run[|run| - 1];
      if step.Act? && Fits(step.event) {
        ActKeepsSound(table, run);
      } else if step.Deliver? && step.index < |Ran(table, run[..|run| - 1]).client.sent| {
        DeliverKeepsSound(table, run);
      } else {
        NothingKeepsSound(table, run);
      }
    }
  }

  // However packets are lost, repeated or reordered, the agent holds a set of keys that the
  // client really held at some moment of the run, never a mixture of two.
  lemma AgentHoldsARealState(table: ScanTable, run: seq<Step>)
    ensures exists i | 0 <= i <= |run| ::
      Ran(table, run[..i]).client.keys == Ran(table, run).agent.keys
  {
    hide KeysAgree, Newest, CarriesKeys, Ran;
    AlwaysSound(table, run);
    assert WasTrue(table, run, Ran(table, run).agent.keys);
  }

  lemma {:induction false} NewestAt(sent: seq<Wire.Message>, k: nat)
    requires k < |sent| && CarriesKeys(sent[k]) && forall n | k < n < |sent| :: !CarriesKeys(sent[n])
    ensures Newest(sent) == sent[k].state
  {
    if k < |sent| - 1 {
      NewestAt(sent[..|sent| - 1], k);
    }
  }

  // And one delivery of the newest snapshot mends everything, whatever happened before.
  lemma NewestSnapshotHeals(table: ScanTable, run: seq<Step>, k: nat)
    requires var sent := Ran(table, run + [Deliver(k)]).client.sent;
      k < |sent| && CarriesKeys(sent[k]) && forall n | k < n < |sent| :: !CarriesKeys(sent[n])
    ensures var w := Ran(table, run + [Deliver(k)]); w.agent.keys == w.client.keys && KeysAgree(w.agent, table)
  {
    hide KeysAgree, Handled, WasTrue, CarriesKeys, Newest;
    assert (run + [Deliver(k)])[..|run|] == run;
    AlwaysSound(table, run);
    AlwaysSound(table, run + [Deliver(k)]);
    var w := Ran(table, run);
    assert w.client.sent[k] in w.client.sent;
    DeliveredIsHandled(w, table, k);
    SnapshotApplied(w.agent, table, w.client.sent[k]);
    NewestAt(w.client.sent, k);
  }

  // ------------------------------------------------------------------ the heartbeat

  // A heartbeat, and the delivery of what it sent, if it sent anything.
  ghost function Beaten(w: World, table: ScanTable, ts: nat): World
    requires Valid(w.client) && ts < U32
    ensures Valid(Beaten(w, table, ts).client)
  {
    var r := Stepped(w, table, Act(Heartbeat(ts)));
    if |r.client.sent| == |w.client.sent| then r else Stepped(r, table, Deliver(|w.client.sent|))
  }

  // It mends the keys exactly while something is held; with nothing held it sends nothing.
  lemma HeartbeatHealsExactly(w: World, table: ScanTable, ts: nat)
    requires Valid(w.client) && ts < U32 && KeysAgree(w.agent, table)
    ensures Beaten(w, table, ts).client.keys == w.client.keys && KeysAgree(Beaten(w, table, ts).agent, table)
    ensures Beaten(w, table, ts).agent.keys == w.client.keys <==> Holds(w.client) || w.agent.keys == w.client.keys
    ensures !Holds(w.client) ==> Beaten(w, table, ts) == w
  {
    hide KeysAgree, Handled, Wire.Encode, Reading;
    if Holds(w.client) {
      var r := Stepped(w, table, Act(Heartbeat(ts)));
      DeliveredIsHandled(r, table, |w.client.sent|);
      SnapshotApplied(r.agent, table, r.client.sent[|w.client.sent|]);
    }
  }

  ghost function BeatenTimes(w: World, table: ScanTable, ts: nat, n: nat): World
    requires Valid(w.client) && ts < U32
    ensures Valid(BeatenTimes(w, table, ts, n).client)
  {
    if n == 0 then w else Beaten(BeatenTimes(w, table, ts, n - 1), table, ts)
  }

  lemma {:induction false} QuietHeartbeats(w: World, table: ScanTable, ts: nat, n: nat)
    requires Valid(w.client) && ts < U32 && KeysAgree(w.agent, table) && !Holds(w.client)
    ensures BeatenTimes(w, table, ts, n) == w
  {
    hide Beaten, KeysAgree, Valid, Holds;
    if n > 0 {
      QuietHeartbeats(w, table, ts, n - 1);
      HeartbeatHealsExactly(w, table, ts);
    }
  }

  lemma OneMoreStep(table: ScanTable, run: seq<Step>, s: Step)
    ensures Ran(table, run + [s]) == Stepped(Ran(table, run), table, s)
  {
    hide Stepped;
    assert (run + [s])[..|run|] == run;
  }

  // A key that went down and up again, and an agent that was last told it is down.
  ghost predicate LeftDown(w: World, table: ScanTable, u: nat) {
    && Valid(w.client) && KeysAgree(w.agent, table)
    && w.agent.keys == WithKey(NoKeys(), u, true)
    && w.client.keys == WithKey(WithKey(NoKeys(), u, true), u, false) && w.client.buttons == 0
  }

  lemma NoHeartbeatHelps(w: World, table: ScanTable, u: nat, ts: nat, n: nat)
    requires LeftDown(w, table, u) && u < USAGES && ts < U32
    ensures w.client.keys == NoKeys() && Held(BeatenTimes(w, table, ts, n).agent.keys, u)
  {
    hide WithKey, Held, KeysAgree, Valid;
    forall v: nat | v < USAGES ensures Held(w.client.keys, v) == Held(NoKeys(), v) {
      WithKeySetsOne(WithKey(NoKeys(), u, true), u, false, v);
      WithKeySetsOne(NoKeys(), u, true, v);
      HeldInNone(v);
    }
    SameKeysSameBitmap(w.client.keys, NoKeys());
    WithKeySetsOne(NoKeys(), u, true, u);
    QuietHeartbeats(w, table, ts, n);
  }

  // A key pressed, the packet of its release lost: no number of heartbeats lets it go.
  lemma LostLastRelease(table: ScanTable, u: nat, ts: nat, n: nat)
    requires 0 < u < USAGES && ts < U32
    ensures var run := [Act(KeyDown(u, ts)), Deliver(0), Act(KeyUp(u, ts))];
      && Ran(table, run).client.keys == NoKeys()
      && Held(BeatenTimes(Ran(table, run), table, ts, n).agent.keys, u)
  {
    hide WithKey, Held, Handled, KeysAgree, Wire.Encode, Received;
    var down, up := Act(KeyDown(u, ts)), Act(KeyUp(u, ts));
    var pressed := Stepped(World(IDLE, OPENED), table, down);
    var w := Stepped(Stepped(pressed, table, Deliver(0)), table, up);
    assert Ran(table, []) == World(IDLE, OPENED);
    OneMoreStep(table, [], down);
    OneMoreStep(table, [down], Deliver(0));
    OneMoreStep(table, [down, Deliver(0)], up);
    DeliveredIsHandled(pressed, table, 0);
    OpenedAgrees(table);
    SnapshotApplied(OPENED, table, pressed.client.sent[0]);
    assert LeftDown(w, table, u);
    NoHeartbeatHelps(w, table, u, ts, n);
    assert [down, Deliver(0), up] == [] + [down] + [Deliver(0)] + [up];
  }

  // Nothing lost, but the press delivered after the release: the same.
  lemma PressAfterRelease(table: ScanTable, u: nat, ts: nat, n: nat)
    requires 0 < u < USAGES && ts < U32
    ensures var run := [Act(KeyDown(u, ts)), Act(KeyUp(u, ts)), Deliver(1), Deliver(0)];
      && Ran(table, run).client.keys == NoKeys()
      && Held(BeatenTimes(Ran(table, run), table, ts, n).agent.keys, u)
  {
    hide WithKey, Held, Handled, KeysAgree, Wire.Encode, Received;
    var down, up := Act(KeyDown(u, ts)), Act(KeyUp(u, ts));
    var both := Stepped(Stepped(World(IDLE, OPENED), table, down), table, up);
    var late := Stepped(both, table, Deliver(1));
    var w := Stepped(late, table, Deliver(0));
    assert Ran(table, []) == World(IDLE, OPENED);
    OneMoreStep(table, [], down);
    OneMoreStep(table, [down], up);
    OneMoreStep(table, [down, up], Deliver(1));
    OneMoreStep(table, [down, up, Deliver(1)], Deliver(0));
    DeliveredIsHandled(both, table, 1);
    OpenedAgrees(table);
    SnapshotApplied(OPENED, table, both.client.sent[1]);
    DeliveredIsHandled(late, table, 0);
    SnapshotApplied(late.agent, table, both.client.sent[0]);
    assert LeftDown(w, table, u);
    NoHeartbeatHelps(w, table, u, ts, n);
    assert [down, up, Deliver(1), Deliver(0)] == [] + [down] + [up] + [Deliver(1)] + [Deliver(0)];
  }

  // ------------------------------------------------------------ a perfect channel

  ghost predicate Mirrors(s: Session, c: Client) {
    s.keys == c.keys && s.buttons == c.buttons && ButtonsAgree(s)
  }

  // What a message leaves the agent believing.
  lemma HandledTakesOver(s: Session, table: ScanTable, m: Wire.Message)
    requires ButtonsAgree(s) && Coherent(s.buttons, m)
    ensures var r := Handled(s, table, m);
      && ButtonsAgree(r)
      && r.keys == (if CarriesKeys(m) then m.state else s.keys)
      && r.buttons == (if m.MoveAbs? || m.MoveRel? || m.Button? || m.Sync? then m.buttons else s.buttons)
  {
    hide Bit, KeyCalls, ButtonCalls, ButtonCall, Differences;
    AgreementSurvives(s, table, m);
  }

  lemma PostMirrors(s: Session, table: ScanTable, ms: seq<Wire.Message>, m: Wire.Message)
    ensures HandledAll(s, table, ms + [m]) == Handled(HandledAll(s, table, ms), table, m)
  {
    assert (ms + [m])[..|ms|] == ms;
  }

  lemma FlushedMirrors(table: ScanTable, c: Client, ts: nat)
    requires Mirrors(HandledAll(OPENED, table, c.sent), c)
    ensures Mirrors(HandledAll(OPENED, table, Flushed(c, ts).sent), Flushed(c, ts))
  {
    hide Handled, ButtonsAgree;
    if c.pending.At? {
      var m := Wire.MoveAbs(NextSeq(c), ts, c.pending.x, c.pending.y, c.buttons);
      PostMirrors(OPENED, table, c.sent, m);
      HandledTakesOver(HandledAll(OPENED, table, c.sent), table, m);
    }
  }

  // A client that sent one more message, which says what it holds by then.
  ghost predicate Said(p: Client, r: Client, m: Wire.Message) {
    && r.sent == p.sent + [m] && Coherent(p.buttons, m)
    && r.keys == (if CarriesKeys(m) then m.state else p.keys)
    && r.buttons == (if m.MoveAbs? || m.MoveRel? || m.Button? || m.Sync? then m.buttons else p.buttons)
  }

  lemma SaidMirrors(table: ScanTable, p: Client, r: Client, m: Wire.Message)
    requires Mirrors(HandledAll(OPENED, table, p.sent), p) && Said(p, r, m)
    ensures Mirrors(HandledAll(OPENED, table, r.sent), r)
  {
    hide Handled, ButtonsAgree, Coherent, HandledAll;
    PostMirrors(OPENED, table, p.sent, m);
    HandledTakesOver(HandledAll(OPENED, table, p.sent), table, m);
  }

  lemma EventMirrors(table: ScanTable, c: Client, e: Event)
    requires Fits(e) && Mirrors(HandledAll(OPENED, table, c.sent), c)
    ensures Mirrors(HandledAll(OPENED, table, Happened(c, e).sent), Happened(c, e))
  {
    hide Mirrors, HandledAll, WithKey, WithBit, Bit, Wire.Clamped, ButtonsAgree;
    var r := Happened(c, e);
    match e
    case PointerDown(_, _, _, ts) => PressMirrors(table, c, e);
    case FlushPointer(ts) => FlushedMirrors(table, c, ts);
    case PointerAt(_, _) => PendingMirrors(table, c, r);
    case _ =>
      if r != c {
        SaidMirrors(table, c, r, r.sent[|c.sent|]);
      }
  }

  lemma PendingMirrors(table: ScanTable, c: Client, r: Client)
    requires Mirrors(HandledAll(OPENED, table, c.sent), c) && r == c.(pending := r.pending)
    ensures Mirrors(HandledAll(OPENED, table, r.sent), r)
  {
    hide HandledAll, ButtonsAgree;
  }

  lemma PressMirrors(table: ScanTable, c: Client, e: Event)
    requires e.PointerDown? && Fits(e) && Mirrors(HandledAll(OPENED, table, c.sent), c)
    ensures Mirrors(HandledAll(OPENED, table, Happened(c, e).sent), Happened(c, e))
  {
    hide Mirrors, HandledAll, WithBit, Bit, ButtonsAgree;
    var moved := if e.now.At? then c.(pending := e.now) else c;
    PendingMirrors(table, c, moved);
    FlushedMirrors(table, moved, e.ts);
    var placed := if e.locked then c else Flushed(moved, e.ts);
    assert placed.buttons == c.buttons;
    var r := Happened(c, e);
    SaidMirrors(table, placed, r, r.sent[|placed.sent|]);
  }

  function AfterEvents(events: seq<Event>): Client
    requires forall e <- events :: Fits(e)
  {
    if events == [] then IDLE
    else
      assert events[|events| - 1] in events && forall e <- events[..|events| - 1] :: e in events;
      Happened(AfterEvents(events[..|events| - 1]), events[|events| - 1])
  }

  // With nothing lost and everything in order the agent mirrors the client after any events:
  // the same keys, the same mask, and those buttons held.
  lemma {:induction false} PerfectChannelMirrors(table: ScanTable, events: seq<Event>)
    requires forall e <- events :: Fits(e)
    ensures Mirrors(HandledAll(OPENED, table, AfterEvents(events).sent), AfterEvents(events))
  {
    hide Happened, Handled, Bit, ButtonsAgree;
    if events == [] {
      NothingHeldAgrees();
    } else {
      var n := |events| - 1;
      assert events[n] in events && forall e <- events[..n] :: e in events;
      PerfectChannelMirrors(table, events[..n]);
      EventMirrors(table, AfterEvents(events[..n]), events[n]);
    }
  }

  lemma NothingHeldAgrees()
    ensures ButtonsAgree(OPENED)
  {
  }
}
