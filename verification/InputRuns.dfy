/** What holds of one session's input after any packets at all, before it is closed.

    The packets may be any bytes in any order: what a lossy, repeating and reordering channel
    delivers is just another list of packets. */
module InputRuns {
  import opened Bytes
  import opened Injectors
  import opened InputSession
  import opened KeyBitmaps
  import Wire

  function After(table: ScanTable, packets: seq<seq<Byte>>): Session {
    if packets == [] then OPENED
    else Received(After(table, packets[..|packets| - 1]), table, true, packets[|packets| - 1])
  }

  // ------------------------------------------------------------------ key calls

  lemma {:induction false} ReplayAppends(m: Bitmap, a: seq<Transition>, b: seq<Transition>)
    ensures Replayed(m, a + b) == Replayed(Replayed(m, a), b)
  {
    hide WithKey;
    if b == [] {
      assert a + b == a;
    } else {
      var n := |b| - 1;
      assert (a + b)[..|a + b| - 1] == a + b[..n];
      ReplayAppends(m, a, b[..n]);
    }
  }

  // Every transition changes its key: none goes down that is down, or up that is up.
  ghost predicate Alternating(m: Bitmap, ts: seq<Transition>) {
    forall i | 0 <= i < |ts| :: ts[i].usage < USAGES && ts[i].down != Held(Replayed(m, ts[..i]), ts[i].usage)
  }

  lemma {:induction false} DifferencesAlternate(a: Bitmap, b: Bitmap, n: nat)
    requires n <= USAGES
    ensures Alternating(a, Differences(a, b, n))
  {
    hide Held, Replayed;
    if n > 0 {
      DifferencesAlternate(a, b, n - 1);
      ReplayCopiesBelow(a, b, n - 1, n - 1);
      var d, e := Differences(a, b, n - 1), Differences(a, b, n);
      assert forall i | 0 <= i <= |d| :: e[..i] == d[..i];
      assert d[..|d|] == d;
    }
  }

  lemma AlternatingAppends(m: Bitmap, a: seq<Transition>, b: seq<Transition>)
    requires Alternating(m, a) && Alternating(Replayed(m, a), b)
    ensures Alternating(m, a + b)
  {
    hide Held, Replayed;
    forall i | 0 <= i < |a + b|
      ensures (a + b)[i].usage < USAGES && (a + b)[i].down != Held(Replayed(m, (a + b)[..i]), (a + b)[i].usage)
    {
      if i < |a| {
        assert (a + b)[..i] == a[..i];
      } else {
        assert (a + b)[..i] == a + b[..i - |a|];
        ReplayAppends(m, a, b[..i - |a|]);
      }
    }
  }

  // ------------------------------------------------------------------ the invariant

  // What is injected matches the bitmap: as a fold of the calls, as the set of held keys, and,
  // where no other usage has the scancode, as the system sees it.
  ghost predicate KeysAgree(s: Session, table: ScanTable) {
    && Replayed(NoKeys(), s.keyCalls) == s.keys
    && Alternating(NoKeys(), s.keyCalls)
    && Matches(s.injector, table, s.keys)
    && LastCallRules(s.injector, table, s.keyCalls)
  }

  // The system sees a scancode down just when the last call on any usage with it was down.
  ghost predicate LastCallRules(j: Injector, table: ScanTable, calls: seq<Transition>) {
    forall c: nat | c != 0 :: CodeDown(j.events, c) == LastOfCode(table, calls, c)
  }

  predicate LastOfCode(table: ScanTable, calls: seq<Transition>, code: nat) {
    calls != [] &&
    var t := calls[|calls| - 1];
    if Scan(table, t.usage) == code then t.down else LastOfCode(table, calls[..|calls| - 1], code)
  }

  lemma {:induction false} KeyCallsRule(j: Injector, table: ScanTable, calls: seq<Transition>, ts: seq<Transition>)
    requires LastCallRules(j, table, calls)
    ensures LastCallRules(KeyCalls(j, table, ts), table, calls + ts)
  {
    hide Scan, CodeDown, ButtonDown, PauseDown;
    if ts == [] {
      assert calls + ts == calls;
    } else {
      var n := |ts| - 1;
      KeyCallsRule(j, table, calls, ts[..n]);
      assert (calls + ts)[..|calls + ts| - 1] == calls + ts[..n];
      var before := KeyCalls(j, table, ts[..n]);
      var code := Scan(table, ts[n].usage);
      OneMore(before.events, if code == 0 then PauseKey(!ts[n].down) else KeyCode(code, !ts[n].down));
    }
  }

  ghost predicate Matches(j: Injector, table: ScanTable, keys: Bitmap) {
    && (forall u: nat :: u in j.heldKeys <==> Held(keys, u) && Scan(table, u) != 0)
    && (forall u: nat | Unshared(table, u) :: CodeDown(j.events, Scan(table, u)) == Held(keys, u))
  }

  ghost predicate Unshared(table: ScanTable, u: nat) {
    u < USAGES && Scan(table, u) != 0 && forall v: nat | v != u :: Scan(table, v) != Scan(table, u)
  }

  lemma KeyCallMatches(j: Injector, table: ScanTable, keys: Bitmap, t: Transition)
    requires Matches(j, table, keys) && t.usage < USAGES
    ensures Matches(KeyCall(j, table, t.usage, t.down), table, WithKey(keys, t.usage, t.down))
  {
    hide Held, WithKey, Scan, CodeDown, ButtonDown, PauseDown;
    var code := Scan(table, t.usage);
    forall u: nat ensures Held(WithKey(keys, t.usage, t.down), u) == if t.usage == u then t.down else Held(keys, u) {
      WithKeySetsOne(keys, t.usage, t.down, u);
    }
    if code == 0 {
      OneMore(j.events, PauseKey(!t.down));
    } else {
      OneMore(j.events, KeyCode(code, !t.down));
    }
  }

  lemma {:induction false} KeyCallsMatch(j: Injector, table: ScanTable, keys: Bitmap, ts: seq<Transition>)
    requires Matches(j, table, keys) && forall t <- ts :: t.usage < USAGES
    ensures Matches(KeyCalls(j, table, ts), table, Replayed(keys, ts))
  {
    hide Matches, WithKey, KeyCall;
    if ts != [] {
      var n := |ts| - 1;
      assert forall t <- ts[..n] :: t in ts;
      KeyCallsMatch(j, table, keys, ts[..n]);
      assert ts[n] in ts;
      KeyCallMatches(KeyCalls(j, table, ts[..n]), table, Replayed(keys, ts[..n]), ts[n]);
    }
  }

  lemma KeysAppliedAgree(s: Session, table: ScanTable, next: Bitmap)
    requires KeysAgree(s, table)
    ensures KeysAgree(KeysApplied(s, table, next), table)
  {
    hide Matches, Alternating, Replayed, KeyCalls, Held, LastCallRules;
    var d := Differences(s.keys, next, USAGES);
    ReplayReachesNext(s.keys, next);
    ReplayAppends(NoKeys(), s.keyCalls, d);
    DifferencesAlternate(s.keys, next, USAGES);
    AlternatingAppends(NoKeys(), s.keyCalls, d);
    DifferencesAreExact(s.keys, next, USAGES);
    KeyCallsMatch(s.injector, table, s.keys, d);
    KeyCallsRule(s.injector, table, s.keyCalls, d);
  }

  // Events of other kinds leave the keys alone.
  ghost predicate SameKeys(j: Injector, r: Injector) {
    j.heldKeys == r.heldKeys && forall c: nat :: CodeDown(j.events, c) == CodeDown(r.events, c)
  }

  lemma SentKeepsKeys(j: Injector, e: OsEvent)
    requires !e.KeyCode?
    ensures SameKeys(j, Sent(j, e))
  {
    OneMore(j.events, e);
  }

  lemma TextKeepsKeys(j: Injector, text: seq<Byte>)
    ensures SameKeys(j, TextCall(j, text))
  {
    hide CodeDown, ButtonDown, PauseDown, Typing;
    TypingPressesNothing(j.events, text);
  }

  lemma ButtonCallKeepsKeys(j: Injector, index: nat, down: bool)
    ensures SameKeys(j, ButtonCall(j, index, down))
  {
    hide WithBit, CodeDown, ButtonDown, PauseDown;
    if index <= 4 {
      OneMore(j.events, Pressed(index, down));
    }
  }

  lemma {:induction false} ButtonCallsKeepKeys(j: Injector, was: bv8, mask: bv8, n: nat)
    requires n <= 5
    ensures SameKeys(j, ButtonCalls(j, was, mask, n))
  {
    hide Bit, ButtonCall;
    if n > 0 {
      ButtonCallsKeepKeys(j, was, mask, n - 1);
      ButtonCallKeepsKeys(ButtonCalls(j, was, mask, n - 1), n - 1, Bit(mask, n - 1));
    }
  }

  lemma SameKeysAgree(s: Session, r: Session, table: ScanTable)
    requires KeysAgree(s, table) && SameKeys(s.injector, r.injector) && s.keys == r.keys && s.keyCalls == r.keyCalls
    ensures KeysAgree(r, table)
  {
    hide Alternating, Replayed, Held;
  }

  lemma ButtonsAppliedKeepKeys(s: Session, mask: bv8)
    ensures var r := ButtonsApplied(s, mask);
      SameKeys(s.injector, r.injector) && s.keys == r.keys && s.keyCalls == r.keyCalls
  {
    hide ButtonCalls;
    ButtonCallsKeepKeys(s.injector, s.buttons, mask, 5);
  }

  lemma ScrolledKeepsKeys(j: Injector, dx: int, dy: int)
    ensures SameKeys(j, Scrolled(j, dx, dy))
  {
    SentKeepsKeys(j, Scroll(0, dy));
    SentKeepsKeys(j, Scroll(dx, 0));
    SentKeepsKeys(Sent(j, Scroll(0, dy)), Scroll(dx, 0));
  }

  // The state of all keys that a message carries, if it does.
  predicate CarriesKeys(m: Wire.Message) { m.Key? || m.Sync? }

  lemma HandledKeepsKeys(s: Session, table: ScanTable, m: Wire.Message)
    requires KeysAgree(s, table) && !CarriesKeys(m)
    ensures KeysAgree(Handled(s, table, m), table) && Handled(s, table, m).keys == s.keys
  {
    hide KeysAgree, ButtonsApplied, ButtonCall, Scrolled;
    var r := Handled(s, table, m);
    assert SameKeys(s.injector, r.injector) && s.keyCalls == r.keyCalls && s.keys == r.keys by {
      match m
      case MoveAbs(n, ts, x, y, buttons) =>
        ButtonsAppliedKeepKeys(Noted(s, n, ts), buttons);
        SentKeepsKeys(ButtonsApplied(Noted(s, n, ts), buttons).injector, Pointer(x, y));
      case MoveRel(n, ts, dx, dy, buttons) =>
        ButtonsAppliedKeepKeys(Noted(s, n, ts), buttons);
        SentKeepsKeys(ButtonsApplied(Noted(s, n, ts), buttons).injector, Motion(dx, dy));
      case Button(n, ts, index, down, buttons) => ButtonCallKeepsKeys(s.injector, index, down);
      case Wheel(n, ts, dx, dy) => ScrolledKeepsKeys(s.injector, dx, dy);
      case Text(_, text) => TextKeepsKeys(s.injector, text);
      case Ping(_, _) =>
    }
    SameKeysAgree(s, r, table);
  }

  // Whatever the session was sent, its bitmap, its calls, the held keys and the system agree.
  lemma {:induction false} KeysAlwaysAgree(table: ScanTable, packets: seq<seq<Byte>>)
    ensures KeysAgree(After(table, packets), table)
  {
    hide KeysAgree, Handled, Reading;
    if packets == [] {
      OpenedAgrees(table);
    } else {
      var s, p := After(table, packets[..|packets| - 1]), packets[|packets| - 1];
      KeysAlwaysAgree(table, packets[..|packets| - 1]);
      if Reading(p).Decoded? {
        if CarriesKeys(Reading(p).message) {
          SnapshotApplied(s, table, Reading(p).message);
        } else {
          HandledKeepsKeys(s, table, Reading(p).message);
        }
      }
    }
  }

  lemma OpenedAgrees(table: ScanTable)
    ensures KeysAgree(OPENED, table)
  {
    forall u: nat ensures !Held(NoKeys(), u) {
      if u < USAGES {
        assert NoKeys()[u / 8] == 0;
        NothingSet(u % 8);
      }
    }
  }

  // A key-carrying message makes the session's state its own, whatever went before.
  lemma SnapshotApplied(s: Session, table: ScanTable, m: Wire.Message)
    requires KeysAgree(s, table) && CarriesKeys(m)
    ensures KeysAgree(Handled(s, table, m), table) && Handled(s, table, m).keys == m.state
  {
    hide KeysAgree, KeysApplied, ButtonsApplied;
    var noted := Noted(s, m.seqNo, m.ts);
    NotedKeepsAgreement(s, table, m.seqNo, m.ts);
    KeysAppliedAgree(noted, table, m.state);
    var applied := KeysApplied(noted, table, m.state);
    AppliedKeys(noted, table, m.state);
    if m.Sync? {
      ButtonsAppliedKeepKeys(applied, m.buttons);
      SameKeysAgree(applied, ButtonsApplied(applied, m.buttons), table);
    }
  }

  lemma NotedKeepsAgreement(s: Session, table: ScanTable, n: nat, ts: nat)
    requires KeysAgree(s, table)
    ensures KeysAgree(Noted(s, n, ts), table)
  {
    hide Matches, Alternating, Replayed;
  }

  lemma AppliedKeys(s: Session, table: ScanTable, next: Bitmap)
    ensures KeysApplied(s, table, next).keys == next
  {
    hide KeyCalls;
  }

  // Self-healing: after any packets at all, handling one that carries the key state leaves the
  // bitmap, the replay of every call ever made, the held keys and the system's view of every
  // key with a scancode of its own at exactly the packet's state; a scancode that usages share
  // follows the last call on any of them.
  lemma SelfHealing(table: ScanTable, before: seq<seq<Byte>>, packet: seq<Byte>)
    requires Reading(packet).Decoded? && CarriesKeys(Reading(packet).message)
    ensures var s := After(table, before + [packet]); var state := Reading(packet).message.state;
      && s.keys == state
      && Replayed(NoKeys(), s.keyCalls) == state
      && (forall u: nat :: u in s.injector.heldKeys <==> Held(state, u) && Scan(table, u) != 0)
      && (forall u: nat | Unshared(table, u) :: CodeDown(s.injector.events, Scan(table, u)) == Held(state, u))
      && (forall c: nat | c != 0 :: CodeDown(s.injector.events, c) == LastOfCode(table, s.keyCalls, c))
  {
    hide Handled, Reading, Alternating, Replayed, Held, Unshared;
    assert (before + [packet])[..|before|] == before;
    KeysAlwaysAgree(table, before);
    SnapshotApplied(After(table, before), table, Reading(packet).message);
  }

  // The direction of the last call on a usage, up if there was none.
  predicate LastDown(calls: seq<Transition>, u: nat) {
    calls != [] &&
    var t := calls[|calls| - 1];
    if t.usage == u then t.down else LastDown(calls[..|calls| - 1], u)
  }

  lemma {:induction false} ReplayHoldsTheLast(calls: seq<Transition>, u: nat)
    requires u < USAGES
    ensures Held(Replayed(NoKeys(), calls), u) == LastDown(calls, u)
  {
    hide Held, WithKey;
    if calls == [] {
      HeldInNone(u);
    } else {
      var n := |calls| - 1;
      ReplayHoldsTheLast(calls[..n], u);
      WithKeySetsOne(Replayed(NoKeys(), calls[..n]), calls[n].usage, calls[n].down, u);
    }
  }

  lemma HeldInNone(u: nat)
    ensures !Held(NoKeys(), u)
  {
    if u < USAGES {
      NothingSet(u % 8);
    }
  }

  // Of each usage the calls go down, up, down, up, and so on: every call turns the last one on
  // its usage around, and the first is down.
  lemma CallsAlternate(table: ScanTable, packets: seq<seq<Byte>>, k: nat)
    requires k < |After(table, packets).keyCalls|
    ensures var c := After(table, packets).keyCalls; c[k].down == !LastDown(c[..k], c[k].usage)
  {
    hide Matches, Held, Replayed, LastDown;
    KeysAlwaysAgree(table, packets);
    var c := After(table, packets).keyCalls;
    ReplayHoldsTheLast(c[..k], c[k].usage);
  }

  // Two usages that share a scancode can disagree with the system: with both held, letting one
  // go lifts the code although the other is still held.
  lemma SharedCodeDisagrees(table: ScanTable, u: nat, v: nat)
    requires u != v && u < USAGES && v < USAGES && Scan(table, u) == Scan(table, v) != 0
    ensures var one := WithKey(NoKeys(), u, true); var both := WithKey(one, v, true);
      var s := KeysApplied(KeysApplied(OPENED, table, both), table, one);
      && Held(s.keys, u) && u in s.injector.heldKeys && !CodeDown(s.injector.events, Scan(table, u))
  {
    hide Held, WithKey, Differences, Replayed, Scan, Alternating;
    var one := WithKey(NoKeys(), u, true);
    var both := WithKey(one, v, true);
    var first := KeysApplied(OPENED, table, both);
    var s := KeysApplied(first, table, one);
    forall w: nat ensures (Held(both, w) <==> w == u || w == v) && (Held(one, w) <==> w == u) {
      WithKeySetsOne(one, v, true, w);
      WithKeySetsOne(NoKeys(), u, true, w);
      HeldInNone(w);
    }
    OpenedAgrees(table);
    KeysAppliedAgree(OPENED, table, both);
    KeysAppliedAgree(first, table, one);
    OnlyDifference(both, one, v);
    var t := Transition(v, false);
    assert [t][..0] == [];
    assert KeyCalls(first.injector, table, [t]) == KeyCall(first.injector, table, v, false);
    OneMore(first.injector.events, KeyCode(Scan(table, v), true));
  }

  // After every run of packets the system sees the usage down just when the session holds it.
  ghost predicate AlwaysSeen(table: ScanTable, u: nat) {
    forall packets: seq<seq<Byte>> ::
      CodeDown(After(table, packets).injector.events, Scan(table, u)) == Held(After(table, packets).keys, u)
  }

  // What a snapshot packet with no buttons does.
  lemma SnapshotPacket(table: ScanTable, before: seq<seq<Byte>>, state: Bitmap)
    requires After(table, before).buttons == 0
    ensures var m := Wire.Sync(0, 0, 0, state);
      && Wire.InRange(m)
      && var r := After(table, before + [Wire.Encode(m)]);
         r.buttons == 0 && r.keys == KeysApplied(After(table, before), table, state).keys
         && r.injector == KeysApplied(After(table, before), table, state).injector
  {
    var m := Wire.Sync(0, 0, 0, state);
    ReadsWhatWasWritten(m);
    hide Reading, Wire.Encode, KeyCalls, Differences;
    assert (before + [Wire.Encode(m)])[..|before|] == before;
  }

  // A usage with a scancode is always seen as it is held exactly if no other usage has its code.
  lemma SeenExactly(table: ScanTable, u: nat)
    requires u < USAGES && Scan(table, u) != 0
    ensures AlwaysSeen(table, u) <==> Unshared(table, u)
  {
    hide Held, WithKey, Scan;
    if Unshared(table, u) {
      forall packets: seq<seq<Byte>>
        ensures CodeDown(After(table, packets).injector.events, Scan(table, u)) == Held(After(table, packets).keys, u)
      {
        hide After, Replayed, Alternating, LastCallRules;
        KeysAlwaysAgree(table, packets);
      }
    } else {
      var v: nat :| v != u && Scan(table, v) == Scan(table, u);
      assert v < USAGES by { NoCodePastTheEnd(table, v); }
      var one := WithKey(NoKeys(), u, true);
      var both := WithKey(one, v, true);
      var packets := TwoSnapshots(table, both, one);
      SharedCodeDisagrees(table, u, v);
    }
  }

  lemma NoCodePastTheEnd(table: ScanTable, v: nat)
    ensures Scan(table, v) != 0 ==> v < USAGES
  {
  }

  lemma TwoSnapshots(table: ScanTable, a: Bitmap, b: Bitmap) returns (packets: seq<seq<Byte>>)
    ensures var s := KeysApplied(KeysApplied(OPENED, table, a), table, b); var r := After(table, packets);
      r.keys == s.keys && r.injector == s.injector
  {
    hide Wire.Encode, KeyCalls, Differences, Wire.InRange;
    assert After(table, []) == OPENED;
    SnapshotPacket(table, [], a);
    var one := [] + [Wire.Encode(Wire.Sync(0, 0, 0, a))];
    SnapshotPacket(table, one, b);
    packets := one + [Wire.Encode(Wire.Sync(0, 0, 0, b))];
  }

  // Bitmaps that differ on one key lead from one to the other in one step.
  lemma OnlyDifference(a: Bitmap, b: Bitmap, v: nat)
    requires v < USAGES && forall w: nat :: Held(a, w) != Held(b, w) <==> w == v
    ensures Differences(a, b, USAGES) == [Transition(v, Held(b, v))]
  {
    hide Held, Differences;
    var d := Differences(a, b, USAGES);
    DifferencesAreExact(a, b, USAGES);
    var t := Transition(v, Held(b, v));
    assert t in d;
    assert forall i | 0 <= i < |d| :: d[i] in d && d[i] == t;
    assert |d| > 1 ==> d[0].usage < d[1].usage;
  }
}
