/** The agent's input injector: what it has pressed, what it tells the operating system, and
    letting go of everything.

    `Injector` is the value of one injector with the list of events it has sent; the table
    of scancodes is a parameter, so that what is proved holds for every table. */
module Injectors {
  import opened Bytes
  import opened KeyBitmaps
  import opened Texts

  // One scancode per usage, zero for none; Pause has none and goes through a virtual key.
  type ScanTable = s: seq<nat> | |s| == 256 && s[PAUSE] == 0 witness seq(256, _ => 0)
  const PAUSE: nat := 0x48

  datatype OsEvent =
    | KeyCode(code: nat, up: bool)
    | PauseKey(up: bool)
    | Pressed(button: nat, down: bool)
    | Pointer(x: int, y: int)
    | Motion(dx: int, dy: int)
    | Scroll(dx: int, dy: int)
    | Unicode(unit: Unit, up: bool)

  datatype Injector = Injector(heldKeys: set<nat>, heldButtons: bv8, events: seq<OsEvent>)

  const UNTOUCHED := Injector({}, 0, [])

  function Scan(table: ScanTable, usage: nat): nat {
    if usage < 256 then table[usage] else 0
  }

  function Sent(j: Injector, e: OsEvent): Injector { j.(events := j.events + [e]) }

  // ------------------------------------------------------------------- one call

  function KeyCall(j: Injector, table: ScanTable, usage: nat, down: bool): Injector {
    var code := Scan(table, usage);
    if code == 0 then (if usage == PAUSE then Sent(j, PauseKey(!down)) else j)
    else
      Sent(j.(heldKeys := if down then j.heldKeys + {usage} else j.heldKeys - {usage}), KeyCode(code, !down))
  }

  function ButtonCall(j: Injector, index: nat, down: bool): Injector {
    if index > 4 then j
    else Sent(j.(heldButtons := WithBit(j.heldButtons, index, down)), Pressed(index, down))
  }

  function KeyReleases(table: ScanTable, usages: seq<nat>): seq<OsEvent> {
    if usages == [] then []
    else
      var u := usages[|usages| - 1];
      KeyReleases(table, usages[..|usages| - 1]) + if Scan(table, u) == 0 then [] else [KeyCode(Scan(table, u), true)]
  }

  function ButtonReleases(held: bv8, n: nat): seq<OsEvent>
    requires n <= 5
  {
    if n == 0 then []
    else ButtonReleases(held, n - 1) + if Bit(held, n - 1) then [Pressed(n - 1, false)] else []
  }

  // Every unit pressed and let go as a character of its own.
  function Keystrokes(units: seq<Unit>): seq<OsEvent> {
    if units == [] then []
    else
      var u := units[|units| - 1];
      Keystrokes(units[..|units| - 1]) + [Unicode(u, false), Unicode(u, true)]
  }

  // What is typed for the bytes of a text; one with a zero byte in it is not converted.
  function Typing(text: seq<Byte>): seq<OsEvent> {
    if 0 in text then [] else Keystrokes(Units(text))
  }

  const BATCH: nat := 64

  lemma NoKeystrokes()
    ensures Keystrokes([]) == []
  {
  }

  lemma NothingTyped(text: seq<Byte>)
    requires text == [] || 0 in text
    ensures Typing(text) == []
  {
  }

  // Every unit goes down and comes up, in its turn.
  lemma {:induction false} KeystrokesAt(units: seq<Unit>)
    ensures |Keystrokes(units)| == 2 * |units|
    ensures forall k | 0 <= k < |units| ::
      Keystrokes(units)[2 * k] == Unicode(units[k], false) && Keystrokes(units)[2 * k + 1] == Unicode(units[k], true)
  {
    if units != [] {
      KeystrokesAt(units[..|units| - 1]);
    }
  }

  // Different texts are typed differently.
  lemma {:induction false} KeystrokesDiffer(a: seq<Unit>, b: seq<Unit>)
    ensures |Keystrokes(a)| == 2 * |a| && (Keystrokes(a) == Keystrokes(b) ==> a == b)
    decreases |a|
  {
    if a != [] && b != [] {
      var x, y := a[..|a| - 1], b[..|b| - 1];
      KeystrokesDiffer(x, y);
      var n := |Keystrokes(a)|;
      if Keystrokes(a) == Keystrokes(b) {
        assert Keystrokes(a)[n - 2] == Keystrokes(b)[n - 2] && Keystrokes(a)[..n - 2] == Keystrokes(b)[..n - 2];
        assert Keystrokes(a)[..n - 2] == Keystrokes(x) && Keystrokes(b)[..n - 2] == Keystrokes(y);
        assert a == x + [a[|a| - 1]] && b == y + [b[|b| - 1]];
      }
    } else if a != [] {
      KeystrokesDiffer(a[..|a| - 1], []);
    }
  }

  lemma OneMoreKeystroke(units: seq<Unit>, k: nat)
    requires k < |units|
    ensures Keystrokes(units[..k + 1]) == Keystrokes(units[..k]) + [Unicode(units[k], false), Unicode(units[k], true)]
  {
    assert units[..k + 1][..k] == units[..k];
  }

  function TextCall(j: Injector, text: seq<Byte>): Injector { j.(events := j.events + Typing(text)) }

  // `order` is the order in which the held keys are walked.
  function Released(j: Injector, table: ScanTable, order: seq<nat>): Injector {
    Injector({}, 0, j.events + KeyReleases(table, order) + ButtonReleases(j.heldButtons, 5))
  }

  ghost predicate Listing(order: seq<nat>, keys: set<nat>) {
    && (forall i, j | 0 <= i < j < |order| :: order[i] != order[j])
    && (forall u :: u in order <==> u in keys)
  }

  // ------------------------------------------------------------ the mutable object

  class WindowsInjector {
    var heldKeys: set<nat>
    var heldButtons: bv8
    var events: seq<OsEvent>
    const table: ScanTable

    constructor (table: ScanTable)
      ensures State() == UNTOUCHED && this.table == table
    {
      heldKeys, heldButtons, events, this.table := {}, 0, [], table;
    }

    function State(): Injector
      reads this
    {
      Injector(heldKeys, heldButtons, events)
    }

    method Send(e: OsEvent)
      modifies this`events
      ensures State() == Sent(old(State()), e)
    {
      events := events + [e];
    }

    method Key(usage: nat, down: bool)
      modifies this
      ensures State() == KeyCall(old(State()), table, usage, down)
    {
      var code := Scan(table, usage);
      if code == 0 {
        if usage == PAUSE {
          Send(PauseKey(!down));
        }
        return;
      }
      if down {
        heldKeys := heldKeys + {usage};
      } else {
        heldKeys := heldKeys - {usage};
      }
      Send(KeyCode(code, !down));
    }

    method MouseButton(index: nat, down: bool)
      modifies this
      ensures State() == ButtonCall(old(State()), index, down)
    {
      hide Mask, WithBit;
      if index > 4 {
        return;
      }
      heldButtons := BitSet(heldButtons, index, down);
      Send(Pressed(index, down));
    }

    // Types a text in batches of 64 units.
    method TypeText(text: seq<Byte>)
      modifies this`events
      ensures State() == TextCall(old(State()), text)
    {
      hide Units, Keystrokes;
      if text == [] || 0 in text {
        NothingTyped(text);
        return;
      }
      var units := Units(text);
      var start := 0;
      assert events == events + Keystrokes(units[..0]) by { NoKeystrokes(); }
      while start < |units|
        invariant start <= |units| && events == old(events) + Keystrokes(units[..start])
      {
        var end := if start + BATCH > |units| then |units| else start + BATCH;
        var inputs := [];
        for k := start to end
          invariant events + inputs == old(events) + Keystrokes(units[..k])
        {
          OneMoreKeystroke(units, k);
          var both := [Unicode(units[k], false), Unicode(units[k], true)];
          assert events + (inputs + both) == events + inputs + both;
          assert old(events) + (Keystrokes(units[..k]) + both) == old(events) + Keystrokes(units[..k]) + both;
          inputs := inputs + both;
        }
        events := events + inputs;
        start := end;
      }
      assert units[..|units|] == units;
    }

    method ReleaseAll() returns (order: seq<nat>)
      modifies this
      ensures Listing(order, old(heldKeys)) && State() == Released(old(State()), table, order)
    {
      order := [];
      var todo := heldKeys;
      while todo != {}
        invariant todo <= heldKeys == old(heldKeys) && Listing(order, heldKeys - todo)
      {
        var u :| u in todo;
        todo := todo - {u};
        order := order + [u];
      }
      var buttons := heldButtons;
      heldKeys := {};
      heldButtons := 0;
      var inputs := [];
      for i := 0 to |order|
        invariant inputs == KeyReleases(table, order[..i])
      {
        assert order[..i + 1][..i] == order[..i];
        var code := Scan(table, order[i]);
        if code != 0 {
          inputs := inputs + [KeyCode(code, true)];
        }
      }
      assert order[..|order|] == order;
      ghost var keyInputs := inputs;
      for index := 0 to 5
        invariant inputs == keyInputs + ButtonReleases(buttons, index)
      {
        if buttons & Mask(index) == 0 {
          continue;
        }
        inputs := inputs + [Pressed(index, false)];
      }
      events := events + inputs;
    }
  }

  // --------------------------------------------------- what the system sees as down

  predicate CodeDown(events: seq<OsEvent>, code: nat) {
    events != [] &&
    var e := events[|events| - 1];
    if e.KeyCode? && e.code == code then !e.up else CodeDown(events[..|events| - 1], code)
  }

  predicate ButtonDown(events: seq<OsEvent>, index: nat) {
    events != [] &&
    var e := events[|events| - 1];
    if e.Pressed? && e.button == index then e.down else ButtonDown(events[..|events| - 1], index)
  }

  predicate PauseDown(events: seq<OsEvent>) {
    events != [] &&
    var e := events[|events| - 1];
    if e.PauseKey? then !e.up else PauseDown(events[..|events| - 1])
  }

  lemma OneMore(events: seq<OsEvent>, e: OsEvent)
    ensures forall c: nat ::
      CodeDown(events + [e], c) == if e.KeyCode? && e.code == c then !e.up else CodeDown(events, c)
    ensures forall i: nat ::
      ButtonDown(events + [e], i) == if e.Pressed? && e.button == i then e.down else ButtonDown(events, i)
    ensures PauseDown(events + [e]) == if e.PauseKey? then !e.up else PauseDown(events)
  {
    assert (events + [e])[..|events|] == events;
  }

  // Whatever the system sees as down is being tracked.
  ghost predicate Tracked(j: Injector, table: ScanTable) {
    && (forall u <- j.heldKeys :: Scan(table, u) != 0)
    && (forall c: nat | CodeDown(j.events, c) :: exists u <- j.heldKeys :: Scan(table, u) == c)
    && (forall i | 0 <= i < 5 :: ButtonDown(j.events, i) == Bit(j.heldButtons, i))
    && (forall i: nat | i >= 5 :: !ButtonDown(j.events, i))
  }

  datatype Call =
    | KeyOf(usage: nat, down: bool)
    | ButtonOf(index: nat, down: bool)
    | ReleaseOf(order: seq<nat>)
    | TextOf(text: seq<Byte>)
    | OtherOf(event: OsEvent)

  ghost predicate Possible(j: Injector, c: Call) {
    match c
    case KeyOf(_, _) => true
    case ButtonOf(_, _) => true
    case ReleaseOf(order) => Listing(order, j.heldKeys)
    case TextOf(_) => true
    case OtherOf(e) => e.Pointer? || e.Motion? || e.Scroll?
  }

  function Called(j: Injector, table: ScanTable, c: Call): Injector {
    match c
    case KeyOf(usage, down) => KeyCall(j, table, usage, down)
    case ButtonOf(index, down) => ButtonCall(j, index, down)
    case ReleaseOf(order) => Released(j, table, order)
    case TextOf(text) => TextCall(j, text)
    case OtherOf(e) => Sent(j, e)
  }

  lemma KeyCallKeepsTracked(j: Injector, table: ScanTable, usage: nat, down: bool)
    requires Tracked(j, table)
    ensures Tracked(KeyCall(j, table, usage, down), table)
  {
    hide CodeDown, ButtonDown, PauseDown, Bit, Scan;
    var code := Scan(table, usage);
    if code == 0 {
      OneMore(j.events, PauseKey(!down));
    } else {
      OneMore(j.events, KeyCode(code, !down));
      var keys := if down then j.heldKeys + {usage} else j.heldKeys - {usage};
      var after := j.events + [KeyCode(code, !down)];
      forall c: nat | CodeDown(after, c) ensures exists u <- keys :: Scan(table, u) == c {
        if c == code {
          assert usage in keys;
        } else {
          var u :| u in j.heldKeys && Scan(table, u) == c;
          assert u in keys;
        }
      }
    }
  }

  lemma ButtonCallKeepsTracked(j: Injector, table: ScanTable, index: nat, down: bool)
    requires Tracked(j, table)
    ensures Tracked(ButtonCall(j, index, down), table)
  {
    if index <= 4 {
      OneMore(j.events, Pressed(index, down));
      forall i | 0 <= i < 5
        ensures Bit(WithBit(j.heldButtons, index, down), i) == if i == index then down else Bit(j.heldButtons, i)
      {
        WithBitSetsOne(j.heldButtons, index, down, i);
      }
    }
  }

  // A batch of key releases lifts exactly the codes it names.
  lemma {:induction false} KeyReleasesLift(events: seq<OsEvent>, table: ScanTable, usages: seq<nat>)
    ensures var r := events + KeyReleases(table, usages);
      && (forall c: nat :: CodeDown(r, c) <==> CodeDown(events, c) && c !in Codes(table, usages))
      && (forall i: nat :: ButtonDown(r, i) == ButtonDown(events, i)) && PauseDown(r) == PauseDown(events)
  {
    if usages == [] {
      assert events + [] == events;
    } else {
      var before := usages[..|usages| - 1];
      var u := usages[|usages| - 1];
      KeyReleasesLift(events, table, before);
      var r := events + KeyReleases(table, before);
      if Scan(table, u) != 0 {
        OneMore(r, KeyCode(Scan(table, u), true));
        assert events + KeyReleases(table, usages) == r + [KeyCode(Scan(table, u), true)];
      } else {
        assert events + KeyReleases(table, usages) == r;
      }
    }
  }

  // The codes a batch of releases names.
  function Codes(table: ScanTable, usages: seq<nat>): set<nat> {
    if usages == [] then {}
    else
      Codes(table, usages[..|usages| - 1]) +
      var code := Scan(table, usages[|usages| - 1]); if code == 0 then {} else {code}
  }

  lemma {:induction false} CodeOfMember(table: ScanTable, usages: seq<nat>, u: nat)
    requires u in usages && Scan(table, u) != 0
    ensures Scan(table, u) in Codes(table, usages)
  {
    var n := |usages| - 1;
    assert usages == usages[..n] + [usages[n]];
    if usages[n] != u {
      CodeOfMember(table, usages[..n], u);
    }
  }

  lemma {:induction false} ButtonReleasesLift(events: seq<OsEvent>, held: bv8, n: nat)
    requires n <= 5
    ensures var r := events + ButtonReleases(held, n);
      && (forall i: nat :: ButtonDown(r, i) <==> ButtonDown(events, i) && !(0 <= i < n && Bit(held, i)))
      && (forall c: nat :: CodeDown(r, c) == CodeDown(events, c)) && PauseDown(r) == PauseDown(events)
  {
    if n == 0 {
      assert events + [] == events;
    } else {
      ButtonReleasesLift(events, held, n - 1);
      var r := events + ButtonReleases(held, n - 1);
      if Bit(held, n - 1) {
        OneMore(r, Pressed(n - 1, false));
        assert events + ButtonReleases(held, n) == r + [Pressed(n - 1, false)];
      } else {
        assert events + ButtonReleases(held, n) == r;
      }
    }
  }

  // Letting go leaves nothing tracked and nothing down but, at most, Pause.
  lemma ReleaseAllLiftsEverything(j: Injector, table: ScanTable, order: seq<nat>)
    requires Tracked(j, table) && Listing(order, j.heldKeys)
    ensures var r := Released(j, table, order);
      && r.heldKeys == {} && r.heldButtons == 0 && Tracked(r, table)
      && (forall c: nat :: !CodeDown(r.events, c)) && (forall i: nat :: !ButtonDown(r.events, i))
      && PauseDown(r.events) == PauseDown(j.events)
  {
    KeyReleasesLift(j.events, table, order);
    ButtonReleasesLift(j.events + KeyReleases(table, order), j.heldButtons, 5);
    forall c: nat | CodeDown(j.events, c) ensures c in Codes(table, order) {
      var u :| u in j.heldKeys && Scan(table, u) == c;
      CodeOfMember(table, order, u);
    }
    forall i | 0 <= i < 5 ensures !Bit(0, i) {
      NothingSet(i);
    }
  }

  // One release per tracked key and button, and nothing else.
  lemma {:induction false} ReleasesAreOnePerKey(table: ScanTable, order: seq<nat>)
    requires forall u <- order :: Scan(table, u) != 0
    ensures |KeyReleases(table, order)| == |order|
    ensures forall i | 0 <= i < |order| :: KeyReleases(table, order)[i] == KeyCode(Scan(table, order[i]), true)
  {
    if order != [] {
      var n := |order| - 1;
      ReleasesAreOnePerKey(table, order[..n]);
      assert order[n] in order && forall u <- order[..n] :: u in order;
    }
  }

  lemma {:induction false} ReleasesAreOnePerButton(held: bv8, n: nat)
    requires n <= 5
    ensures var r := ButtonReleases(held, n);
      && (forall e :: e in r <==> e.Pressed? && !e.down && e.button < n && Bit(held, e.button))
      && (forall i, k | 0 <= i < k < |r| :: r[i] in r && r[k] in r && r[i].button < r[k].button)
  {
    hide Bit;
    if n > 0 {
      ReleasesAreOnePerButton(held, n - 1);
      var b := ButtonReleases(held, n - 1);
      assert forall i | 0 <= i < |b| :: b[i] in b;
    }
  }

  function CalledAll(j: Injector, table: ScanTable, calls: seq<Call>): Injector {
    if calls == [] then j else Called(CalledAll(j, table, calls[..|calls| - 1]), table, calls[|calls| - 1])
  }

  ghost predicate AllPossible(table: ScanTable, calls: seq<Call>) {
    forall n | 0 <= n < |calls| :: Possible(CalledAll(UNTOUCHED, table, calls[..n]), calls[n])
  }

  lemma UntouchedTracked(table: ScanTable)
    ensures Tracked(UNTOUCHED, table)
  {
    forall i | 0 <= i < 5 ensures !Bit(0, i) {
      NothingSet(i);
    }
  }

  lemma OtherKeepsTracked(j: Injector, table: ScanTable, e: OsEvent)
    requires Tracked(j, table) && (e.Pointer? || e.Motion? || e.Scroll?)
    ensures Tracked(Sent(j, e), table)
  {
    hide CodeDown, ButtonDown, PauseDown, Bit, Scan;
    OneMore(j.events, e);
  }

  // Typing presses nothing that anyone tracks.
  lemma {:induction false} KeystrokesPressNothing(events: seq<OsEvent>, units: seq<Unit>)
    ensures var r := events + Keystrokes(units);
      && (forall c: nat :: CodeDown(r, c) == CodeDown(events, c))
      && (forall i: nat :: ButtonDown(r, i) == ButtonDown(events, i)) && PauseDown(r) == PauseDown(events)
  {
    hide CodeDown, ButtonDown, PauseDown;
    if units == [] {
      assert events + [] == events;
    } else {
      var n := |units| - 1;
      KeystrokesPressNothing(events, units[..n]);
      var r := events + Keystrokes(units[..n]);
      var down, up := Unicode(units[n], false), Unicode(units[n], true);
      OneMore(r, down);
      OneMore(r + [down], up);
      assert events + Keystrokes(units) == r + [down] + [up];
    }
  }

  lemma TypingPressesNothing(events: seq<OsEvent>, text: seq<Byte>)
    ensures var r := events + Typing(text);
      && (forall c: nat :: CodeDown(r, c) == CodeDown(events, c))
      && (forall i: nat :: ButtonDown(r, i) == ButtonDown(events, i)) && PauseDown(r) == PauseDown(events)
  {
    hide CodeDown, ButtonDown, PauseDown, Units, Keystrokes;
    if 0 in text {
      assert events + [] == events;
    } else {
      KeystrokesPressNothing(events, Units(text));
    }
  }

  lemma TextKeepsTracked(j: Injector, table: ScanTable, text: seq<Byte>)
    requires Tracked(j, table)
    ensures Tracked(TextCall(j, text), table)
  {
    hide CodeDown, ButtonDown, PauseDown, Bit, Scan, Typing;
    TypingPressesNothing(j.events, text);
  }

  // After any history of calls whatever is down is tracked.
  lemma {:induction false} AlwaysTracked(table: ScanTable, calls: seq<Call>)
    requires AllPossible(table, calls)
    ensures Tracked(CalledAll(UNTOUCHED, table, calls), table)
  {
    hide Tracked, KeyCall, ButtonCall, Released, Listing;
    if calls == [] {
      UntouchedTracked(table);
    } else {
      var n := |calls| - 1;
      assert forall k | 0 <= k < n :: calls[..n][..k] == calls[..k];
      AlwaysTracked(table, calls[..n]);
      var j := CalledAll(UNTOUCHED, table, calls[..n]);
      assert Possible(j, calls[n]);
      match calls[n]
      case KeyOf(usage, down) => KeyCallKeepsTracked(j, table, usage, down);
      case ButtonOf(index, down) => ButtonCallKeepsTracked(j, table, index, down);
      case ReleaseOf(order) => ReleaseAllLiftsEverything(j, table, order);
      case TextOf(text) => TextKeepsTracked(j, table, text);
      case OtherOf(e) => OtherKeepsTracked(j, table, e);
    }
  }

  // So from any history, letting go of everything leaves at most Pause down.
  lemma ReleaseAfterAnyHistory(table: ScanTable, calls: seq<Call>, order: seq<nat>)
    requires AllPossible(table, calls + [ReleaseOf(order)])
    ensures var j := CalledAll(UNTOUCHED, table, calls); var r := Called(j, table, ReleaseOf(order));
      && r.heldKeys == {} && r.heldButtons == 0
      && (forall c: nat :: !CodeDown(r.events, c)) && (forall i: nat :: !ButtonDown(r.events, i))
      && PauseDown(r.events) == PauseDown(j.events)
  {
    var all := calls + [ReleaseOf(order)];
    assert forall k | 0 <= k <= |calls| :: all[..k] == calls[..k];
    assert calls[..|calls|] == calls && all[|calls|] == ReleaseOf(order);
    assert AllPossible(table, calls) by {
      forall n | 0 <= n < |calls| ensures Possible(CalledAll(UNTOUCHED, table, calls[..n]), calls[n]) {
        assert all[n] == calls[n];
      }
    }
    AlwaysTracked(table, calls);
    assert Possible(CalledAll(UNTOUCHED, table, all[..|calls|]), all[|calls|]);
    ReleaseAllLiftsEverything(CalledAll(UNTOUCHED, table, calls), table, order);
  }

  // ------------------------------------------------------------------------- Pause

  // The direction of the last call on Pause, up if there was none.
  predicate PauseLast(calls: seq<Call>) {
    calls != [] &&
    var c := calls[|calls| - 1];
    if c.KeyOf? && c.usage == PAUSE then c.down else PauseLast(calls[..|calls| - 1])
  }

  lemma PauseCalled(j: Injector, table: ScanTable, c: Call)
    requires Possible(j, c)
    ensures PauseDown(Called(j, table, c).events)
      == if c.KeyOf? && c.usage == PAUSE then c.down else PauseDown(j.events)
  {
    hide CodeDown, ButtonDown, PauseDown, WithBit;
    match c
    case KeyOf(usage, down) =>
      OneMore(j.events, PauseKey(!down));
      OneMore(j.events, KeyCode(Scan(table, usage), !down));
    case ButtonOf(index, down) => OneMore(j.events, Pressed(index, down));
    case ReleaseOf(order) =>
      KeyReleasesLift(j.events, table, order);
      ButtonReleasesLift(j.events + KeyReleases(table, order), j.heldButtons, 5);
    case TextOf(text) => TypingPressesNothing(j.events, text);
    case OtherOf(e) => OneMore(j.events, e);
  }

  // After any history, letting go included, Pause is down exactly if its own last call was.
  lemma {:induction false} PauseFollowsItsCalls(table: ScanTable, calls: seq<Call>)
    requires AllPossible(table, calls)
    ensures PauseDown(CalledAll(UNTOUCHED, table, calls).events) == PauseLast(calls)
  {
    hide Called, PauseDown, Possible;
    if calls != [] {
      var n := |calls| - 1;
      assert forall k | 0 <= k < n :: calls[..n][..k] == calls[..k];
      PauseFollowsItsCalls(table, calls[..n]);
      assert Possible(CalledAll(UNTOUCHED, table, calls[..n]), calls[n]);
      PauseCalled(CalledAll(UNTOUCHED, table, calls[..n]), table, calls[n]);
    } else {
      NoPause();
    }
  }

  lemma NoPause()
    ensures !PauseDown([])
  {
  }

  // Pressed and never released, it is down after everything has been let go.
  lemma PauseStaysDown(table: ScanTable)
    ensures var calls := [KeyOf(PAUSE, true), ReleaseOf([])];
      AllPossible(table, calls) && PauseDown(CalledAll(UNTOUCHED, table, calls).events)
  {
    var calls := [KeyOf(PAUSE, true), ReleaseOf([])];
    assert calls[..1] == [calls[0]] && [calls[0]][..0] == [];
    assert CalledAll(UNTOUCHED, table, []) == UNTOUCHED;
    assert CalledAll(UNTOUCHED, table, [calls[0]]) == Called(UNTOUCHED, table, calls[0]);
    assert AllPossible(table, calls) by {
      forall n | 0 <= n < |calls| ensures Possible(CalledAll(UNTOUCHED, table, calls[..n]), calls[n]) {
        assert n == 0 || calls[..n] == [calls[0]];
      }
    }
    PauseFollowsItsCalls(table, calls);
    assert PauseLast([calls[0]]);
  }
}
