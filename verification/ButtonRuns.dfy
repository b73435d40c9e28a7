/** What holds of one session's mouse buttons and sequence numbers after any packets, and of
    letting everything go at the end. */
module ButtonRuns {
  import opened Bytes
  import opened Injectors
  import opened InputSession
  import opened KeyBitmaps
  import InputRuns
  import Wire

  const BUTTONS: nat := 5

  ghost predicate SameLow(a: bv8, b: bv8) {
    forall i: nat | i < BUTTONS :: Bit(a, i) == Bit(b, i)
  }

  // The buttons the injector holds are those of the session's mask.
  ghost predicate ButtonsAgree(s: Session) { SameLow(s.injector.heldButtons, s.buttons) }

  // A button packet fits the mask before it if its own mask is that one with the button set
  // as it says; any other message fits.
  ghost predicate Coherent(was: bv8, m: Wire.Message) {
    m.Button? ==> SameLow(m.buttons, if m.index < BUTTONS then WithBit(was, m.index, m.down) else was)
  }

  // ----------------------------------------------------------------- one message

  lemma ButtonCallSets(j: Injector, index: nat, down: bool, i: nat)
    requires i < BUTTONS
    ensures Bit(ButtonCall(j, index, down).heldButtons, i) == if i == index then down else Bit(j.heldButtons, i)
  {
    if index < BUTTONS {
      WithBitSetsOne(j.heldButtons, index, down, i);
    }
  }

  lemma {:induction false} ButtonCallsCopy(j: Injector, was: bv8, mask: bv8, n: nat, i: nat)
    requires n <= BUTTONS && i < BUTTONS && Bit(j.heldButtons, i) == Bit(was, i)
    ensures Bit(ButtonCalls(j, was, mask, n).heldButtons, i) == if i < n then Bit(mask, i) else Bit(was, i)
  {
    hide Bit, ButtonCall;
    if n > 0 {
      ButtonCallsCopy(j, was, mask, n - 1, i);
      ButtonCallSets(ButtonCalls(j, was, mask, n - 1), n - 1, Bit(mask, n - 1), i);
    }
  }

  lemma {:induction false} KeyCallsKeepButtons(j: Injector, table: ScanTable, ts: seq<Transition>)
    ensures KeyCalls(j, table, ts).heldButtons == j.heldButtons
  {
    hide Scan;
    if ts != [] {
      KeyCallsKeepButtons(j, table, ts[..|ts| - 1]);
    }
  }

  lemma ButtonsAppliedAgree(s: Session, mask: bv8)
    requires ButtonsAgree(s)
    ensures ButtonsAgree(ButtonsApplied(s, mask)) && ButtonsApplied(s, mask).buttons == mask
  {
    hide Bit, ButtonCalls;
    forall i: nat | i < BUTTONS
      ensures Bit(ButtonCalls(s.injector, s.buttons, mask, 5).heldButtons, i) == Bit(mask, i)
    {
      ButtonCallsCopy(s.injector, s.buttons, mask, 5, i);
    }
  }

  // Agreement survives a message just when the message fits the mask before it.
  lemma AgreementSurvives(s: Session, table: ScanTable, m: Wire.Message)
    requires ButtonsAgree(s)
    ensures ButtonsAgree(Handled(s, table, m)) <==> Coherent(s.buttons, m)
  {
    hide Bit, ButtonsApplied, KeyCalls, WithBit, Differences;
    match m
    case MoveAbs(n, ts, _, _, buttons) => ButtonsAppliedAgree(Noted(s, n, ts), buttons);
    case MoveRel(n, ts, _, _, buttons) => ButtonsAppliedAgree(Noted(s, n, ts), buttons);
    case Sync(n, ts, buttons, state) =>
      var noted := Noted(s, n, ts);
      KeyCallsKeepButtons(noted.injector, table, Differences(noted.keys, state, USAGES));
      ButtonsAppliedAgree(KeysApplied(noted, table, state), buttons);
    case Key(n, ts, _, _, state) =>
      var noted := Noted(s, n, ts);
      KeyCallsKeepButtons(noted.injector, table, Differences(noted.keys, state, USAGES));
    case Button(n, ts, index, down, buttons) => ButtonFits(s, index, down, buttons);
    case Wheel(_, _, _, _) =>
    case Ping(_, _) =>
    case Text(_, _) =>
  }

  lemma ButtonFits(s: Session, index: nat, down: bool, mask: bv8)
    requires ButtonsAgree(s)
    ensures SameLow(ButtonCall(s.injector, index, down).heldButtons, mask)
      <==> SameLow(mask, if index < BUTTONS then WithBit(s.buttons, index, down) else s.buttons)
  {
    hide Bit, ButtonCall, WithBit;
    var held := ButtonCall(s.injector, index, down).heldButtons;
    var want := if index < BUTTONS then WithBit(s.buttons, index, down) else s.buttons;
    forall i: nat | i < BUTTONS ensures Bit(held, i) == Bit(want, i) {
      ButtonCallSets(s.injector, index, down, i);
      if index < BUTTONS {
        WithBitSetsOne(s.buttons, index, down, i);
      }
    }
  }

  // ------------------------------------------------------------------ whole runs

  ghost predicate AllCoherent(table: ScanTable, packets: seq<seq<Byte>>) {
    forall n | 0 <= n < |packets| ::
      Reading(packets[n]).Decoded? ==>
        Coherent(InputRuns.After(table, packets[..n]).buttons, Reading(packets[n]).message)
  }

  // Held buttons equal the mask through every run whose button packets fit.
  lemma {:induction false} CoherentRunsAgree(table: ScanTable, packets: seq<seq<Byte>>)
    requires AllCoherent(table, packets)
    ensures ButtonsAgree(InputRuns.After(table, packets))
  {
    hide Handled, Reading, Bit, Coherent;
    if packets != [] {
      var n := |packets| - 1;
      assert forall k | 0 <= k < n :: packets[..n][..k] == packets[..k];
      CoherentRunsAgree(table, packets[..n]);
      if Reading(packets[n]).Decoded? {
        AgreementSurvives(InputRuns.After(table, packets[..n]), table, Reading(packets[n]).message);
      }
    }
  }

  // At every moment of the run the held buttons are those of the mask.
  ghost predicate AgreesThroughout(table: ScanTable, packets: seq<seq<Byte>>) {
    forall n | 0 <= n <= |packets| :: ButtonsAgree(InputRuns.After(table, packets[..n]))
  }

  lemma OnePacketAgrees(table: ScanTable, packets: seq<seq<Byte>>, n: nat)
    requires n < |packets| && ButtonsAgree(InputRuns.After(table, packets[..n]))
    ensures ButtonsAgree(InputRuns.After(table, packets[..n + 1])) <==>
      (Reading(packets[n]).Decoded? ==>
         Coherent(InputRuns.After(table, packets[..n]).buttons, Reading(packets[n]).message))
  {
    hide Handled, Reading, Bit, Coherent, ButtonsAgree;
    assert packets[..n + 1][..n] == packets[..n] && packets[..n + 1][n] == packets[n];
    if Reading(packets[n]).Decoded? {
      AgreementSurvives(InputRuns.After(table, packets[..n]), table, Reading(packets[n]).message);
    }
  }

  // They are through exactly the runs whose button packets fit.
  lemma AgreesThroughoutExactly(table: ScanTable, packets: seq<seq<Byte>>)
    ensures AgreesThroughout(table, packets) <==> AllCoherent(table, packets)
  {
    hide Reading, Coherent, ButtonsAgree, InputRuns.After;
    if AllCoherent(table, packets) {
      forall n | 0 <= n <= |packets| ensures ButtonsAgree(InputRuns.After(table, packets[..n])) {
        assert forall k | 0 <= k < n :: packets[..n][..k] == packets[..k] && packets[..n][k] == packets[k];
        CoherentRunsAgree(table, packets[..n]);
      }
    }
    if AgreesThroughout(table, packets) {
      forall n | 0 <= n < |packets| && Reading(packets[n]).Decoded?
        ensures Coherent(InputRuns.After(table, packets[..n]).buttons, Reading(packets[n]).message)
      {
        OnePacketAgrees(table, packets, n);
      }
    }
  }

  // And so does what the system sees, for every button.
  lemma SystemSeesTheMask(table: ScanTable, packets: seq<seq<Byte>>, i: nat)
    requires AllCoherent(table, packets) && i < BUTTONS
    ensures var s := InputRuns.After(table, packets); ButtonDown(s.injector.events, i) == Bit(s.buttons, i)
  {
    hide Bit, ButtonDown, CodeDown, AllCoherent;
    CoherentRunsAgree(table, packets);
    AlwaysTracked(table, packets);
  }

  // -------------------------------------------------------------- a lost release

  // Nothing the message does touches button `i`, and the client says it is up.
  ghost predicate Silent(m: Wire.Message, i: nat)
    requires i < BUTTONS
  {
    match m
    case MoveAbs(_, _, _, _, buttons) => !Bit(buttons, i)
    case MoveRel(_, _, _, _, buttons) => !Bit(buttons, i)
    case Button(_, _, index, _, buttons) => index != i && !Bit(buttons, i)
    case Sync(_, _, buttons, _) => !Bit(buttons, i)
    case _ => true
  }

  // The injector holds it while the session has it up.
  predicate Stuck(s: Session, i: nat)
    requires i < BUTTONS
  {
    Bit(s.injector.heldButtons, i) && !Bit(s.buttons, i)
  }

  lemma {:induction false} ButtonCallsPass(j: Injector, was: bv8, mask: bv8, n: nat, i: nat)
    requires n <= BUTTONS && i < BUTTONS && Bit(was, i) == Bit(mask, i)
    ensures Bit(ButtonCalls(j, was, mask, n).heldButtons, i) == Bit(j.heldButtons, i)
  {
    hide Bit, ButtonCall;
    if n > 0 {
      ButtonCallsPass(j, was, mask, n - 1, i);
      if Bit(was, n - 1) != Bit(mask, n - 1) {
        ButtonCallSets(ButtonCalls(j, was, mask, n - 1), n - 1, Bit(mask, n - 1), i);
      }
    }
  }

  lemma ButtonsAppliedStuck(s: Session, mask: bv8, i: nat)
    requires i < BUTTONS && Stuck(s, i) && !Bit(mask, i)
    ensures Stuck(ButtonsApplied(s, mask), i)
  {
    hide Bit, ButtonCalls;
    ButtonCallsPass(s.injector, s.buttons, mask, 5, i);
  }

  lemma SilentKeepsStuck(s: Session, table: ScanTable, m: Wire.Message, i: nat)
    requires i < BUTTONS && Stuck(s, i) && Silent(m, i)
    ensures Stuck(Handled(s, table, m), i)
  {
    hide Bit, ButtonsApplied, KeyCalls, ButtonCall, Differences;
    match m
    case MoveAbs(n, ts, _, _, buttons) => ButtonsAppliedStuck(Noted(s, n, ts), buttons, i);
    case MoveRel(n, ts, _, _, buttons) => ButtonsAppliedStuck(Noted(s, n, ts), buttons, i);
    case Sync(n, ts, buttons, state) =>
      var noted := Noted(s, n, ts);
      KeyCallsKeepButtons(noted.injector, table, Differences(noted.keys, state, USAGES));
      ButtonsAppliedStuck(KeysApplied(noted, table, state), buttons, i);
    case Key(n, ts, _, _, state) =>
      var noted := Noted(s, n, ts);
      KeyCallsKeepButtons(noted.injector, table, Differences(noted.keys, state, USAGES));
    case Button(n, ts, index, down, buttons) => ButtonCallSets(s.injector, index, down, i);
    case Wheel(_, _, _, _) =>
    case Ping(_, _) =>
    case Text(_, _) =>
  }

  function HandledAll(s: Session, table: ScanTable, ms: seq<Wire.Message>): Session {
    if ms == [] then s else Handled(HandledAll(s, table, ms[..|ms| - 1]), table, ms[|ms| - 1])
  }

  lemma {:induction false} StaysStuck(s: Session, table: ScanTable, ms: seq<Wire.Message>, i: nat)
    requires i < BUTTONS && Stuck(s, i) && forall m <- ms :: Silent(m, i)
    ensures Stuck(HandledAll(s, table, ms), i)
  {
    hide Stuck, Silent, Handled;
    if ms != [] {
      var n := |ms| - 1;
      assert ms[n] in ms && forall m <- ms[..n] :: m in ms;
      StaysStuck(s, table, ms[..n], i);
      SilentKeepsStuck(HandledAll(s, table, ms[..n]), table, ms[n], i);
    }
  }

  // Left pressed, its release lost, right pressed: the mask of the last packet says left is
  // up, the injector never let it go, and no snapshot after it does, however many.
  lemma LostReleaseSticks(table: ScanTable, n: nat, k: nat, ts: nat, later: seq<Wire.Message>)
    requires forall m <- later :: Silent(m, 0)
    ensures var s := HandledAll(OPENED, table, [Wire.Button(n, ts, 0, true, 1), Wire.Button(k, ts, 1, true, 2)]);
      && Stuck(s, 0) && Stuck(HandledAll(s, table, later), 0)
  {
    hide Stuck, Handled;
    var pressed, right := Wire.Button(n, ts, 0, true, 1), Wire.Button(k, ts, 1, true, 2);
    assert [pressed, right][..1] == [pressed] && [pressed][..0] == [];
    var one := Handled(OPENED, table, pressed);
    var s := Handled(one, table, right);
    assert HandledAll(OPENED, table, []) == OPENED && HandledAll(OPENED, table, [pressed]) == one;
    assert HandledAll(OPENED, table, [pressed, right]) == s;
    LeftStuck(table, n, k, ts);
    StaysStuck(s, table, later, 0);
  }

  lemma LeftStuck(table: ScanTable, n: nat, k: nat, ts: nat)
    ensures var pressed := Handled(OPENED, table, Wire.Button(n, ts, 0, true, 1));
      Stuck(Handled(pressed, table, Wire.Button(k, ts, 1, true, 2)), 0)
  {
    hide ButtonCall;
    ButtonCallSets(UNTOUCHED, 0, true, 0);
    ButtonCallSets(ButtonCall(UNTOUCHED, 0, true), 1, true, 0);
    assert !Bit(2, 0);
  }

  // ------------------------------------------------------------ letting go of it all

  lemma {:induction false} KeyCallsTracked(j: Injector, table: ScanTable, ts: seq<Transition>)
    requires Tracked(j, table)
    ensures Tracked(KeyCalls(j, table, ts), table)
  {
    hide Tracked, KeyCall;
    if ts != [] {
      KeyCallsTracked(j, table, ts[..|ts| - 1]);
      KeyCallKeepsTracked(KeyCalls(j, table, ts[..|ts| - 1]), table, ts[|ts| - 1].usage, ts[|ts| - 1].down);
    }
  }

  lemma {:induction false} ButtonCallsTracked(j: Injector, table: ScanTable, was: bv8, mask: bv8, n: nat)
    requires n <= 5 && Tracked(j, table)
    ensures Tracked(ButtonCalls(j, was, mask, n), table)
  {
    hide Tracked, ButtonCall, Bit;
    if n > 0 {
      ButtonCallsTracked(j, table, was, mask, n - 1);
      ButtonCallKeepsTracked(ButtonCalls(j, was, mask, n - 1), table, n - 1, Bit(mask, n - 1));
    }
  }

  lemma HandledTracked(s: Session, table: ScanTable, m: Wire.Message)
    requires Tracked(s.injector, table)
    ensures Tracked(Handled(s, table, m).injector, table)
  {
    hide Tracked, KeyCalls, ButtonCalls, ButtonCall, Differences;
    match m
    case MoveAbs(_, _, x, y, buttons) =>
      ButtonCallsTracked(s.injector, table, s.buttons, buttons, 5);
      OtherKeepsTracked(ButtonsApplied(s, buttons).injector, table, Pointer(x, y));
    case MoveRel(_, _, dx, dy, buttons) =>
      ButtonCallsTracked(s.injector, table, s.buttons, buttons, 5);
      OtherKeepsTracked(ButtonsApplied(s, buttons).injector, table, Motion(dx, dy));
    case Sync(_, _, buttons, state) =>
      KeyCallsTracked(s.injector, table, Differences(s.keys, state, USAGES));
      ButtonCallsTracked(KeysApplied(s, table, state).injector, table, s.buttons, buttons, 5);
    case Key(_, _, _, _, state) => KeyCallsTracked(s.injector, table, Differences(s.keys, state, USAGES));
    case Button(_, _, index, down, _) => ButtonCallKeepsTracked(s.injector, table, index, down);
    case Wheel(_, _, dx, dy) =>
      OtherKeepsTracked(s.injector, table, Scroll(0, dy));
      OtherKeepsTracked(s.injector, table, Scroll(dx, 0));
      OtherKeepsTracked(Sent(s.injector, Scroll(0, dy)), table, Scroll(dx, 0));
    case Text(_, text) => TextKeepsTracked(s.injector, table, text);
    case Ping(_, _) =>
  }

  lemma {:induction false} AlwaysTracked(table: ScanTable, packets: seq<seq<Byte>>)
    ensures Tracked(InputRuns.After(table, packets).injector, table)
  {
    hide Tracked, Handled, Reading;
    if packets == [] {
      UntouchedTracked(table);
    } else {
      var s, p := InputRuns.After(table, packets[..|packets| - 1]), packets[|packets| - 1];
      AlwaysTracked(table, packets[..|packets| - 1]);
      if Reading(p).Decoded? {
        HandledTracked(s, table, Reading(p).message);
      }
    }
  }

  // Closing a session after any packets lifts whatever they pressed but Pause.
  lemma ClosingLetsGo(table: ScanTable, packets: seq<seq<Byte>>, order: seq<nat>)
    requires Listing(order, InputRuns.After(table, packets).injector.heldKeys)
    ensures var r := Released(InputRuns.After(table, packets).injector, table, order);
      && r.heldKeys == {} && r.heldButtons == 0
      && (forall c: nat :: !CodeDown(r.events, c)) && (forall i: nat :: !ButtonDown(r.events, i))
  {
    hide Tracked, Released;
    AlwaysTracked(table, packets);
    ReleaseAllLiftsEverything(InputRuns.After(table, packets).injector, table, order);
  }

  // ---------------------------------------------------------- sequence numbers

  // Whether a packet's number is noted at all.
  predicate Notes(packet: seq<Byte>) {
    var r := Reading(packet); r.Decoded? && !r.message.Text? && !r.message.Ping?
  }

  // The highest number noted by a packet, of those that are noted at all.
  function Highest(packets: seq<seq<Byte>>): nat {
    if packets == [] then 0
    else
      var before := Highest(packets[..|packets| - 1]);
      var p := packets[|packets| - 1];
      if Notes(p) && Reading(p).message.seqNo > before then Reading(p).message.seqNo else before
  }

  lemma HandledNotes(s: Session, table: ScanTable, m: Wire.Message)
    ensures m.Text? || m.Ping? ==> Handled(s, table, m).lastSeq == s.lastSeq
    ensures !m.Text? && !m.Ping? ==> Handled(s, table, m).lastSeq == Noted(s, m.seqNo, m.ts).lastSeq
    ensures Handled(s, table, m).lastAt == if m.Text? || m.Ping? then s.lastAt else Noted(s, m.seqNo, m.ts).lastAt
  {
    hide ButtonCalls, KeyCalls, ButtonCall, Differences;
  }

  // The number and the clock reading kept always come from one packet.
  lemma {:induction false} NotedTogether(table: ScanTable, packets: seq<seq<Byte>>)
    ensures var s := InputRuns.After(table, packets);
      || (s.lastSeq == 0 && s.lastAt == 0)
      || exists p <- packets ::
           Notes(p) && Reading(p).message.seqNo == s.lastSeq && Reading(p).message.ts == s.lastAt
  {
    hide Handled, Reading;
    if packets != [] {
      var n := |packets| - 1;
      var s, p := InputRuns.After(table, packets[..n]), packets[n];
      NotedTogether(table, packets[..n]);
      assert p in packets && forall q <- packets[..n] :: q in packets;
      if Reading(p).Decoded? {
        HandledNotes(s, table, Reading(p).message);
      }
    }
  }

  // No packet comes more than half the range behind the highest number before it.
  ghost predicate NoneFarBehind(packets: seq<seq<Byte>>) {
    forall n | 0 <= n < |packets| && Notes(packets[n]) ::
      Highest(packets[..n]) - Reading(packets[n]).message.seqNo <= HALF
  }

  // At every moment the number kept is the highest so far.
  ghost predicate KeepsHighest(table: ScanTable, packets: seq<seq<Byte>>) {
    forall n | 0 <= n <= |packets| :: InputRuns.After(table, packets[..n]).lastSeq == Highest(packets[..n])
  }

  lemma OnePacketNotes(table: ScanTable, packets: seq<seq<Byte>>, n: nat)
    requires n < |packets| && InputRuns.After(table, packets[..n]).lastSeq == Highest(packets[..n])
    ensures InputRuns.After(table, packets[..n + 1]).lastSeq == Highest(packets[..n + 1]) <==>
      (Notes(packets[n]) ==> Highest(packets[..n]) - Reading(packets[n]).message.seqNo <= HALF)
  {
    hide Handled, Reading;
    assert packets[..n + 1][..n] == packets[..n] && packets[..n + 1][n] == packets[n];
    if Reading(packets[n]).Decoded? {
      HandledNotes(InputRuns.After(table, packets[..n]), table, Reading(packets[n]).message);
    }
  }

  lemma {:induction false} KeptUpTo(table: ScanTable, packets: seq<seq<Byte>>, n: nat)
    requires NoneFarBehind(packets) && n <= |packets|
    ensures InputRuns.After(table, packets[..n]).lastSeq == Highest(packets[..n])
  {
    hide Notes, Reading;
    if n > 0 {
      KeptUpTo(table, packets, n - 1);
      OnePacketNotes(table, packets, n - 1);
    }
  }

  // The number kept is the running maximum of those that came, exactly through the runs in which
  // no packet comes more than half the range behind.
  lemma KeepsHighestExactly(table: ScanTable, packets: seq<seq<Byte>>)
    ensures KeepsHighest(table, packets) <==> NoneFarBehind(packets)
  {
    hide Reading, Highest, InputRuns.After;
    if NoneFarBehind(packets) {
      forall n | 0 <= n <= |packets| ensures InputRuns.After(table, packets[..n]).lastSeq == Highest(packets[..n]) {
        KeptUpTo(table, packets, n);
      }
    }
    if KeepsHighest(table, packets) {
      forall n | 0 <= n < |packets| && Notes(packets[n])
        ensures Highest(packets[..n]) - Reading(packets[n]).message.seqNo <= HALF
      {
        OnePacketNotes(table, packets, n);
      }
    }
  }

  lemma {:induction false} HighestStaysLow(packets: seq<seq<Byte>>, n: nat)
    requires n <= |packets|
    requires forall k | 0 <= k < n && Notes(packets[k]) :: Reading(packets[k]).message.seqNo <= HALF
    ensures Highest(packets[..n]) <= HALF
  {
    hide Notes, Reading;
    if n > 0 {
      HighestStaysLow(packets, n - 1);
      assert packets[..n][..n - 1] == packets[..n - 1];
    }
  }

  // So it is while numbers stay within half the range.
  lemma LowNumbersAreKept(table: ScanTable, packets: seq<seq<Byte>>)
    requires forall k | 0 <= k < |packets| && Notes(packets[k]) :: Reading(packets[k]).message.seqNo <= HALF
    ensures KeepsHighest(table, packets)
  {
    hide Reading, Highest, InputRuns.After;
    forall n | 0 <= n < |packets| && Notes(packets[n])
      ensures Highest(packets[..n]) - Reading(packets[n]).message.seqNo <= HALF
    {
      HighestStaysLow(packets, n);
    }
    KeepsHighestExactly(table, packets);
  }
}
