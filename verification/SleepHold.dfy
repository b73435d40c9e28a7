/** Holding off sleep: calls that ask to stay awake, and the loops that hold and let go.

    Each section under the lock is one step; the clock is read inside it. A hold is granted or
    refused by the system outside the lock, and released after its loop has ended. */
module SleepHold {

  datatype Phase = Pending | Running | Expired | Released | Refused

  datatype Current = NoHold | Hold(id: nat)

  datatype Call = Call(deadline: real, hold: nat)

  // `until` and `current` are what the manager keeps; `phases` is where each hold's loop is and
  // `calls` what was asked.
  datatype State = State(until: real, current: Current, phases: seq<Phase>, calls: seq<Call>, clock: real)

  const START := State(0.0, NoHold, [], [], 0.0)

  datatype Step =
    | StayAwake(d: real, now: real)
    | Grant(id: nat)
    | Refuse(id: nat)
    | Tick(id: nat, now: real)
    | Release(id: nat)

  // What can happen next: the clock does not run backwards, and each loop does its steps in turn.
  predicate Enabled(s: State, e: Step) {
    match e
    case StayAwake(_, now) => now >= s.clock
    case Grant(id) => id < |s.phases| && s.phases[id].Pending?
    case Refuse(id) => id < |s.phases| && s.phases[id].Pending?
    case Tick(id, now) => id < |s.phases| && s.phases[id].Running? && now >= s.clock
    case Release(id) => id < |s.phases| && s.phases[id].Expired?
  }

  function Asked(s: State, d: real, now: real): State {
    if d <= 0.0 then s.(clock := now)
    else
      var until := if now + d > s.until then now + d else s.until;
      match s.current
      case Hold(id) => s.(until := until, calls := s.calls + [Call(now + d, id)], clock := now)
      case NoHold =>
        var id := |s.phases|;
        State(until, Hold(id), s.phases + [Pending], s.calls + [Call(now + d, id)], now)
  }

  function Ticked(s: State, id: nat, now: real): State
    requires id < |s.phases|
  {
    if now > s.until then s.(current := NoHold, phases := s.phases[id := Expired], clock := now) else s.(clock := now)
  }

  function Stepped(s: State, e: Step): State
    requires Enabled(s, e)
  {
    match e
    case StayAwake(d, now) => Asked(s, d, now)
    case Grant(id) => s.(phases := s.phases[id := Running])
    case Refuse(id) => s.(current := NoHold, phases := s.phases[id := Refused])
    case Tick(id, now) => Ticked(s, id, now)
    case Release(id) => s.(phases := s.phases[id := Released])
  }

  // ------------------------------------------------------------- the mutable object

  class Manager {
    var until: real
    var current: Current
    ghost var phases: seq<Phase>
    ghost var calls: seq<Call>
    ghost var clock: real

    constructor ()
      ensures View() == START
    {
      until, current, phases, calls, clock := 0.0, NoHold, [], [], 0.0;
    }

    ghost function View(): State
      reads this
    {
      State(until, current, phases, calls, clock)
    }

    // Says whether the caller has to start a hold, and which. `next` names a new one.
    method StayAwakeLocked(d: real, now: real, next: nat) returns (start: Current)
      requires Enabled(View(), StayAwake(d, now)) && next == |phases|
      modifies this
      ensures View() == Stepped(old(View()), StayAwake(d, now))
      ensures start == if d > 0.0 && old(current).NoHold? then Hold(next) else NoHold
    {
      start := NoHold;
      clock := now;
      if d <= 0.0 {
        return;
      }
      var wanted := now + d;
      if wanted > until {
        until := wanted;
      }
      if current.Hold? {
        calls := calls + [Call(wanted, current.id)];
        return;
      }
      start := Hold(next);
      current := start;
      phases := phases + [Pending];
      calls := calls + [Call(wanted, next)];
    }

    method RefusedLocked(id: nat)
      requires Enabled(View(), Refuse(id))
      modifies this
      ensures View() == Stepped(old(View()), Refuse(id))
    {
      current := NoHold;
      phases := phases[id := Refused];
    }

    method TickLocked(id: nat, now: real) returns (expired: bool)
      requires Enabled(View(), Tick(id, now))
      modifies this
      ensures View() == Stepped(old(View()), Tick(id, now)) && expired == View().phases[id].Expired?
    {
      expired := now > until;
      clock := now;
      if expired {
        current := NoHold;
        phases := phases[id := Expired];
      }
    }
  }

  // ---------------------------------------------------------------------- invariant

  predicate Live(p: Phase) { p.Pending? || p.Running? }

  // The current hold is the one that is live; deadlines that count on it are covered; those of
  // holds that ended by themselves have passed.
  ghost predicate Inv(s: State) {
    && (forall id: nat | id < |s.phases| :: Live(s.phases[id]) <==> s.current == Hold(id))
    && (s.current.Hold? ==> s.current.id < |s.phases|)
    && (forall c <- s.calls :: c.hold < |s.phases|)
    && (forall c <- s.calls :: Live(s.phases[c.hold]) ==> c.deadline <= s.until)
    && (forall c <- s.calls :: s.phases[c.hold].Expired? || s.phases[c.hold].Released? ==> c.deadline < s.clock)
  }

  lemma StepKeepsInv(s: State, e: Step)
    requires Inv(s) && Enabled(s, e)
    ensures Inv(Stepped(s, e))
  {
  }

  // A step that cannot happen changes nothing.
  function After(run: seq<Step>): State {
    if run == [] then START
    else
      var s := After(run[..|run| - 1]);
      if Enabled(s, run[|run| - 1]) then Stepped(s, run[|run| - 1]) else s
  }

  lemma {:induction false} AlwaysInv(run: seq<Step>)
    ensures Inv(After(run))
  {
    if run != [] {
      AlwaysInv(run[..|run| - 1]);
      var s := After(run[..|run| - 1]);
      if Enabled(s, run[|run| - 1]) {
        StepKeepsInv(s, run[|run| - 1]);
      }
    }
  }

  // Never two loops that hold or are about to.
  lemma AtMostOneLoop(run: seq<Step>, i: nat, j: nat)
    requires var p := After(run).phases; i < |p| && j < |p| && Live(p[i]) && Live(p[j])
    ensures i == j
  {
    AlwaysInv(run);
  }

  // Until a call's deadline has passed its hold has not ended: it is in force if it was granted,
  // still asked for, or was refused.
  lemma AwakeUntilTheDeadline(run: seq<Step>, c: Call)
    requires c in After(run).calls && After(run).clock <= c.deadline
    ensures var s := After(run); c.hold < |s.phases| && !s.phases[c.hold].Expired? && !s.phases[c.hold].Released?
  {
    AlwaysInv(run);
  }

  // Once granted, a hold stays in force through any later steps up to the deadline of every
  // call that counts on it, those that joined it later included.
  lemma GrantedStaysAwake(run: seq<Step>, later: seq<Step>, c: Call)
    requires c in After(run + later).calls && After(run + later).clock <= c.deadline
    requires c.hold < |After(run).phases| && After(run).phases[c.hold].Running?
    ensures c.hold < |After(run + later).phases| && After(run + later).phases[c.hold].Running?
  {
    AlwaysInv(run + later);
    NeverBack(run, later, c.hold);
  }

  // A hold that was granted is never pending or refused again.
  lemma {:induction false} NeverBack(run: seq<Step>, later: seq<Step>, id: nat)
    requires id < |After(run).phases| && !After(run).phases[id].Pending? && !After(run).phases[id].Refused?
    ensures id < |After(run + later).phases|
    ensures !After(run + later).phases[id].Pending? && !After(run + later).phases[id].Refused?
  {
    if later == [] {
      assert run + later == run;
    } else {
      var n := |later| - 1;
      assert (run + later)[..|run + later| - 1] == run + later[..n];
      NeverBack(run, later[..n], id);
    }
  }

  // Nothing that comes after takes the hold from who counts on it.
  ghost predicate NeverRefused(run: seq<Step>, id: nat) {
    forall later: seq<Step> :: id < |After(run + later).phases| ==> !After(run + later).phases[id].Refused?
  }

  // A call that joins the current hold can count on it exactly if the hold had been granted:
  // while it is still being asked for it may yet be refused, and the call with it.
  lemma JoiningIsSafeExactly(run: seq<Step>, d: real, now: real)
    requires After(run).current.Hold? && d > 0.0 && now >= After(run).clock
    ensures var id := After(run).current.id;
      && id < |After(run).phases|
      && Call(now + d, id) in After(run + [StayAwake(d, now)]).calls
      && (NeverRefused(run + [StayAwake(d, now)], id) <==> After(run).phases[id].Running?)
  {
    AlwaysInv(run);
    var id := After(run).current.id;
    var joined := run + [StayAwake(d, now)];
    assert joined[..|run|] == run;
    assert After(joined) == Asked(After(run), d, now);
    if After(run).phases[id].Running? {
      forall later: seq<Step>
        ensures id < |After(joined + later).phases| && !After(joined + later).phases[id].Refused?
      {
        NeverBack(joined, later, id);
      }
    } else {
      assert After(run).phases[id].Pending?;
      RefusalFollows(joined, id);
    }
  }

  // A hold still being asked for can be refused next.
  lemma RefusalFollows(run: seq<Step>, id: nat)
    requires id < |After(run).phases| && After(run).phases[id].Pending?
    ensures !NeverRefused(run, id)
  {
    var all := run + [Refuse(id)];
    assert all[..|run|] == run;
    assert After(all) == Stepped(After(run), Refuse(id));
    assert After(run + [Refuse(id)]).phases[id].Refused?;
  }

  // A call that joins a hold still being asked for gets nothing if that is refused.
  lemma RefusalDropsJoiners(d: real, longer: real)
    requires 0.0 < d < longer
    ensures var s := After([StayAwake(d, 1.0), StayAwake(longer, 1.0), Refuse(0)]);
      && Call(1.0 + longer, 0) in s.calls && s.clock < 1.0 + longer && s.current.NoHold?
      && forall p <- s.phases :: !Live(p)
  {
    var a, b, c := StayAwake(d, 1.0), StayAwake(longer, 1.0), Refuse(0);
    assert [a, b, c][..2] == [a, b] && [a, b][..1] == [a] && [a][..0] == [];
    assert After([]) == START;
    assert After([a]) == Asked(START, d, 1.0);
    assert After([a, b]) == Asked(After([a]), longer, 1.0);
  }

  // ---------------------------------------------------------------- when a hold lets go

  // The deadline kept is the latest that was ever asked for.
  ghost predicate Latest(s: State) {
    && 0.0 <= s.clock && (s.phases != [] ==> s.calls != [])
    && (forall c <- s.calls :: 0.0 < c.deadline <= s.until)
    && (if s.calls == [] then s.until == 0.0 else exists c <- s.calls :: c.deadline == s.until)
  }

  lemma AskedKeepsLatest(s: State, d: real, now: real)
    requires Latest(s) && now >= s.clock
    ensures Latest(Asked(s, d, now))
  {
    var r := Asked(s, d, now);
    if d > 0.0 {
      assert r.calls[|s.calls|] in r.calls && r.calls[|s.calls|].deadline == now + d;
      assert forall c <- s.calls :: c in r.calls;
    }
  }

  lemma {:induction false} AlwaysLatest(run: seq<Step>)
    ensures Latest(After(run))
  {
    if run != [] {
      AlwaysLatest(run[..|run| - 1]);
      var s, e := After(run[..|run| - 1]), run[|run| - 1];
      if e.StayAwake? && Enabled(s, e) {
        AskedKeepsLatest(s, e.d, e.now);
      }
    }
  }

  // A tick of a hold's loop ends it exactly if every deadline ever asked for has passed, those
  // asked of other holds included; if it does not, it changes no phase.
  lemma ExpiresExactly(run: seq<Step>, id: nat, now: real)
    requires Enabled(After(run), Tick(id, now))
    ensures var s := After(run); var r := Stepped(s, Tick(id, now));
      var over := forall c <- s.calls :: c.deadline < now;
      && r.phases == (if over then s.phases[id := Expired] else s.phases)
      && r.current == (if over then NoHold else s.current)
      && r.calls == s.calls
  {
    AlwaysLatest(run);
  }

  // So a refused request, too, keeps a later hold from ending: one second asked for at two, and
  // still held at fifty for what was refused at one.
  lemma RefusedDeadlineLingers()
    ensures var run := [StayAwake(100.0, 1.0), Refuse(0), StayAwake(1.0, 2.0), Grant(1), Tick(1, 50.0)];
      var s := After(run);
      && s.clock == 50.0 && s.phases == [Refused, Running]
      && forall c <- s.calls :: c.hold == 1 ==> c.deadline < s.clock
  {
    var a, b, c, d, e := StayAwake(100.0, 1.0), Refuse(0), StayAwake(1.0, 2.0), Grant(1), Tick(1, 50.0);
    assert [a, b, c, d, e][..4] == [a, b, c, d] && [a, b, c, d][..3] == [a, b, c] && [a, b, c][..2] == [a, b];
    assert [a, b][..1] == [a] && [a][..0] == [];
    assert After([]) == START;
    var s := After([a]);
    assert s == State(101.0, Hold(0), [Pending], [Call(101.0, 0)], 1.0);
    var t := After([a, b]);
    assert t == State(101.0, NoHold, [Refused], [Call(101.0, 0)], 1.0);
    var u := After([a, b, c]);
    assert u == State(101.0, Hold(1), [Refused, Pending], [Call(101.0, 0), Call(3.0, 1)], 2.0);
    var v := After([a, b, c, d]);
    assert v == u.(phases := [Refused, Running]);
  }

  // A call for a positive time is noted with its deadline and counts on the one live hold: the
  // one there is, or a new one if there is none. Other calls leave everything but the clock.
  lemma AskedExactly(run: seq<Step>, d: real, now: real)
    requires now >= After(run).clock
    ensures var s := After(run); var r := Stepped(s, StayAwake(d, now));
      if d <= 0.0 then r == s.(clock := now)
      else
        var call := r.calls[|r.calls| - 1];
        && r.calls == s.calls + [call] && call.deadline == now + d
        && call.hold < |r.phases| && Live(r.phases[call.hold]) && r.current == Hold(call.hold)
        && (if exists i: nat :: i < |s.phases| && Live(s.phases[i]) then r.phases == s.phases
            else r.phases == s.phases + [Pending] && call.hold == |s.phases|)
  {
    AlwaysInv(run);
    if d > 0.0 {
      StepKeepsInv(After(run), StayAwake(d, now));
    }
  }
}
