/** Runs of the pairing store: what every stored window is, when it can be seen, and how
    often a code can be tried. */
module PairingRuns {
  import opened Basics
  import opened PairingStore

  // One call at one instant; `online` says whether the window's agent is connected then,
  // which decides whether a consumed submission is forwarded.
  datatype Timed = Timed(call: Call, now: real, online: bool)

  function DropLast(run: seq<Timed>): seq<Timed>
    requires run != []
  {
    run[..|run| - 1]
  }

  function Last(run: seq<Timed>): Timed
    requires run != []
  {
    run[|run| - 1]
  }

  function After(run: seq<Timed>): Store {
    if run == [] then EMPTY else Step(After(DropLast(run)), Last(run).call, Last(run).now).0
  }

  function Answered(run: seq<Timed>): Answer
    requires run != []
  {
    Step(After(DropLast(run)), Last(run).call, Last(run).now).1
  }

  predicate PublishedLast(run: seq<Timed>, code: Code)
    requires run != []
  {
    Last(run).call.Publish? && Last(run).call.p.code == code && Answered(run).Opened?
  }

  predicate ConsumedLast(run: seq<Timed>, code: Code)
    requires run != []
  {
    Last(run).call == Consume(code) && Answered(run).Opened?
  }

  // A pairing submission reaches the agent once its code has been consumed and the agent is there.
  predicate ForwardedLast(run: seq<Timed>, code: Code)
    requires run != []
  {
    ConsumedLast(run, code) && Last(run).online
  }

  // Where the run last opened a window for `code`, or -1.
  function LastPublish(run: seq<Timed>, code: Code): (i: int)
    ensures -1 <= i < |run|
  {
    if run == [] then -1
    else if PublishedLast(run, code) then |run| - 1
    else LastPublish(DropLast(run), code)
  }

  // Successful uses of `code` since then.
  function Uses(run: seq<Timed>, code: Code): nat {
    if run == [] then 0
    else if PublishedLast(run, code) then 0
    else Uses(DropLast(run), code) + if ConsumedLast(run, code) then 1 else 0
  }

  function Publications(run: seq<Timed>, code: Code): nat {
    if run == [] then 0 else Publications(DropLast(run), code) + if PublishedLast(run, code) then 1 else 0
  }

  function Forwards(run: seq<Timed>, code: Code): nat {
    if run == [] then 0 else Forwards(DropLast(run), code) + if ForwardedLast(run, code) then 1 else 0
  }

  // ----------------------------------------------------------- shape of the store

  // The window stored for a code carries that code, and its agent's entry names it.
  ghost predicate Named(s: Store) {
    forall c <- s.byCode ::
      && s.byCode[c].code == c
      && s.byCode[c].agent in s.byAgent && s.byAgent[s.byCode[c].agent] == c
  }

  ghost predicate Consistent(s: Store) {
    |s.byCode| <= MAX_OPEN_WINDOWS && Named(s)
  }

  lemma CollectedIsConsistent(s: Store, now: real)
    requires Consistent(s)
    ensures Consistent(Collected(s, now))
  {
    assert Collected(s, now).byCode.Keys <= s.byCode.Keys;
    SubsetSize(Collected(s, now).byCode.Keys, s.byCode.Keys);
  }

  lemma MapSizes<K, V>(m: map<K, V>, k: K, v: V)
    ensures |m[k := v]| <= |m| + 1
  {
    assert m[k := v].Keys == m.Keys + {k};
  }

  lemma PublishedIsSmall(s: Store, agent: Agent, p: Publication, now: real)
    requires |s.byCode| <= MAX_OPEN_WINDOWS
    ensures |Published(s, agent, p, now).0.byCode| <= MAX_OPEN_WINDOWS
  {
    hide Expiry;
    var t := if agent in s.byAgent then s.(byCode := s.byCode - {s.byAgent[agent]}) else s;
    var answer := Published(s, agent, p, now).1;
    if agent in s.byAgent {
      SubsetSize((s.byCode - {s.byAgent[agent]}).Keys, s.byCode.Keys);
    }
    if answer.Opened? {
      MapSizes(t.byCode, p.code, answer.window);
    }
  }

  lemma PublishedIsNamed(s: Store, agent: Agent, p: Publication, now: real)
    requires Named(s)
    ensures Named(Published(s, agent, p, now).0)
  {
    hide Expiry;
  }

  lemma PublishedIsConsistent(s: Store, agent: Agent, p: Publication, now: real)
    requires Consistent(s)
    ensures Consistent(Published(s, agent, p, now).0)
  {
    hide Published, Named;
    PublishedIsSmall(s, agent, p, now);
    PublishedIsNamed(s, agent, p, now);
  }

  lemma StepIsConsistent(s: Store, c: Call, now: real)
    requires Consistent(s)
    ensures Consistent(Step(s, c, now).0)
  {
    hide Collected, Published;
    CollectedIsConsistent(s, now);
    var s' := Collected(s, now);
    match c
    case Publish(agent, p) =>
      PublishedIsConsistent(s', agent, p, now);
    case Consume(code) =>
      if code in s'.byCode {
        assert s'.byCode[code := s'.byCode[code].(consumed := true)].Keys == s'.byCode.Keys;
      }
    case Revoke(agent) =>
      assert Step(s, c, now).0.byCode.Keys <= s.byCode.Keys;
      SubsetSize(Step(s, c, now).0.byCode.Keys, s.byCode.Keys);
    case Lookup(_) =>
    case Open =>
  }

  // Every stored window is the one its agent's entry names, so an agent has at most one,
  // and there are never more than 256.
  lemma {:induction false} AlwaysConsistent(run: seq<Timed>)
    ensures Consistent(After(run))
    ensures forall c, d | c in After(run).byCode && d in After(run).byCode && c != d ::
      After(run).byCode[c].agent != After(run).byCode[d].agent
  {
    if run != [] {
      AlwaysConsistent(DropLast(run));
      StepIsConsistent(After(DropLast(run)), Last(run).call, Last(run).now);
    }
  }

  // Revoking leaves an agent without a window, and every other agent's where its entry did not
  // name it.
  lemma RevokeLeavesNone(run: seq<Timed>, a: Agent)
    ensures var s, r := After(run), Step(After(run), Revoke(a), 0.0).0;
      && (forall c <- r.byCode :: r.byCode[c].agent != a)
      && (forall c <- s.byCode :: c in r.byCode || (a in s.byAgent && s.byAgent[a] == c))
  {
    hide After;
    AlwaysConsistent(run);
  }

  // ----------------------------------------------- what a stored window comes from

  // The window is the one its latest publication opened, used or not.
  ghost predicate ComesFrom(w: Window, t: Timed) {
    && t.call.Publish?
    && var p := t.call.p;
       w == Window(p.code, t.call.agent, p.salt, p.ephemeralPub, p.identityPub, p.deviceName,
                   Expiry(p, t.now), w.consumed)
  }

  ghost predicate Traced(run: seq<Timed>, s: Store) {
    forall c <- s.byCode ::
      && LastPublish(run, c) >= 0 && ComesFrom(s.byCode[c], run[LastPublish(run, c)])
      && Uses(run, c) == if s.byCode[c].consumed then 1 else 0
  }

  // What one call can do to the window stored for one code.
  lemma StoredStep(s: Store, t: Timed, code: Code)
    requires Consistent(s)
    ensures var (r, answer) := Step(s, t.call, t.now);
      var published := t.call.Publish? && t.call.p.code == code && answer.Opened?;
      var used := t.call == Consume(code) && answer.Opened?;
      && (published ==> code in r.byCode && ComesFrom(r.byCode[code], t) && !r.byCode[code].consumed)
      && (!published && code in r.byCode ==>
            code in s.byCode && r.byCode[code] == s.byCode[code].(consumed := s.byCode[code].consumed || used))
      && (t.call in {Lookup(code), Consume(code)} && answer.Opened? ==>
            && code in s.byCode && !s.byCode[code].consumed
            && code in r.byCode && answer.window == r.byCode[code] && t.now <= answer.window.expiresAt)
  {
  }

  lemma {:induction false} AlwaysTraced(run: seq<Timed>)
    ensures Traced(run, After(run))
    ensures forall c :: Uses(run, c) <= 1
  {
    if run != [] {
      hide Step;
      AlwaysTraced(DropLast(run));
      AlwaysConsistent(DropLast(run));
      forall c ensures Uses(run, c) <= 1 {
        StoredStep(After(DropLast(run)), Last(run), c);
        assert Uses(DropLast(run), c) <= 1;
      }
      forall c | c in After(run).byCode
        ensures LastPublish(run, c) >= 0 && ComesFrom(After(run).byCode[c], run[LastPublish(run, c)])
        ensures Uses(run, c) == if After(run).byCode[c].consumed then 1 else 0
      {
        StoredStep(After(DropLast(run)), Last(run), c);
      }
    }
  }

  // A window that is shown has not expired, and comes from the latest publication of its
  // code, at most three minutes ago.
  lemma ShownWindowsAreFresh(run: seq<Timed>, code: Code)
    requires run != [] && Last(run).call in {Lookup(code), Consume(code)} && Answered(run).Opened?
    ensures var w := Answered(run).window; var i := LastPublish(DropLast(run), code);
      && w.code == code && Last(run).now <= w.expiresAt
      && 0 <= i < |run| - 1 && ComesFrom(w, run[i]) && run[i].call.p.code == code
      && Last(run).now <= run[i].now + WINDOW_SECONDS
      && Uses(DropLast(run), code) == 0
  {
    AlwaysTraced(DropLast(run));
    AlwaysConsistent(DropLast(run));
    StoredStep(After(DropLast(run)), Last(run), code);
  }

  // ------------------------------------------------------------ one try per window

  lemma {:induction false} UseOrRepublish(run: seq<Timed>, code: Code, i: nat, n: nat)
    requires i < n <= |run| && ConsumedLast(run[..i + 1], code)
    ensures LastPublish(run[..n], code) > i || Uses(run[..n], code) >= 1
  {
    if i + 1 < n {
      UseOrRepublish(run, code, i, n - 1);
      assert DropLast(run[..n]) == run[..n - 1];
    }
  }

  // Between two successful uses of a code lies a publication of it.
  lemma PublicationBetweenUses(run: seq<Timed>, code: Code, i: nat, j: nat)
    requires i < j < |run| && ConsumedLast(run[..i + 1], code) && ConsumedLast(run[..j + 1], code)
    ensures var k := LastPublish(run[..j], code); i < k < j && PublishedLast(run[..k + 1], code)
  {
    hide Step, ComesFrom, After;
    assert DropLast(run[..j + 1]) == run[..j];
    ShownWindowsAreFresh(run[..j + 1], code);
    UseOrRepublish(run, code, i, j);
    LastPublishIsOne(run[..j], code);
    var k := LastPublish(run[..j], code);
    assert run[..j][..k + 1] == run[..k + 1];
  }

  lemma {:induction false} LastPublishIsOne(run: seq<Timed>, code: Code)
    requires LastPublish(run, code) >= 0
    ensures PublishedLast(run[..LastPublish(run, code) + 1], code)
  {
    if PublishedLast(run, code) {
      assert run[..|run|] == run;
    } else {
      LastPublishIsOne(DropLast(run), code);
      var k := LastPublish(run, code);
      assert DropLast(run)[..k + 1] == run[..k + 1];
    }
  }

  // At most one submission reaches an agent for each time a code was published.
  lemma {:induction false} OneSubmissionPerPublication(run: seq<Timed>, code: Code)
    ensures Forwards(run, code) <= Publications(run, code)
    ensures LastPublish(run, code) >= 0 && Uses(run, code) == 0 ==> Forwards(run, code) < Publications(run, code)
  {
    if run != [] {
      OneSubmissionPerPublication(DropLast(run), code);
      if ConsumedLast(run, code) {
        ShownWindowsAreFresh(run, code);
      }
    }
  }

  // ------------------------------------------------------- whose window a call can take

  // The agent's entry names the code.
  predicate Names(s: Store, agent: Agent, code: Code) { agent in s.byAgent && s.byAgent[agent] == code }

  // The window for the code is gone, or is another agent's now.
  predicate TakenAway(s: Store, r: Store, code: Code)
    requires code in s.byCode
  {
    code !in r.byCode || r.byCode[code].agent != s.byCode[code].agent
  }

  // Whether there is room for another window once the agent's own is out of the way.
  predicate HasRoom(s: Store, agent: Agent, now: real) {
    var t := Collected(s, now);
    |if agent in t.byAgent then t.byCode - {t.byAgent[agent]} else t.byCode| < MAX_OPEN_WINDOWS
  }

  lemma OpenedWithRoom(s: Store, agent: Agent, p: Publication, now: real)
    requires Complete(p)
    ensures Step(s, Publish(agent, p), now).1.Opened? <==> HasRoom(s, agent, now)
  {
    hide Collected, Expiry;
  }

  // What each call takes of an open window: its own agent can revoke it, and publishing another
  // code or finding no room gives it up; any other agent takes it whose entry names its code, or
  // that publishes the same code and finds room.
  lemma TakenAwayExactly(s: Store, c: Call, now: real, code: Code)
    requires code in s.byCode && !Expired(s.byCode[code], now)
    ensures TakenAway(s, Step(s, c, now).0, code) <==>
      match c
      case Revoke(a) => Names(s, a, code)
      case Publish(a, p) =>
        && Complete(p)
        && (if a == s.byCode[code].agent then Names(s, a, code) && !(p.code == code && HasRoom(s, a, now))
            else Names(s, a, code) || (p.code == code && HasRoom(s, a, now)))
      case _ => false
  {
    if c.Publish? && Complete(c.p) {
      OpenedWithRoom(s, c.agent, c.p, now);
    }
    hide Expiry, HasRoom;
  }

  // Every entry that names an open window names one of its own agent.
  ghost predicate OwnEntries(s: Store) {
    forall a <- s.byAgent :: s.byAgent[a] in s.byCode ==> s.byCode[s.byAgent[a]].agent == a
  }

  // Revoking takes no window but one's own, whoever does it.
  ghost predicate RevokesOwn(s: Store) {
    forall a, code | code in s.byCode && s.byCode[code].agent != a :: !TakenAway(s, Step(s, Revoke(a), 0.0).0, code)
  }

  // That is so exactly if the entries are all of that kind.
  lemma RevokesOwnExactly(s: Store)
    ensures RevokesOwn(s) <==> OwnEntries(s)
  {
    if RevokesOwn(s) {
      forall a | a in s.byAgent && s.byAgent[a] in s.byCode ensures s.byCode[s.byAgent[a]].agent == a {
        var code := s.byAgent[a];
        if s.byCode[code].agent != a {
          assert TakenAway(s, Step(s, Revoke(a), 0.0).0, code);
        }
      }
    }
  }

  // No two agents publish the same code.
  ghost predicate CodesUnique(run: seq<Timed>) {
    forall i, j | 0 <= i < |run| && 0 <= j < |run| && run[i].call.Publish? && run[j].call.Publish? ::
      run[i].call.p.code == run[j].call.p.code ==> run[i].call.agent == run[j].call.agent
  }

  ghost predicate PublishedBy(run: seq<Timed>, agent: Agent, code: Code) {
    exists i :: 0 <= i < |run| && run[i].call.Publish? && run[i].call.agent == agent && run[i].call.p.code == code
  }

  lemma CollectedEntry(s: Store, now: real, a: Agent)
    ensures a in Collected(s, now).byAgent ==> a in s.byAgent && Collected(s, now).byAgent[a] == s.byAgent[a]
  {
  }

  lemma PublishedEntry(s: Store, agent: Agent, p: Publication, now: real, a: Agent)
    ensures var r := Published(s, agent, p, now).0;
      a in r.byAgent ==> (a in s.byAgent && r.byAgent[a] == s.byAgent[a]) || (agent == a && r.byAgent[a] == p.code)
  {
    hide Expiry;
  }

  // An entry is as it was, or the agent has just published its code.
  lemma EntryStep(s: Store, t: Timed, a: Agent)
    ensures var r := Step(s, t.call, t.now).0;
      a in r.byAgent ==>
        (a in s.byAgent && r.byAgent[a] == s.byAgent[a])
        || (t.call.Publish? && t.call.agent == a && r.byAgent[a] == t.call.p.code)
  {
    hide Collected, Published;
    CollectedEntry(s, t.now, a);
    if t.call.Publish? {
      PublishedEntry(Collected(s, t.now), t.call.agent, t.call.p, t.now, a);
    }
  }

  lemma {:induction false} EntriesWerePublished(run: seq<Timed>, a: Agent)
    requires a in After(run).byAgent
    ensures PublishedBy(run, a, After(run).byAgent[a])
  {
    if run != [] {
      EntryStep(After(DropLast(run)), Last(run), a);
      hide Step;
      var n := |run| - 1;
      var code := After(run).byAgent[a];
      if a in After(DropLast(run)).byAgent && After(DropLast(run)).byAgent[a] == code {
        EntriesWerePublished(DropLast(run), a);
        var i :| 0 <= i < n && DropLast(run)[i].call.Publish? && DropLast(run)[i].call.agent == a
          && DropLast(run)[i].call.p.code == code;
        assert run[i] == DropLast(run)[i];
      } else {
        assert run[n] == Last(run);
      }
    }
  }

  // While codes are unique the entries stay so, and nobody takes another's window.
  lemma UniqueCodesAreSafe(run: seq<Timed>)
    requires CodesUnique(run)
    ensures OwnEntries(After(run)) && RevokesOwn(After(run))
  {
    hide After;
    RevokesOwnExactly(After(run));
    AlwaysTraced(run);
    AlwaysConsistent(run);
    var s := After(run);
    forall a | a in s.byAgent && s.byAgent[a] in s.byCode ensures s.byCode[s.byAgent[a]].agent == a {
      var code := s.byAgent[a];
      EntriesWerePublished(run, a);
      var i :| 0 <= i < |run| && run[i].call.Publish? && run[i].call.agent == a && run[i].call.p.code == code;
      var k := LastPublish(run, code);
      assert ComesFrom(s.byCode[code], run[k]) && s.byCode[code].code == code;
    }
  }

  // Two agents that publish the same code: the first, revoking, closes the window of the second.
  lemma SharedCodeIsTaken()
    ensures var p := Publication("c", "s", "e", "i", "n", 0);
      var run := [Timed(Publish("first", p), 0.0, true), Timed(Publish("second", p), 0.0, true)];
      var s := After(run);
      && "c" in s.byCode && s.byCode["c"].agent == "second"
      && "c" !in Step(s, Revoke("first"), 0.0).0.byCode
  {
    var p := Publication("c", "s", "e", "i", "n", 0);
    var one, two := Timed(Publish("first", p), 0.0, true), Timed(Publish("second", p), 0.0, true);
    var run := [one, two];
    assert DropLast(run) == [one] && DropLast([one]) == [];
    var a := Step(EMPTY, one.call, 0.0).0;
    assert After([one]) == a;
    assert a.byCode.Keys == {"c"} && a.byAgent == map["first" := "c"];
    assert Collected(a, 0.0) == a;
  }

  // -------------------------------------------------------------- when a use succeeds

  // A use succeeds exactly while the code's window is stored, unused and not past its expiry, and
  // a refusal says which it was not.
  lemma ConsumeExactly(s: Store, code: Code, now: real)
    ensures var open := code in s.byCode && now <= s.byCode[code].expiresAt;
      Step(s, Consume(code), now).1 ==
        if !open then Refused(NoWindow)
        else if s.byCode[code].consumed then Refused(Consumed)
        else Opened(s.byCode[code].(consumed := true))
  {
  }

  // Looking at it takes the same, and marks nothing.
  lemma LookupExactly(s: Store, code: Code, now: real)
    ensures var open := code in s.byCode && now <= s.byCode[code].expiresAt;
      Step(s, Lookup(code), now).1 ==
        if !open then Refused(NoWindow)
        else if s.byCode[code].consumed then Refused(Consumed)
        else Opened(s.byCode[code])
  {
  }

  // The windows that are open but for the one the agent's entry names.
  function Others(s: Store, agent: Agent, now: real): set<Code> {
    set c | c in s.byCode && now <= s.byCode[c].expiresAt && !Names(s, agent, c)
  }

  // A window opens exactly for a complete publication that finds fewer than 256 others, and says
  // what was published.
  lemma PublishExactly(s: Store, agent: Agent, p: Publication, now: real)
    ensures var complete := p.code != "" && p.salt != "" && p.ephemeralPub != "" && p.identityPub != "";
      Step(s, Publish(agent, p), now).1 ==
        if !complete then Refused(Incomplete)
        else if |Others(s, agent, now)| >= 256 then Refused(TooMany)
        else Opened(Window(p.code, agent, p.salt, p.ephemeralPub, p.identityPub, p.deviceName,
                           Until(p, now), false))
  {
    RoomIsOthers(s, agent, now);
    if Complete(p) {
      OpenedWithRoom(s, agent, p, now);
    }
    UntilIsExpiry(p, now);
    hide Collected, HasRoom, Until, Expiry, Others;
  }

  lemma RoomIsOthers(s: Store, agent: Agent, now: real)
    ensures HasRoom(s, agent, now) <==> |Others(s, agent, now)| < 256
  {
    var t := Collected(s, now);
    var left := if agent in t.byAgent then t.byCode - {t.byAgent[agent]} else t.byCode;
    assert left.Keys == Others(s, agent, now);
    assert |left| == |left.Keys|;
  }

  // Before it does anything else a call clears away exactly the windows past their expiry, and the
  // entries of their agents that named them; the rest stays as it was.
  lemma CollectsExactly(s: Store, now: real)
    ensures var r := Step(s, Open, now).0;
      && (forall c :: c in r.byCode <==> c in s.byCode && now <= s.byCode[c].expiresAt)
      && (forall c <- r.byCode :: r.byCode[c] == s.byCode[c])
      && (forall a :: a in r.byAgent <==>
            (&& a in s.byAgent
             && !(exists c <- s.byCode :: Names(s, a, c) && s.byCode[c].agent == a && s.byCode[c].expiresAt < now)))
      && (forall a <- r.byAgent :: r.byAgent[a] == s.byAgent[a])
  {
  }

  // Revoking clears the agent's entry and the window it names, and nothing else.
  lemma RevokesExactly(s: Store, a: Agent, now: real)
    ensures var r := Step(s, Revoke(a), now).0;
      && (forall c :: c in r.byCode <==> c in s.byCode && !Names(s, a, c))
      && (forall c <- r.byCode :: r.byCode[c] == s.byCode[c])
      && r.byAgent == s.byAgent - {a}
  {
  }

  // The count given to an agent that asks is that of the windows not past their expiry.
  lemma CountExactly(s: Store, now: real)
    ensures Step(s, Open, now).1 == Count(|set c | c in s.byCode && now <= s.byCode[c].expiresAt|)
  {
    var t := Collected(s, now);
    assert t.byCode.Keys == set c | c in s.byCode && now <= s.byCode[c].expiresAt;
    assert |t.byCode| == |t.byCode.Keys|;
  }

  // When a window closes: as asked, but three minutes after its publication at the latest.
  function Until(p: Publication, now: real): real {
    if p.expiresAt != 0 && p.expiresAt as real <= now + 180.0 then p.expiresAt as real else now + 180.0
  }

  lemma UntilIsExpiry(p: Publication, now: real)
    ensures Expiry(p, now) == Until(p, now)
  {
  }

  // The agent neither revokes nor publishes, and the instant is not past `end`.
  predicate LetsBe(t: Timed, agent: Agent, end: real) {
    t.now <= end && t.call != Revoke(agent) && !(t.call.Publish? && t.call.agent == agent)
  }

  // The code was published as call `i`, with success, and then let be.
  ghost predicate OpenSince(run: seq<Timed>, i: nat) {
    && i < |run| && run[i].call.Publish? && PublishedLast(run[..i + 1], run[i].call.p.code)
    && forall j | i < j < |run| :: LetsBe(run[j], run[i].call.agent, Until(run[i].call.p, run[i].now))
  }

  // While codes are unique, such a window can be used exactly once: as long as nobody has, up to
  // the instant it expires.
  lemma UsableExactlyOnce(run: seq<Timed>, i: nat, now: real)
    requires CodesUnique(run) && OpenSince(run, i) && now <= Until(run[i].call.p, run[i].now)
    ensures var p := run[i].call.p; var answer := Step(After(run), Consume(p.code), now).1;
      answer == if UsedSince(run, i, p.code) then Refused(Consumed)
                else Opened(Window(p.code, run[i].call.agent, p.salt, p.ephemeralPub, p.identityPub, p.deviceName,
                                   Until(p, run[i].now), true))
  {
    hide After, Step;
    StoredWhileOpen(run, i);
    ConsumeExactly(After(run), run[i].call.p.code, now);
  }

  ghost predicate UsedSince(run: seq<Timed>, i: nat, code: Code) {
    exists j :: i < j < |run| && run[j].call == Consume(code)
  }

  // Until then it is stored as published, marked exactly if it has been used.
  lemma {:induction false} StoredWhileOpen(run: seq<Timed>, i: nat)
    requires CodesUnique(run) && OpenSince(run, i)
    ensures var p := run[i].call.p; var s := After(run);
      && p.code in s.byCode
      && s.byCode[p.code] == Window(p.code, run[i].call.agent, p.salt, p.ephemeralPub, p.identityPub, p.deviceName,
           Until(p, run[i].now), UsedSince(run, i, p.code))
  {
    hide Step, Until, After;
    if i == |run| - 1 {
      assert run[..i + 1] == run;
      JustStored(run);
    } else {
      var before := DropLast(run);
      StillOpen(run, i);
      StoredWhileOpen(before, i);
      AlwaysConsistent(before);
      UniqueCodesAreSafe(before);
      AfterLast(run);
      StaysStored(After(before), Last(run), run[i].call.p.code);
      OneMoreUse(run, i, run[i].call.p.code);
    }
  }

  lemma AfterLast(run: seq<Timed>)
    requires run != []
    ensures After(run) == Step(After(DropLast(run)), Last(run).call, Last(run).now).0
  {
  }

  lemma JustStored(run: seq<Timed>)
    requires run != [] && Last(run).call.Publish? && PublishedLast(run, Last(run).call.p.code)
    ensures var p := Last(run).call.p; var s := After(run);
      && p.code in s.byCode
      && s.byCode[p.code] == Window(p.code, Last(run).call.agent, p.salt, p.ephemeralPub, p.identityPub, p.deviceName,
           Until(p, Last(run).now), false)
  {
    var p := Last(run).call.p;
    AlwaysConsistent(DropLast(run));
    StoredStep(After(DropLast(run)), Last(run), p.code);
    UntilIsExpiry(p, Last(run).now);
    hide Step, Expiry, Until;
  }

  lemma StillOpen(run: seq<Timed>, i: nat)
    requires CodesUnique(run) && OpenSince(run, i) && i < |run| - 1
    ensures CodesUnique(DropLast(run)) && OpenSince(DropLast(run), i) && DropLast(run)[i] == run[i]
  {
    hide PublishedLast;
    assert DropLast(run)[..i + 1] == run[..i + 1];
  }

  lemma OneMoreUse(run: seq<Timed>, i: nat, code: Code)
    requires i < |run| - 1
    ensures UsedSince(run, i, code) <==> UsedSince(DropLast(run), i, code) || Last(run).call == Consume(code)
  {
    if UsedSince(DropLast(run), i, code) {
      var j :| i < j < |run| - 1 && DropLast(run)[j].call == Consume(code);
      assert run[j].call == Consume(code);
    }
    if UsedSince(run, i, code) && Last(run).call != Consume(code) {
      var j :| i < j < |run| && run[j].call == Consume(code);
      assert DropLast(run)[j].call == Consume(code);
    }
  }

  // A call that lets a window be leaves it stored, and marks it if it uses it.
  lemma StaysStored(s: Store, t: Timed, code: Code)
    requires Consistent(s) && OwnEntries(s) && code in s.byCode
    requires LetsBe(t, s.byCode[code].agent, s.byCode[code].expiresAt) && !(t.call.Publish? && t.call.p.code == code)
    ensures var r := Step(s, t.call, t.now).0; var w := s.byCode[code];
      code in r.byCode && r.byCode[code] == w.(consumed := w.consumed || t.call == Consume(code))
  {
    TakenAwayExactly(s, t.call, t.now, code);
    StoredStep(s, t, code);
    hide Step;
  }
}
