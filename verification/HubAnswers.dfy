/** What the hub answers: who is introduced, who hears a signal, and who is turned away, each
    stated by what the tables held before. */
module HubAnswers {
  import opened Basics
  import opened Hub
  import opened HubRuns

  // ------------------------------------------------------------------ introductions

  // The reason given is so.
  predicate IsSo(reason: Reason, t: Tables, e: Event)
    requires e.Connect? && e.conn in t.conns
  {
    match reason
    case Unauthorized => !t.conns[e.conn].role.ClientRole?
    case RateLimited => !e.admitted
    case DeviceUnknown => e.standing.Unknown?
    case NotPaired => e.standing.Stranger?
    case DeviceOffline => e.target !in t.agents
    case BadRequest => false
  }

  // A request to connect introduces exactly an admitted client to a connected agent it is paired
  // with: one session of the two devices, listed by both connections, and one message to each,
  // naming the client. Anyone else is told why not, once, and nothing changes.
  lemma IntroducedExactly(t: Tables, e: Event)
    requires e.Connect? && e.conn in t.conns && e.sid !in t.sessions
    ensures var (r, frames) := Step(t, e); var k := t.conns[e.conn];
      var meets := k.role.ClientRole? && e.admitted && e.standing.Paired? && e.target in t.agents;
      && (e.sid in r.sessions <==> meets)
      && (if meets then
            var told := Introduced(e.sid, k.device); var agent := t.agents[e.target];
            && multiset(frames) == multiset{Frame(e.conn, told), Frame(agent, told)}
            && r.sessions == t.sessions[e.sid := Session(k.device, e.target)]
            && r.agents == t.agents && r.clients == t.clients && r.conns.Keys == t.conns.Keys
            && (forall x <- t.conns :: r.conns[x] ==
                  if x == e.conn || x == agent then t.conns[x].(sessions := t.conns[x].sessions + {e.sid})
                  else t.conns[x])
          else
            && r == t && |frames| == 1 && frames[0].to == e.conn
            && frames[0].message.Rejected? && IsSo(frames[0].message.reason, t, e))
  {
    if e.target in t.agents {
      SameTwice(t.conns[e.conn].sessions, e.sid);
    }
  }

  lemma SameTwice(sids: set<Sid>, sid: Sid)
    ensures sids + {sid} + {sid} == sids + {sid}
  {
  }

  // A connection stays the same device's and in the same role.
  lemma DevicesStay(w: World, e: Event, c: ConnId)
    requires Enabled(w.tables, w.intro.Keys, e) && c in w.tables.conns
    ensures var r := Next(w, e).tables;
      c in r.conns && r.conns[c].device == w.tables.conns[c].device && r.conns[c].role == w.tables.conns[c].role
  {
    var t := w.tables;
    match e
    case Attach(_, _, _) =>
    case Detach(k, order) => LeaveTables(t, k, order); LeaversStay(t, k, order);
    case Connect(_, _, _, _, _) =>
    case Relay(_, sid) => SessionEndedShrinks(t, sid, None);
    case End(k, sid) => SessionEndedShrinks(t, sid, Some(t.conns[k].device));
  }

  lemma LeaversStay(t: Tables, c: ConnId, order: seq<Sid>)
    requires c in t.conns
    ensures var r := Leave(t, c, order).0;
      c in r.conns && r.conns[c].device == t.conns[c].device && r.conns[c].role == t.conns[c].role
  {
    var gone := AllEndedShrinks(Unlisted(t, c), order, t.conns[c].device);
  }

  // The request that introduced a session.
  predicate Asked(w: World, e: Event, sid: Sid)
    requires sid in w.tables.sessions
  {
    && e.Connect? && e.sid == sid && e.admitted && e.standing.Paired?
    && e.target == w.tables.sessions[sid].agent
    && e.conn in w.tables.conns && w.tables.conns[e.conn].role.ClientRole?
    && w.tables.conns[e.conn].device == w.tables.sessions[sid].client
  }

  ghost predicate AllAsked(w: World, events: seq<Event>) {
    forall sid <- w.tables.sessions :: exists e <- events :: Asked(w, e, sid)
  }

  lemma LeaveSessions(t: Tables, c: ConnId, order: seq<Sid>)
    requires c in t.conns
    ensures var r := Leave(t, c, order).0;
      forall sid <- r.sessions :: sid in t.sessions && r.sessions[sid] == t.sessions[sid]
  {
    var gone := AllEndedShrinks(Unlisted(t, c), order, t.conns[c].device);
  }

  lemma NumbersAreFresh(w: World, e: Event)
    requires Inv(w) && e.Connect? && Enabled(w.tables, w.intro.Keys, e)
    ensures e.sid !in w.tables.sessions
  {
  }

  lemma RelaySessions(t: Tables, c: ConnId, sid: Sid)
    requires c in t.conns
    ensures Relayed(t, c, sid).0.sessions in {t.sessions, t.sessions - {sid}}
  {
    SessionEndedShrinks(t, sid, None);
    hide SessionEnded, SignalFrames, Ends;
  }

  lemma EndSessions(t: Tables, sid: Sid, asker: Device)
    ensures SessionEnded(t, sid, Some(asker)).0.sessions in {t.sessions, t.sessions - {sid}}
  {
    SessionEndedShrinks(t, sid, Some(asker));
    hide SessionEnded;
    assert t.sessions - {} == t.sessions;
  }

  // A step adds no session but the one it introduces, and changes none.
  lemma StepSessions(t: Tables, e: Event, sid: Sid)
    requires e.Attach? || e.conn in t.conns
    requires (e.Connect? ==> e.sid !in t.sessions) && sid in Step(t, e).0.sessions
    ensures sid in t.sessions || (e.Connect? && e.sid == sid)
    ensures sid in t.sessions ==> Step(t, e).0.sessions[sid] == t.sessions[sid]
  {
    hide Enrolled, Leave, Relayed, SessionEnded;
    match e
    case Attach(c, role, d) => EnrolledEndsNothing(t, c, role, d);
    case Detach(c, order) => LeaveSessions(t, c, order);
    case Connect(_, _, _, _, _) => IntroducedExactly(t, e);
    case Relay(c, s) => RelaySessions(t, c, s);
    case End(c, s) => EndSessions(t, s, t.conns[c].device);
  }

  lemma SessionsStay(w: World, e: Event, sid: Sid)
    requires Inv(w) && Enabled(w.tables, w.intro.Keys, e) && sid in Next(w, e).tables.sessions
    ensures sid in w.tables.sessions || (e.Connect? && e.sid == sid)
    ensures sid in w.tables.sessions ==> Next(w, e).tables.sessions[sid] == w.tables.sessions[sid]
  {
    if e.Connect? {
      NumbersAreFresh(w, e);
    }
    hide Inv, Step;
    StepSessions(w.tables, e, sid);
  }

  lemma NextKeepsAsked(w: World, events: seq<Event>, e: Event)
    requires Inv(w) && AllAsked(w, events) && Enabled(w.tables, w.intro.Keys, e)
    ensures AllAsked(Next(w, e), events + [e])
  {
    var v := Next(w, e);
    forall sid | sid in v.tables.sessions ensures exists f <- events + [e] :: Asked(v, f, sid) {
      SessionsStay(w, e, sid);
      if sid in w.tables.sessions {
        var f :| f in events && Asked(w, f, sid);
        DevicesStay(w, e, f.conn);
        assert f in events + [e];
        hide Next;
        assert Asked(v, f, sid);
      } else {
        IntroducedExactly(w.tables, e);
        assert e in events + [e] && Asked(v, e, sid);
      }
    }
  }

  lemma {:induction false} LeadsKeepsAsked(w: World, before: seq<Event>, events: seq<Event>, v: World)
    requires Inv(w) && AllAsked(w, before) && Leads(w, events, v)
    ensures AllAsked(v, before + events)
    decreases |events|
  {
    hide Inv, AllAsked;
    if events == [] {
      assert before + events == before;
    } else {
      NextKeepsAsked(w, before, events[0]);
      NextKeepsInv(w, events[0]);
      LeadsKeepsAsked(Next(w, events[0]), before + [events[0]], events[1..], v);
      assert before + [events[0]] + events[1..] == before + events;
    }
  }

  // Every session there ever is was asked for by a client's connection that was admitted and is
  // paired with its agent.
  lemma EverySessionWasAllowed(events: seq<Event>, w: World, sid: Sid)
    requires Leads(START, events, w) && sid in w.tables.sessions
    ensures exists e <- events ::
      && e.Connect? && e.sid == sid && e.admitted && e.standing.Paired?
      && e.target == w.tables.sessions[sid].agent
      && e.conn in w.tables.conns && w.tables.conns[e.conn].role.ClientRole?
      && w.tables.conns[e.conn].device == w.tables.sessions[sid].client
  {
    LeadsKeepsAsked(START, [], events, w);
    assert [] + events == events;
    var e :| e in events && Asked(w, e, sid);
  }

  // ---------------------------------------------------------------------- signals

  // The connections a device is reached at in one of its roles.
  predicate Reaches(t: Tables, k: ConnId, d: Device, role: Role) {
    match role
    case AgentRole => d in t.agents && t.agents[d] == k
    case ClientRole => Live(t, k) && t.conns[k].role.ClientRole? && t.conns[k].device == d
  }

  lemma ReachedAtItsEnds(w: World, s: Session, role: Role, k: ConnId)
    requires Reachable(w) && s.agent != s.client
    ensures var d := if role.AgentRole? then s.agent else s.client;
      k in Ends(w.tables, s, d) <==> Reaches(w.tables, k, d, role)
  {
    var events :| Leads(START, events, w);
    LeadsKeepsComplete(START, events, w);
    ReachableInv(w);
    if k in ClientConns(w.tables, s.client) {
      ListedServes(w, s.client, k);
    }
  }

  // A signal from one party of a session is heard at exactly the connections of the other: the
  // agent's current one, or all attached ones of the client. If there is none, or the sender is
  // no party, or the session is over, the sender is turned down instead, and only then.
  lemma SignalsAreHeardExactly(w: World, c: ConnId, sid: Sid, k: ConnId)
    requires Reachable(w) && Live(w.tables, c) && sid in w.tables.sessions
    requires w.tables.sessions[sid].agent != w.tables.sessions[sid].client
    ensures var t := w.tables; var s := t.sessions[sid]; var d := t.conns[c].device;
      var frames := Step(t, Relay(c, sid)).1;
      && (Frame(k, Signal(sid, s.client, s.agent)) in frames <==> d == s.client && Reaches(t, k, s.agent, AgentRole))
      && (Frame(k, Signal(sid, s.agent, s.client)) in frames <==> d == s.agent && Reaches(t, k, s.client, ClientRole))
  {
    var t := w.tables;
    var s := t.sessions[sid];
    var d := t.conns[c].device;
    ReachedAtItsEnds(w, s, AgentRole, k);
    ReachedAtItsEnds(w, s, ClientRole, k);
    NoSignals(t, sid);
    SignalledAt(Ends(t, s, s.agent), sid, s.client, s.agent, k);
    SignalledAt(Ends(t, s, s.client), sid, s.agent, s.client, k);
    hide Reachable, Reaches, Ends, SignalFrames, SessionEnded;
  }

  lemma SignalledAt(ids: seq<ConnId>, sid: Sid, from: Device, to: Device, k: ConnId)
    ensures Frame(k, Signal(sid, from, to)) in SignalFrames(ids, sid, from, to) <==> k in ids
    ensures forall f <- SignalFrames(ids, sid, from, to) :: f.message == Signal(sid, from, to)
  {
    if k in ids {
      var i :| 0 <= i < |ids| && ids[i] == k;
      assert SignalFrames(ids, sid, from, to)[i] == Frame(k, Signal(sid, from, to));
    }
  }

  // The sender of a signal is turned down exactly if the session is over, is not its own, or its
  // other party is not connected, and is told which.
  lemma SignalsAreRefusedExactly(w: World, c: ConnId, sid: Sid, reason: Reason)
    requires Reachable(w) && Live(w.tables, c)
    ensures var t := w.tables; var d := t.conns[c].device;
      Frame(c, Rejected(reason)) in Step(t, Relay(c, sid)).1 <==>
        match reason
        case BadRequest => sid !in t.sessions
        case Unauthorized => sid in t.sessions && d != t.sessions[sid].client && d != t.sessions[sid].agent
        case DeviceOffline => sid in t.sessions &&
          var s := t.sessions[sid];
          if d == s.client then s.agent !in t.agents
          else d == s.agent && s.client !in t.clients
        case _ => false
  {
    ReachableInv(w);
    var t := w.tables;
    NoSignals(t, sid);
    if sid in t.sessions {
      var s, d := t.sessions[sid], t.conns[c].device;
      var ids := Ends(t, s, Peer(s, d));
      SignalledAt(ids, sid, d, Peer(s, d), c);
      if s.client in t.clients {
        assert ClientList(t, s.client, t.clients[s.client]);
      }
      hide Reachable, Inv, SignalFrames, SessionEnded;
    }
  }

  // ------------------------------------------------------------------- attaching

  // The attached connections of a client.
  ghost function AttachedTo(t: Tables, d: Device): set<ConnId> {
    set k | k in t.conns && Live(t, k) && t.conns[k].role.ClientRole? && t.conns[k].device == d
  }

  lemma {:induction false} DistinctSize(ids: seq<ConnId>, all: set<ConnId>)
    requires forall i, j | 0 <= i < j < |ids| :: ids[i] != ids[j]
    requires forall k :: k in ids <==> k in all
    ensures |all| == |ids|
  {
    if ids == [] {
      assert all == {};
    } else {
      var n := |ids| - 1;
      assert ids == ids[..n] + [ids[n]];
      assert ids[n] in all && ids[n] !in ids[..n];
      DistinctSize(ids[..n], all - {ids[n]});
    }
  }

  lemma AttachedCount(w: World, d: Device)
    requires Reachable(w)
    ensures |ClientConns(w.tables, d)| == |AttachedTo(w.tables, d)|
  {
    var t := w.tables;
    var events :| Leads(START, events, w);
    LeadsKeepsComplete(START, events, w);
    ReachableInv(w);
    hide Leads, Reachable;
    var ids := ClientConns(t, d);
    forall k ensures k in ids <==> k in AttachedTo(t, d) {
      if k in ids {
        ListedServes(w, d, k);
      }
    }
    if d in t.clients {
      assert ClientList(t, d, ids);
    }
    DistinctSize(ids, AttachedTo(t, d));
  }

  // A new connection of an agent always becomes its device's one; a new connection of a client is
  // turned away exactly if eight others of it are attached, and all others stay as they were.
  lemma TurnedAwayExactly(w: World, c: ConnId, role: Role, d: Device)
    requires Reachable(w) && c !in w.tables.conns
    ensures var t := w.tables; var r := Step(t, Attach(c, role, d)).0; var room := |AttachedTo(t, d)| < 8;
      && (Live(r, c) <==> role.AgentRole? || room)
      && r.agents == (if role.AgentRole? then t.agents[d := c] else t.agents)
      && ClientConns(r, d) == ClientConns(t, d) + (if role.ClientRole? && room then [c] else [])
      && (forall x | x != d :: ClientConns(r, x) == ClientConns(t, x))
      && r.sessions == t.sessions && (forall k <- t.conns :: k in r.conns && r.conns[k] == t.conns[k])
  {
    AttachedCount(w, d);
    hide Reachable, AttachedTo;
  }
}
