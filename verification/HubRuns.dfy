/** Runs of the hub: who is listed, what every session rests on, and who can end it. */
module HubRuns {
  import opened Basics
  import opened Hub
  import PairingRuns
  import PairingStore

  // The hub, and for every session ever introduced the two connections that introduced it.
  datatype World = World(tables: Tables, intro: map<Sid, (ConnId, ConnId)>)

  const START := World(EMPTY, map[])

  function Next(w: World, e: Event): World
    requires Enabled(w.tables, w.intro.Keys, e)
  {
    var t := w.tables;
    World(Step(t, e).0,
          if e.Connect? && Introduces(t, e.conn, e.target, e.admitted, e.standing)
          then w.intro[e.sid := (e.conn, t.agents[e.target])] else w.intro)
  }

  ghost predicate Leads(from: World, events: seq<Event>, to: World)
    decreases |events|
  {
    if events == [] then from == to
    else Enabled(from.tables, from.intro.Keys, events[0]) && Leads(Next(from, events[0]), events[1..], to)
  }

  ghost predicate Reachable(w: World) { exists events :: Leads(START, events, w) }

  // ------------------------------------------------------------------- invariant

  predicate Serves(t: Tables, c: ConnId, role: Role, d: Device) {
    Live(t, c) && t.conns[c].role == role && t.conns[c].device == d
  }

  ghost predicate AgentsInv(t: Tables) {
    forall d <- t.agents :: Serves(t, t.agents[d], AgentRole, d)
  }

  ghost predicate ClientsInv(t: Tables) {
    forall d <- t.clients :: ClientList(t, d, t.clients[d])
  }

  ghost predicate ClientList(t: Tables, d: Device, ids: seq<ConnId>) {
    && 0 < |ids| <= MAX_CLIENT_CONNS
    && (forall i, j | 0 <= i < j < |ids| :: ids[i] != ids[j])
    && (forall c <- ids :: Serves(t, c, ClientRole, d))
  }

  ghost predicate Lists(t: Tables, c: ConnId, sid: Sid) { c in t.conns && sid in t.conns[c].sessions }

  // Both introducing connections are attached and list the session.
  ghost predicate SessionInv(w: World, sid: Sid)
    requires sid in w.tables.sessions
  {
    var s := w.tables.sessions[sid];
    && sid in w.intro
    && Serves(w.tables, w.intro[sid].0, ClientRole, s.client) && Lists(w.tables, w.intro[sid].0, sid)
    && Serves(w.tables, w.intro[sid].1, AgentRole, s.agent) && Lists(w.tables, w.intro[sid].1, sid)
  }

  // A connection lists only sessions of its own device.
  ghost predicate ListedInv(w: World, c: ConnId, sid: Sid)
    requires Lists(w.tables, c, sid)
  {
    && sid in w.intro
    && (sid in w.tables.sessions ==> Party(w.tables.sessions[sid], w.tables.conns[c].device))
  }

  ghost predicate Inv(w: World) {
    && AgentsInv(w.tables) && ClientsInv(w.tables)
    && (forall sid <- w.tables.sessions :: SessionInv(w, sid))
    && (forall c, sid | Lists(w.tables, c, sid) :: ListedInv(w, c, sid))
  }

  // --------------------------------------------------------- ending sessions only shrinks

  // `r` is `t` without the sessions `gone`, some of whose listings may be dropped.
  ghost predicate Shrunk(t: Tables, r: Tables, gone: set<Sid>) {
    && r.agents == t.agents && r.clients == t.clients
    && r.sessions == t.sessions - gone && r.conns.Keys == t.conns.Keys
    && forall c <- t.conns ::
         && r.conns[c] == t.conns[c].(sessions := r.conns[c].sessions)
         && t.conns[c].sessions - gone <= r.conns[c].sessions <= t.conns[c].sessions
  }

  predicate MayEnd(t: Tables, sid: Sid, requester: Option<Device>) {
    sid in t.sessions && (requester.Some? ==> Party(t.sessions[sid], requester.value))
  }

  lemma NotifiedShrinks(t: Tables, sid: Sid, s: Session, d: Device, requester: Option<Device>)
    requires sid !in t.sessions
    ensures Shrunk(t, Notified(t, sid, s, d, requester).0, {sid})
  {
  }

  lemma SessionEndedShrinks(t: Tables, sid: Sid, requester: Option<Device>)
    ensures Shrunk(t, SessionEnded(t, sid, requester).0, if MayEnd(t, sid, requester) then {sid} else {})
  {
    if MayEnd(t, sid, requester) {
      var s := t.sessions[sid];
      var u := t.(sessions := t.sessions - {sid});
      NotifiedShrinks(u, sid, s, s.agent, requester);
      var a := Notified(u, sid, s, s.agent, requester).0;
      NotifiedShrinks(a, sid, s, s.client, requester);
    }
  }

  lemma ShrunkTwice(t: Tables, u: Tables, r: Tables, g: set<Sid>, h: set<Sid>)
    requires Shrunk(t, u, g) && Shrunk(u, r, h)
    ensures Shrunk(t, r, g + h)
  {
  }

  // Walking a listing ends exactly those of its sessions the device is a party to.
  lemma {:induction false} AllEndedShrinks(t: Tables, order: seq<Sid>, d: Device) returns (gone: set<Sid>)
    ensures Shrunk(t, AllEnded(t, order, Some(d)).0, gone)
    ensures forall sid :: sid in gone <==> sid in order && MayEnd(t, sid, Some(d))
  {
    gone := {};
    if order != [] {
      var last := order[|order| - 1];
      gone := AllEndedShrinks(t, order[..|order| - 1], d);
      var u := AllEnded(t, order[..|order| - 1], Some(d)).0;
      SessionEndedShrinks(u, last, Some(d));
      var more := if MayEnd(u, last, Some(d)) then {last} else {};
      ShrunkTwice(t, u, SessionEnded(u, last, Some(d)).0, gone, more);
      gone := gone + more;
    }
  }

  lemma ShrunkKeepsInv(w: World, r: Tables, gone: set<Sid>)
    requires Inv(w) && Shrunk(w.tables, r, gone)
    ensures Inv(w.(tables := r))
  {
    var v := w.(tables := r);
    forall d | d in r.clients ensures ClientList(r, d, r.clients[d]) {
      assert ClientList(w.tables, d, w.tables.clients[d]);
    }
    forall sid | sid in r.sessions ensures SessionInv(v, sid) {
      assert SessionInv(w, sid);
    }
    forall c, sid | Lists(r, c, sid) ensures ListedInv(v, c, sid) {
      assert Lists(w.tables, c, sid) && ListedInv(w, c, sid);
    }
  }

  // ------------------------------------------------------------------- detaching

  lemma {:induction false} WithoutIsFilter(ids: seq<ConnId>, c: ConnId)
    requires forall i, j | 0 <= i < j < |ids| :: ids[i] != ids[j]
    ensures var r := Without(ids, c);
      && |r| <= |ids| && (forall x :: x in r <==> x in ids && x != c)
      && (forall i, j | 0 <= i < j < |r| :: r[i] != r[j])
  {
    if ids != [] {
      var n := |ids| - 1;
      WithoutIsFilter(ids[..n], c);
      assert ids == ids[..n] + [ids[n]];
      assert ids[n] !in Without(ids[..n], c);
      assert Without(ids, c) == Without(ids[..n], c) + if ids[n] == c then [] else [ids[n]];
    }
  }

  predicate Mentioned(t: Tables, c: ConnId) {
    (exists d <- t.agents :: t.agents[d] == c) || (exists d <- t.clients :: c in t.clients[d])
  }

  lemma UnlistedForgets(w: World, c: ConnId)
    requires Inv(w) && c in w.tables.conns
    ensures Inv(w.(tables := Unlisted(w.tables, c))) && !Mentioned(Unlisted(w.tables, c), c)
    ensures Unlisted(w.tables, c).sessions == w.tables.sessions && Unlisted(w.tables, c).conns == w.tables.conns
  {
    var t := w.tables;
    var u := Unlisted(t, c);
    var d := t.conns[c].device;
    forall x | x in t.clients ensures ClientList(t, x, t.clients[x]) {
    }
    if t.conns[c].role.ClientRole? && d in t.clients {
      WithoutIsFilter(t.clients[d], c);
    }
    forall x | x in u.clients ensures ClientList(u, x, u.clients[x]) && c !in u.clients[x] {
      if x in t.clients {
        assert ClientList(t, x, t.clients[x]);
      }
    }
    var v := w.(tables := u);
    forall sid | sid in u.sessions ensures SessionInv(v, sid) {
      assert SessionInv(w, sid);
    }
    forall k, sid | Lists(u, k, sid) ensures ListedInv(v, k, sid) {
      assert Lists(t, k, sid) && ListedInv(w, k, sid);
    }
  }

  // Nothing refers to a connection that has been unlisted and whose sessions are ended.
  lemma ClosedKeepsInv(w: World, c: ConnId)
    requires Inv(w) && c in w.tables.conns && !Mentioned(w.tables, c)
    requires forall sid <- w.tables.sessions :: c != w.intro[sid].0 && c != w.intro[sid].1
    ensures Inv(w.(tables := w.tables.(conns := w.tables.conns[c := w.tables.conns[c].(phase := Detached)])))
  {
    var t := w.tables;
    var r := t.(conns := t.conns[c := t.conns[c].(phase := Detached)]);
    var v := w.(tables := r);
    forall d | d in r.clients ensures ClientList(r, d, r.clients[d]) {
      assert ClientList(t, d, t.clients[d]);
    }
    forall sid | sid in r.sessions ensures SessionInv(v, sid) {
      assert SessionInv(w, sid);
    }
    forall k, sid | Lists(r, k, sid) ensures ListedInv(v, k, sid) {
      assert Lists(t, k, sid) && ListedInv(w, k, sid);
    }
  }

  // Letting a connection go ends every session it introduced.
  lemma LeaveEndsItsSessions(w: World, c: ConnId, order: seq<Sid>)
    requires Inv(w) && c in w.tables.conns && Listing(order, w.tables.conns[c].sessions)
    ensures Inv(w.(tables := Leave(w.tables, c, order).0))
    ensures var r := Leave(w.tables, c, order).0;
      && c in r.conns && r.conns[c].phase.Detached? && !Mentioned(r, c)
      && (forall sid <- w.intro :: w.intro[sid].0 == c || w.intro[sid].1 == c ==> sid !in r.sessions)
      && (forall sid <- w.tables.sessions ::
            sid !in r.sessions ==> Party(w.tables.sessions[sid], w.tables.conns[c].device))
      && r.sessions.Keys <= w.tables.sessions.Keys
  {
    var t := w.tables;
    var d := t.conns[c].device;
    UnlistedForgets(w, c);
    var u := Unlisted(t, c);
    var gone := AllEndedShrinks(u, order, d);
    var a := AllEnded(u, order, Some(d)).0;
    ShrunkKeepsInv(w.(tables := u), a, gone);
    forall sid | Lists(t, c, sid) ensures sid !in a.sessions {
      assert ListedInv(w, c, sid);
    }
    forall sid | sid in a.sessions ensures c != w.intro[sid].0 && c != w.intro[sid].1 {
      assert SessionInv(w, sid);
    }
    ClosedKeepsInv(w.(tables := a), c);
  }

  // --------------------------------------------------------------- every step

  // A connection that was not known is in no list.
  lemma StrangerIsUnlisted(t: Tables, c: ConnId, x: Device)
    requires ClientsInv(t) && c !in t.conns && x in t.clients
    ensures c !in t.clients[x] && ClientList(t, x, t.clients[x])
  {
    assert ClientList(t, x, t.clients[x]);
  }

  lemma ListStays(t: Tables, c: ConnId, k: Conn, x: Device, ids: seq<ConnId>)
    requires ClientList(t, x, ids) && c !in t.conns
    ensures ClientList(t.(conns := t.conns[c := k]), x, ids)
  {
  }

  lemma ListGrows(t: Tables, c: ConnId, d: Device, ids: seq<ConnId>)
    requires ids == [] || ClientList(t, d, ids)
    requires c !in ids && |ids| < MAX_CLIENT_CONNS && c !in t.conns
    ensures ClientList(t.(conns := t.conns[c := Conn(ClientRole, d, Attached, {})]), d, ids + [c])
  {
  }

  lemma ListsIgnoreTheRest(t: Tables, r: Tables, x: Device, ids: seq<ConnId>)
    requires ClientList(t, x, ids) && t.conns == r.conns
    ensures ClientList(r, x, ids)
  {
  }

  lemma EnrolledKeepsLists(t: Tables, c: ConnId, role: Role, d: Device)
    requires AgentsInv(t) && ClientsInv(t) && c !in t.conns
    ensures AgentsInv(Enrolled(t, c, role, d)) && ClientsInv(Enrolled(t, c, role, d))
  {
    hide ClientList;
    var r := Enrolled(t, c, role, d);
    var u := t.(conns := r.conns);
    forall x | x in r.clients ensures ClientList(r, x, r.clients[x]) {
      if x in t.clients {
        StrangerIsUnlisted(t, c, x);
      }
      if x in t.clients && r.clients[x] == t.clients[x] {
        ListStays(t, c, r.conns[c], x, t.clients[x]);
      } else {
        ListGrows(t, c, d, ClientConns(t, d));
      }
      ListsIgnoreTheRest(u, r, x, r.clients[x]);
    }
  }

  lemma EnrolledKeepsInv(w: World, c: ConnId, role: Role, d: Device)
    requires Inv(w) && c !in w.tables.conns
    ensures Inv(w.(tables := Enrolled(w.tables, c, role, d)))
  {
    var t := w.tables;
    EnrolledKeepsLists(t, c, role, d);
    hide AgentsInv, ClientsInv;
    var r := Enrolled(t, c, role, d);
    var v := w.(tables := r);
    forall sid | sid in r.sessions ensures SessionInv(v, sid) {
      assert SessionInv(w, sid);
    }
    forall k, sid | Lists(r, k, sid) ensures ListedInv(v, k, sid) {
      assert Lists(t, k, sid) && ListedInv(w, k, sid);
    }
  }

  lemma MeetKeepsLists(w: World, e: Event)
    requires Inv(w) && e.Connect? && Enabled(w.tables, w.intro.Keys, e)
    ensures AgentsInv(Next(w, e).tables) && ClientsInv(Next(w, e).tables)
  {
    hide SessionInv, ListedInv;
    var t, r := w.tables, Next(w, e).tables;
    forall d | d in r.clients ensures ClientList(r, d, r.clients[d]) {
      assert ClientList(t, d, t.clients[d]);
    }
  }

  lemma MeetKeepsSessions(w: World, e: Event)
    requires Inv(w) && e.Connect? && Enabled(w.tables, w.intro.Keys, e)
    ensures forall sid <- Next(w, e).tables.sessions :: SessionInv(Next(w, e), sid)
  {
    hide ClientsInv, ListedInv;
    forall sid | sid in Next(w, e).tables.sessions ensures SessionInv(Next(w, e), sid) {
      if sid in w.tables.sessions {
        assert SessionInv(w, sid);
      }
    }
  }

  lemma MeetKeepsInv(w: World, e: Event)
    requires Inv(w) && e.Connect? && Enabled(w.tables, w.intro.Keys, e)
    ensures Inv(Next(w, e))
  {
    MeetKeepsLists(w, e);
    MeetKeepsSessions(w, e);
    hide ClientsInv, SessionInv;
    var t, v := w.tables, Next(w, e);
    forall k, sid | Lists(v.tables, k, sid) ensures ListedInv(v, k, sid) {
      if Lists(t, k, sid) {
        assert ListedInv(w, k, sid);
      }
    }
  }

  // The lock is not held between looking the agent up and listing the session. If anything ran
  // in between, all is still well exactly if the agent's connection is still attached.
  lemma LateIntroduction(w: World, c: ConnId, agent: ConnId, target: Device, sid: Sid)
    requires Inv(w) && sid !in w.intro && Live(w.tables, c) && w.tables.conns[c].role.ClientRole?
    requires agent in w.tables.conns && w.tables.conns[agent].role.AgentRole? && w.tables.conns[agent].device == target
    ensures var r := World(Met(w.tables, c, agent, target, sid).0, w.intro[sid := (c, agent)]);
      Inv(r) <==> Live(w.tables, agent)
  {
    var t := w.tables;
    var v := World(Met(t, c, agent, target, sid).0, w.intro[sid := (c, agent)]);
    assert SessionInv(v, sid) <==> Live(t, agent);
    LateKeepsLists(w, c, agent, target, sid);
    hide AgentsInv, ClientsInv;
    if Live(t, agent) {
      forall s | s in v.tables.sessions ensures SessionInv(v, s) {
        if s in t.sessions {
          assert SessionInv(w, s);
        }
      }
      forall k, s | Lists(v.tables, k, s) ensures ListedInv(v, k, s) {
        if Lists(t, k, s) {
          assert ListedInv(w, k, s);
        }
      }
    }
  }

  // A world in which the agent left in between: its connection is detached, and a session rests
  // on it all the same.
  lemma AgentLeftMeanwhile() returns (w: World)
    ensures Reachable(w) && "s" !in w.intro && Live(w.tables, 2) && w.tables.conns[2].role.ClientRole?
    ensures 1 in w.tables.conns && w.tables.conns[1].role.AgentRole? && w.tables.conns[1].device == "pc"
    ensures var r := World(Met(w.tables, 2, 1, "pc", "s").0, w.intro["s" := (2, 1)]);
      "s" in r.tables.sessions && !Live(r.tables, 1) && !Inv(r)
  {
    var a, b, c := Attach(1, AgentRole, "pc"), Attach(2, ClientRole, "tablet"), Detach(1, []);
    var one := Next(START, a);
    var two := Next(one, b);
    assert Listing([], two.tables.conns[1].sessions);
    w := Next(two, c);
    assert Leads(w, [], w);
    assert Leads(two, [c], w) by { assert [c][1..] == []; }
    assert Leads(one, [b, c], w) by { assert [b, c][1..] == [c]; }
    assert Leads(START, [a, b, c], w) by { assert [a, b, c][1..] == [b, c]; }
    ReachableInv(w);
    assert !Live(w.tables, 1);
    LateIntroduction(w, 2, 1, "pc", "s");
  }

  lemma LateKeepsLists(w: World, c: ConnId, agent: ConnId, target: Device, sid: Sid)
    requires Inv(w) && c in w.tables.conns && agent in w.tables.conns
    ensures AgentsInv(Met(w.tables, c, agent, target, sid).0) && ClientsInv(Met(w.tables, c, agent, target, sid).0)
  {
    hide SessionInv, ListedInv;
    var t, r := w.tables, Met(w.tables, c, agent, target, sid).0;
    forall d | d in r.clients ensures ClientList(r, d, r.clients[d]) {
      assert ClientList(t, d, t.clients[d]);
    }
  }

  lemma NextKeepsInv(w: World, e: Event)
    requires Inv(w) && Enabled(w.tables, w.intro.Keys, e)
    ensures Inv(Next(w, e))
  {
    var t := w.tables;
    match e
    case Attach(c, role, d) => EnrolledKeepsInv(w, c, role, d);
    case Detach(c, order) => LeaveEndsItsSessions(w, c, order);
    case Connect(_, _, _, _, _) => MeetKeepsInv(w, e);
    case Relay(c, sid) =>
      SessionEndedShrinks(t, sid, None);
      ShrunkKeepsInv(w, SessionEnded(t, sid, None).0, if MayEnd(t, sid, None) then {sid} else {});
    case End(c, sid) =>
      var asker := Some(t.conns[c].device);
      SessionEndedShrinks(t, sid, asker);
      ShrunkKeepsInv(w, SessionEnded(t, sid, asker).0, if MayEnd(t, sid, asker) then {sid} else {});
  }

  lemma {:induction false} LeadsKeepsInv(w: World, events: seq<Event>, v: World)
    requires Inv(w) && Leads(w, events, v)
    ensures Inv(v)
    decreases |events|
  {
    if events != [] {
      NextKeepsInv(w, events[0]);
      LeadsKeepsInv(Next(w, events[0]), events[1..], v);
    }
  }

  // In every reachable world only attached connections are listed, at most eight distinct
  // ones per client, and every session rests on both connections that introduced it.
  lemma ReachableInv(w: World)
    requires Reachable(w)
    ensures Inv(w)
  {
    var events :| Leads(START, events, w);
    LeadsKeepsInv(START, events, w);
  }

  // ------------------------------------------------------------------ who ends a session

  lemma EnrolledEndsNothing(t: Tables, c: ConnId, role: Role, d: Device)
    ensures Enrolled(t, c, role, d).sessions == t.sessions
  {
  }

  // A session that leaves the table was ended through a connection of one of its parties.
  lemma EndedOnlyForAParty(w: World, e: Event, sid: Sid)
    requires Reachable(w) && Enabled(w.tables, w.intro.Keys, e)
    requires sid in w.tables.sessions && sid !in Next(w, e).tables.sessions
    ensures e.Detach? || e.End? || e.Relay?
    ensures Party(w.tables.sessions[sid], w.tables.conns[e.conn].device)
    ensures e.End? || e.Relay? ==> e.sid == sid
  {
    ReachableInv(w);
    hide Reachable, Inv, Leave, SessionEnded, Enrolled;
    match e
    case Attach(_, _, _) => EnrolledEndsNothing(w.tables, e.conn, e.role, e.device);
    case Detach(c, order) => LeaveEndsItsSessions(w, c, order);
    case Connect(_, _, _, _, _) =>
    case Relay(c, s) => SessionEndedShrinks(w.tables, s, None);
    case End(c, s) => SessionEndedShrinks(w.tables, s, Some(w.tables.conns[c].device));
  }

  // The server ends one itself only when the peer a signal was meant for is not connected.
  lemma ServerEndsWhenPeerIsAway(w: World, c: ConnId, sid: Sid)
    requires Live(w.tables, c) && sid in w.tables.sessions && Reachable(w)
    ensures var t := w.tables; var s := t.sessions[sid]; var d := t.conns[c].device;
      sid !in Relayed(t, c, sid).0.sessions <==>
        Party(s, d) && (if Peer(s, d) == s.agent then s.agent !in t.agents else s.client !in t.clients)
  {
    ReachableInv(w);
    var t := w.tables;
    SessionEndedShrinks(t, sid, None);
    forall d | d in t.clients ensures t.clients[d] != [] {
      assert ClientList(t, d, t.clients[d]);
    }
  }

  // Whoever ends a session, its end is told to every connection of each party but the one that
  // asked, and to nobody else.
  lemma EndIsToldExactly(t: Tables, sid: Sid, requester: Option<Device>, c: ConnId)
    requires MayEnd(t, sid, requester)
    ensures var s := t.sessions[sid];
      Frame(c, Ended(sid)) in SessionEnded(t, sid, requester).1 <==>
        || (requester != Some(s.agent) && c in Ends(t, s, s.agent))
        || (requester != Some(s.client) && c in Ends(t, s, s.client))
    ensures forall f <- SessionEnded(t, sid, requester).1 :: f.message == Ended(sid)
  {
    var s := t.sessions[sid];
    FramesReach(Ends(t, s, s.agent), sid, c);
    FramesReach(Ends(t, s, s.client), sid, c);
    var u := t.(sessions := t.sessions - {sid});
    var a := Notified(u, sid, s, s.agent, requester).0;
    assert Ends(a, s, s.client) == Ends(t, s, s.client);
  }

  lemma FramesReach(ids: seq<ConnId>, sid: Sid, c: ConnId)
    ensures Frame(c, Ended(sid)) in EndFrames(ids, sid) <==> c in ids
  {
    if c in ids {
      var i :| 0 <= i < |ids| && ids[i] == c;
      assert EndFrames(ids, sid)[i] == Frame(c, Ended(sid));
    }
  }

  lemma NextKeepsGone(w: World, e: Event, sid: Sid)
    requires Inv(w) && Enabled(w.tables, w.intro.Keys, e) && sid in w.intro && sid !in w.tables.sessions
    ensures sid in Next(w, e).intro && Next(w, e).intro[sid] == w.intro[sid] && sid !in Next(w, e).tables.sessions
  {
    match e
    case Attach(_, _, _) =>
    case Detach(c, order) => LeaveEndsItsSessions(w, c, order);
    case Connect(_, _, _, _, _) =>
    case Relay(c, s) => SessionEndedShrinks(w.tables, s, None);
    case End(c, s) => SessionEndedShrinks(w.tables, s, Some(w.tables.conns[c].device));
  }

  // An ended session never comes back, so it is ended at most once.
  lemma {:induction false} EndedIsFinal(w: World, events: seq<Event>, v: World, sid: Sid)
    requires Inv(w) && Leads(w, events, v) && sid in w.intro && sid !in w.tables.sessions
    ensures sid !in v.tables.sessions
    decreases |events|
  {
    if events != [] {
      NextKeepsGone(w, events[0], sid);
      NextKeepsInv(w, events[0]);
      EndedIsFinal(Next(w, events[0]), events[1..], v, sid);
    }
  }

  // Once either introducing connection has detached, the session is gone for good.
  lemma DetachIsFinal(w: World, e: Event, events: seq<Event>, v: World, sid: Sid)
    requires Reachable(w) && e.Detach? && Enabled(w.tables, w.intro.Keys, e) && Leads(Next(w, e), events, v)
    requires sid in w.intro && (w.intro[sid].0 == e.conn || w.intro[sid].1 == e.conn)
    ensures sid !in v.tables.sessions
  {
    ReachableInv(w);
    LeaveEndsItsSessions(w, e.conn, e.order);
    NextKeepsInv(w, e);
    EndedIsFinal(Next(w, e), events, v, sid);
  }

  // ------------------------------------------------------------------ who hears a signal

  // Every signal frame goes from one party of its session to an attached connection of the other.
  lemma SignalsStayInTheSession(w: World, c: ConnId, sid: Sid, f: Frame)
    requires Reachable(w) && Live(w.tables, c) && f in Relayed(w.tables, c, sid).1 && f.message.Signal?
    ensures var t := w.tables;
      && f.message.sid == sid && sid in t.sessions && Live(t, f.to)
      && var s := t.sessions[sid];
         && f.message.from == t.conns[c].device && f.message.to == t.conns[f.to].device
         && Party(s, f.message.from) && f.message.to == Peer(s, f.message.from)
  {
    ReachableInv(w);
    var t := w.tables;
    var d := t.conns[c].device;
    var s := t.sessions[sid];
    var peer := Peer(s, d);
    if peer in t.clients {
      assert ClientList(t, peer, t.clients[peer]);
    }
    NoSignals(t, sid);
    if sid in t.sessions && Party(s, d) && Ends(t, s, peer) != [] {
      var ids := Ends(t, s, peer);
      var i :| 0 <= i < |ids| && f == Frame(ids[i], Signal(sid, d, peer));
      assert ids[i] in ids;
    }
  }

  lemma NoSignals(t: Tables, sid: Sid)
    ensures forall f <- SessionEnded(t, sid, None).1 :: f.message == Ended(sid)
  {
  }

  // ------------------------------------------------------------- nobody is left out

  // Every attached connection of a client is in its list.
  ghost predicate Complete(t: Tables) {
    forall c <- t.conns ::
      t.conns[c].phase.Attached? && t.conns[c].role.ClientRole? ==> c in ClientConns(t, t.conns[c].device)
  }

  lemma ShrunkKeepsComplete(t: Tables, r: Tables, gone: set<Sid>)
    requires Complete(t) && Shrunk(t, r, gone)
    ensures Complete(r)
  {
  }

  // What a departure leaves: the lists without the connection, and everyone else as they were but
  // for their sessions.
  lemma LeaveTables(t: Tables, c: ConnId, order: seq<Sid>)
    requires c in t.conns
    ensures var r := Leave(t, c, order).0;
      && r.agents == Unlisted(t, c).agents && r.clients == Unlisted(t, c).clients
      && r.conns.Keys == t.conns.Keys && r.conns[c].phase.Detached?
      && forall k <- t.conns :: k != c ==> r.conns[k].(sessions := t.conns[k].sessions) == t.conns[k]
  {
    var gone := AllEndedShrinks(Unlisted(t, c), order, t.conns[c].device);
  }

  lemma LeaveKeepsComplete(t: Tables, c: ConnId, order: seq<Sid>)
    requires Complete(t) && c in t.conns
    ensures Complete(Leave(t, c, order).0)
  {
    LeaveTables(t, c, order);
    hide Leave;
    if t.conns[c].role.ClientRole? {
      OthersStayListed(t, c);
    }
  }

  lemma OthersStayListed(t: Tables, c: ConnId)
    requires c in t.conns && t.conns[c].role.ClientRole?
    ensures forall x, k | k != c && k in ClientConns(t, x) :: k in ClientConns(Unlisted(t, c), x)
  {
    var d := t.conns[c].device;
    WithoutKeepsOthers(ClientConns(t, d), c);
  }

  lemma {:induction false} WithoutKeepsOthers(ids: seq<ConnId>, c: ConnId)
    ensures forall k | k != c && k in ids :: k in Without(ids, c)
  {
    if ids != [] {
      var n := |ids| - 1;
      WithoutKeepsOthers(ids[..n], c);
      assert ids == ids[..n] + [ids[n]];
    }
  }

  lemma EnrolledKeepsComplete(t: Tables, c: ConnId, role: Role, d: Device)
    requires Complete(t) && c !in t.conns
    ensures Complete(Enrolled(t, c, role, d))
  {
  }

  lemma MeetKeepsComplete(t: Tables, c: ConnId, target: Device, sid: Sid, admitted: bool, standing: Standing)
    requires Complete(t) && c in t.conns
    ensures Complete(Meet(t, c, target, sid, admitted, standing).0)
  {
  }

  lemma NextKeepsComplete(w: World, e: Event)
    requires Inv(w) && Complete(w.tables) && Enabled(w.tables, w.intro.Keys, e)
    ensures Complete(Next(w, e).tables)
  {
    hide Inv, Leave, SessionEnded, Shrunk, MayEnd, Complete, Enrolled, Meet;
    var t := w.tables;
    match e
    case Attach(c, role, d) => EnrolledKeepsComplete(t, c, role, d);
    case Detach(c, order) => LeaveKeepsComplete(t, c, order);
    case Connect(c, target, sid, admitted, standing) => MeetKeepsComplete(t, c, target, sid, admitted, standing);
    case Relay(c, sid) =>
      SessionEndedShrinks(t, sid, None);
      ShrunkKeepsComplete(t, SessionEnded(t, sid, None).0, if MayEnd(t, sid, None) then {sid} else {});
    case End(c, sid) =>
      var asker := Some(t.conns[c].device);
      SessionEndedShrinks(t, sid, asker);
      ShrunkKeepsComplete(t, SessionEnded(t, sid, asker).0, if MayEnd(t, sid, asker) then {sid} else {});
  }

  lemma {:induction false} LeadsKeepsComplete(w: World, events: seq<Event>, v: World)
    requires Inv(w) && Complete(w.tables) && Leads(w, events, v)
    ensures Complete(v.tables)
    decreases |events|
  {
    hide Inv, Complete;
    if events != [] {
      NextKeepsInv(w, events[0]);
      NextKeepsComplete(w, events[0]);
      LeadsKeepsComplete(Next(w, events[0]), events[1..], v);
    }
  }

  // An agent's signal reaches every attached connection of the session's client.
  lemma SignalsReachTheClient(w: World, c: ConnId, sid: Sid, k: ConnId)
    requires Reachable(w) && Live(w.tables, c) && sid in w.tables.sessions && Live(w.tables, k)
    requires w.tables.conns[c].device == w.tables.sessions[sid].agent != w.tables.sessions[sid].client
    requires w.tables.conns[k].device == w.tables.sessions[sid].client && w.tables.conns[k].role.ClientRole?
    ensures var s := w.tables.sessions[sid];
      Frame(k, Signal(sid, s.agent, s.client)) in Relayed(w.tables, c, sid).1
  {
    var events :| Leads(START, events, w);
    LeadsKeepsComplete(START, events, w);
    var ids := ClientConns(w.tables, w.tables.sessions[sid].client);
    var i :| 0 <= i < |ids| && ids[i] == k;
    var s := w.tables.sessions[sid];
    assert SignalFrames(ids, sid, s.agent, s.client)[i] == Frame(k, Signal(sid, s.agent, s.client));
  }

  // ------------------------------------------------------------- a late departure

  // A device that is still connected loses its window when a connection leaves exactly if that is
  // a connection of an agent whose entry names the window and, being its own, one it has replaced;
  // while codes are unique, exactly if it is a replaced connection of the device itself.
  lemma LosesWindowExactly(w: World, c: ConnId, order: seq<Sid>, run: seq<PairingRuns.Timed>, code: PairingStore.Code)
    requires Reachable(w) && Enabled(w.tables, w.intro.Keys, Detach(c, order))
    requires code in PairingRuns.After(run).byCode
    ensures var s := PairingRuns.After(run); var t := w.tables;
      var d := s.byCode[code].agent; var k := t.conns[c];
      var lost := code !in WindowsLeft(s, t, c).byCode && d in Leave(t, c, order).0.agents;
      && (lost <==> k.role.AgentRole? && PairingRuns.Names(s, k.device, code) && d in t.agents && t.agents[d] != c)
      && (PairingRuns.CodesUnique(run) ==>
            (lost <==> k.role.AgentRole? && k.device == d && d in t.agents && t.agents[d] != c))
  {
    hide PairingRuns.After;
    ReachableInv(w);
    hide Reachable, ClientsInv, SessionInv, ListedInv, Leave, PairingStore.Step, PairingRuns.RevokesOwn;
    LeaveTables(w.tables, c, order);
    var s := PairingRuns.After(run);
    RevokedWindow(s, w.tables.conns[c].device, code);
    PairingRuns.AlwaysConsistent(run);
    if PairingRuns.CodesUnique(run) {
      PairingRuns.UniqueCodesAreSafe(run);
    }
  }

  lemma RevokedWindow(s: PairingStore.Store, a: Device, code: PairingStore.Code)
    requires code in s.byCode
    ensures code !in PairingStore.Step(s, PairingStore.Revoke(a), 0.0).0.byCode <==> PairingRuns.Names(s, a, code)
  {
  }

  // A device connects, connects anew and opens a window; then the replaced connection leaves. The
  // device is still connected, and its window is gone.
  lemma LateDetach() returns (w: World)
    ensures Reachable(w) && Enabled(w.tables, w.intro.Keys, Detach(1, []))
    ensures var p := PairingStore.Publication("c", "s", "e", "i", "n", 0);
      var s := PairingRuns.After([PairingRuns.Timed(PairingStore.Publish("pc", p), 0.0, true)]);
      && "c" in s.byCode && s.byCode["c"].agent == "pc"
      && "c" !in WindowsLeft(s, w.tables, 1).byCode && "pc" in Leave(w.tables, 1, []).0.agents
  {
    var a, b := Attach(1, AgentRole, "pc"), Attach(2, AgentRole, "pc");
    var one := Next(START, a);
    w := Next(one, b);
    assert Leads(w, [], w);
    assert Leads(one, [b], w) by { assert [b][1..] == []; }
    assert Leads(START, [a, b], w) by { assert [a, b][1..] == [b]; }
    assert Listing([], w.tables.conns[1].sessions);
    var p := PairingStore.Publication("c", "s", "e", "i", "n", 0);
    var run := [PairingRuns.Timed(PairingStore.Publish("pc", p), 0.0, true)];
    OneWindow("pc", p);
    LosesWindowExactly(w, 1, [], run, "c");
    PairingRuns.AlwaysConsistent(run);
    assert w.tables.agents["pc"] == 2;
  }

  lemma OneWindow(d: Device, p: PairingStore.Publication)
    requires PairingStore.Complete(p)
    ensures var s := PairingRuns.After([PairingRuns.Timed(PairingStore.Publish(d, p), 0.0, true)]);
      p.code in s.byCode && s.byCode[p.code].agent == d
  {
    hide PairingStore.Expiry;
    var run := [PairingRuns.Timed(PairingStore.Publish(d, p), 0.0, true)];
    assert PairingRuns.DropLast(run) == [];
    assert PairingRuns.After([]) == PairingStore.EMPTY;
    assert PairingStore.Collected(PairingStore.EMPTY, 0.0) == PairingStore.EMPTY;
  }

  lemma {:induction false} BroadcastReaches(t: Tables, d: Device, paired: seq<Device>, p: Presence)
    ensures p in Broadcast(t, d, paired) <==>
      p.device == d && p.online == (d in t.agents) && exists x <- paired :: p.to in ClientConns(t, x)
  {
    if paired != [] {
      var n := |paired| - 1;
      BroadcastReaches(t, d, paired[..n], p);
      var ids := ClientConns(t, paired[n]);
      assert paired == paired[..n] + [paired[n]];
      if p.to in ids {
        var i :| 0 <= i < |ids| && ids[i] == p.to;
        assert PresenceTo(ids, d, d in t.agents)[i] == Presence(p.to, d, d in t.agents);
      }
    }
  }

  // When an agent's connection leaves, exactly the attached connections of the clients paired
  // with its device are told of it, and told whether the device is still connected.
  lemma PresenceIsToldExactly(w: World, c: ConnId, order: seq<Sid>, paired: seq<Device>, p: Presence)
    requires Reachable(w) && Enabled(w.tables, w.intro.Keys, Detach(c, order)) && w.tables.conns[c].role.AgentRole?
    ensures var t, d := w.tables, w.tables.conns[c].device;
      p in Broadcast(Leave(t, c, order).0, d, paired) <==>
        && p.device == d && p.online == (d in t.agents && t.agents[d] != c)
        && Live(t, p.to) && t.conns[p.to].role.ClientRole? && t.conns[p.to].device in paired
  {
    hide Broadcast, Leave;
    var events :| Leads(START, events, w);
    LeadsKeepsComplete(START, events, w);
    ReachableInv(w);
    hide Inv, Leads;
    LeaveTables(w.tables, c, order);
    var t, r := w.tables, Leave(w.tables, c, order).0;
    BroadcastReaches(r, t.conns[c].device, paired, p);
    forall x | p.to in ClientConns(t, x) ensures Serves(t, p.to, ClientRole, x) {
      ListedServes(w, x, p.to);
    }
  }

  lemma ListedServes(w: World, x: Device, k: ConnId)
    requires Inv(w) && k in ClientConns(w.tables, x)
    ensures Serves(w.tables, k, ClientRole, x)
  {
    assert ClientList(w.tables, x, w.tables.clients[x]);
  }
}
