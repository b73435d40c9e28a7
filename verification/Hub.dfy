/** The rendezvous hub: which connections are attached, which sessions are introduced,
    and what each handler does to both.

    A connection is known by its number; its own record (role, device, set of sessions) is
    kept in `conns`.  Every handler is one atomic step that changes the tables and queues
    frames.  `Tables` is the value of the hub, and class `Rendezvous` runs the handlers on its
    mutable maps. */
module Hub {
  import opened Basics
  import PairingStore

  type ConnId = nat
  type Device = string
  type Sid = string

  datatype Role = AgentRole | ClientRole
  datatype Phase = Attached | Turned | Detached
  datatype Conn = Conn(role: Role, device: Device, phase: Phase, sessions: set<Sid>)
  datatype Session = Session(client: Device, agent: Device)

  // Why a request is turned down.
  datatype Reason = Unauthorized | RateLimited | DeviceUnknown | NotPaired | DeviceOffline | BadRequest

  // What the registry says of a device and a client that asks for it.
  datatype Standing = Unknown | Stranger | Paired

  datatype Message =
    | Introduced(sid: Sid, client: Device)
    | Signal(sid: Sid, from: Device, to: Device)
    | Ended(sid: Sid)
    | Rejected(reason: Reason)
  datatype Frame = Frame(to: ConnId, message: Message)

  // Told to a client about a device it is paired with.
  datatype Presence = Presence(to: ConnId, device: Device, online: bool)

  const MAX_CLIENT_CONNS: nat := 8

  datatype Tables = Tables(
    agents: map<Device, ConnId>,
    clients: map<Device, seq<ConnId>>,
    sessions: map<Sid, Session>,
    conns: map<ConnId, Conn>)

  const EMPTY := Tables(map[], map[], map[], map[])

  // What arrives at the hub.  `admitted` is the verdict of the connect limiter, `standing`
  // that of the registry; `order` is the order in which a set of sessions is walked.
  datatype Event =
    | Attach(conn: ConnId, role: Role, device: Device)
    | Detach(conn: ConnId, order: seq<Sid>)
    | Connect(conn: ConnId, target: Device, sid: Sid, admitted: bool, standing: Standing)
    | Relay(conn: ConnId, sid: Sid)
    | End(conn: ConnId, sid: Sid)

  ghost predicate Listing(order: seq<Sid>, sids: set<Sid>) {
    && (forall i, j | 0 <= i < j < |order| :: order[i] != order[j])
    && (forall s :: s in order <==> s in sids)
  }

  predicate Live(t: Tables, c: ConnId) { c in t.conns && t.conns[c].phase.Attached? }

  // Only an attached connection is read from; a session number is drawn afresh.
  ghost predicate Enabled(t: Tables, used: set<Sid>, e: Event) {
    match e
    case Attach(c, _, _) => c !in t.conns
    case Detach(c, order) => c in t.conns && !t.conns[c].phase.Detached? && Listing(order, t.conns[c].sessions)
    case Connect(c, _, sid, _, _) => Live(t, c) && sid !in used
    case Relay(c, _) => Live(t, c)
    case End(c, _) => Live(t, c)
  }

  // ----------------------------------------------------------------- connections

  function ClientConns(t: Tables, d: Device): seq<ConnId> {
    if d in t.clients then t.clients[d] else []
  }

  function Enrolled(t: Tables, c: ConnId, role: Role, d: Device): Tables {
    match role
    case AgentRole =>
      t.(agents := t.agents[d := c], conns := t.conns[c := Conn(role, d, Attached, {})])
    case ClientRole =>
      if |ClientConns(t, d)| >= MAX_CLIENT_CONNS then t.(conns := t.conns[c := Conn(role, d, Turned, {})])
      else t.(clients := t.clients[d := ClientConns(t, d) + [c]],
              conns := t.conns[c := Conn(role, d, Attached, {})])
  }

  function Without(ids: seq<ConnId>, c: ConnId): seq<ConnId> {
    if ids == [] then []
    else Without(ids[..|ids| - 1], c) + if ids[|ids| - 1] == c then [] else [ids[|ids| - 1]]
  }

  function Unlisted(t: Tables, c: ConnId): Tables
    requires c in t.conns
  {
    var d := t.conns[c].device;
    match t.conns[c].role
    case AgentRole =>
      if d in t.agents && t.agents[d] == c then t.(agents := t.agents - {d}) else t
    case ClientRole =>
      var left := Without(ClientConns(t, d), c);
      t.(clients := if left == [] then t.clients - {d} else t.clients[d := left])
  }

  // ------------------------------------------------------------------- sessions

  function Dropped(conns: map<ConnId, Conn>, ids: seq<ConnId>, sid: Sid): map<ConnId, Conn> {
    map c | c in conns :: if c in ids then conns[c].(sessions := conns[c].sessions - {sid}) else conns[c]
  }

  lemma DroppedMore(conns: map<ConnId, Conn>, ids: seq<ConnId>, id: ConnId, sid: Sid)
    ensures var d := Dropped(conns, ids, sid);
      Dropped(conns, ids + [id], sid) ==
        if id in conns then d[id := d[id].(sessions := d[id].sessions - {sid})] else d
  {
    if id in conns {
      assert conns[id].sessions - {sid} - {sid} == conns[id].sessions - {sid};
    }
  }

  function EndFrames(ids: seq<ConnId>, sid: Sid): seq<Frame> {
    seq(|ids|, i requires 0 <= i < |ids| => Frame(ids[i], Ended(sid)))
  }

  // Where a party's end of a session is told: its agent connection, or all its client ones.
  function Ends(t: Tables, session: Session, d: Device): seq<ConnId> {
    if d == session.agent then (if d in t.agents then [t.agents[d]] else []) else ClientConns(t, d)
  }

  function Notified(t: Tables, sid: Sid, session: Session, d: Device, requester: Option<Device>): (Tables, seq<Frame>) {
    if requester == Some(d) then (t, [])
    else
      var ids := Ends(t, session, d);
      (t.(conns := Dropped(t.conns, ids, sid)), EndFrames(ids, sid))
  }

  predicate Party(session: Session, d: Device) { d == session.client || d == session.agent }

  function SessionEnded(t: Tables, sid: Sid, requester: Option<Device>): (Tables, seq<Frame>) {
    if sid !in t.sessions || (requester.Some? && !Party(t.sessions[sid], requester.value)) then (t, [])
    else
      var session := t.sessions[sid];
      var (a, f) := Notified(t.(sessions := t.sessions - {sid}), sid, session, session.agent, requester);
      var (b, g) := Notified(a, sid, session, session.client, requester);
      (b, f + g)
  }

  function AllEnded(t: Tables, order: seq<Sid>, requester: Option<Device>): (Tables, seq<Frame>) {
    if order == [] then (t, [])
    else
      var (a, f) := AllEnded(t, order[..|order| - 1], requester);
      var (b, g) := SessionEnded(a, order[|order| - 1], requester);
      (b, f + g)
  }

  function Leave(t: Tables, c: ConnId, order: seq<Sid>): (Tables, seq<Frame>)
    requires c in t.conns
  {
    var (u, f) := AllEnded(Unlisted(t, c), order, Some(t.conns[c].device));
    (if c in u.conns then u.(conns := u.conns[c := u.conns[c].(phase := Detached)]) else u, f)
  }

  // What an agent's departure does to the pairing windows: its device's entry is revoked,
  // whether or not the connection is still the device's current one.
  function WindowsLeft(s: PairingStore.Store, t: Tables, c: ConnId): PairingStore.Store
    requires c in t.conns
  {
    if t.conns[c].role.AgentRole? then PairingStore.Step(s, PairingStore.Revoke(t.conns[c].device), 0.0).0 else s
  }

  function PresenceTo(ids: seq<ConnId>, d: Device, online: bool): seq<Presence> {
    seq(|ids|, i requires 0 <= i < |ids| => Presence(ids[i], d, online))
  }

  // Every connection of every paired client is told whether the device is connected.
  function Broadcast(t: Tables, d: Device, paired: seq<Device>): seq<Presence> {
    if paired == [] then []
    else
      var n := |paired| - 1;
      Broadcast(t, d, paired[..n]) + PresenceTo(ClientConns(t, paired[n]), d, d in t.agents)
  }

  function Joined(t: Tables, c: ConnId, sid: Sid): Tables {
    if c in t.conns then t.(conns := t.conns[c := t.conns[c].(sessions := t.conns[c].sessions + {sid})]) else t
  }

  // Why `c` is not introduced to `target`, if it is not.
  function Objection(t: Tables, c: ConnId, target: Device, admitted: bool, standing: Standing): Option<Reason>
    requires c in t.conns
  {
    if !t.conns[c].role.ClientRole? then Some(Unauthorized)
    else if !admitted then Some(RateLimited)
    else if standing.Unknown? then Some(DeviceUnknown)
    else if standing.Stranger? then Some(NotPaired)
    else if target !in t.agents then Some(DeviceOffline)
    else None
  }

  predicate Introduces(t: Tables, c: ConnId, target: Device, admitted: bool, standing: Standing) {
    c in t.conns && Objection(t, c, target, admitted, standing).None?
  }

  function Meet(t: Tables, c: ConnId, target: Device, sid: Sid, admitted: bool, standing: Standing)
    : (Tables, seq<Frame>)
    requires c in t.conns
  {
    var objection := Objection(t, c, target, admitted, standing);
    if objection.Some? then (t, [Frame(c, Rejected(objection.value))])
    else Met(t, c, t.agents[target], target, sid)
  }

  // The second half of an introduction, once the agent's connection has been looked up.
  function Met(t: Tables, c: ConnId, agent: ConnId, target: Device, sid: Sid): (Tables, seq<Frame>)
    requires c in t.conns
  {
    var client := t.conns[c].device;
    var u := t.(sessions := t.sessions[sid := Session(client, target)]);
    (Joined(Joined(u, c, sid), agent, sid),
     [Frame(agent, Introduced(sid, client)), Frame(c, Introduced(sid, client))])
  }

  function Peer(session: Session, d: Device): Device {
    if d == session.client then session.agent else session.client
  }

  function SignalFrames(ids: seq<ConnId>, sid: Sid, from: Device, to: Device): seq<Frame> {
    seq(|ids|, i requires 0 <= i < |ids| => Frame(ids[i], Signal(sid, from, to)))
  }

  function Relayed(t: Tables, c: ConnId, sid: Sid): (Tables, seq<Frame>)
    requires c in t.conns
  {
    var d := t.conns[c].device;
    if sid !in t.sessions then (t, [Frame(c, Rejected(BadRequest))])
    else if !Party(t.sessions[sid], d) then (t, [Frame(c, Rejected(Unauthorized))])
    else
      var peer := Peer(t.sessions[sid], d);
      var ids := Ends(t, t.sessions[sid], peer);
      if ids != [] then (t, SignalFrames(ids, sid, d, peer))
      else
        var (u, f) := SessionEnded(t, sid, None);
        (u, f + [Frame(c, Rejected(DeviceOffline))])
  }

  function Step(t: Tables, e: Event): (Tables, seq<Frame>)
    requires e.Attach? || e.conn in t.conns
  {
    match e
    case Attach(c, role, d) => (Enrolled(t, c, role, d), [])
    case Detach(c, order) => Leave(t, c, order)
    case Connect(c, target, sid, admitted, standing) => Meet(t, c, target, sid, admitted, standing)
    case Relay(c, sid) => Relayed(t, c, sid)
    case End(c, sid) => SessionEnded(t, sid, Some(t.conns[c].device))
  }

  // ------------------------------------------------------------- the mutable hub

  class Rendezvous {
    var agents: map<Device, ConnId>
    var clients: map<Device, seq<ConnId>>
    var sessions: map<Sid, Session>
    var conns: map<ConnId, Conn>
    const pairs: PairingStore.Pairings

    constructor ()
      ensures State() == EMPTY && fresh(pairs) && pairs.State() == PairingStore.EMPTY
    {
      agents, clients, sessions, conns := map[], map[], map[], map[];
      pairs := new PairingStore.Pairings();
    }

    function State(): Tables
      reads this
    {
      Tables(agents, clients, sessions, conns)
    }

    method AttachConn(c: ConnId, role: Role, device: Device) returns (ok: bool)
      modifies this
      ensures State() == Enrolled(old(State()), c, role, device)
      ensures ok == conns[c].phase.Attached?
    {
      match role {
        case AgentRole =>
          agents := agents[device := c];
        case ClientRole =>
          var ids := if device in clients then clients[device] else [];
          if |ids| >= MAX_CLIENT_CONNS {
            conns := conns[c := Conn(role, device, Turned, {})];
            return false;
          }
          clients := clients[device := ids + [c]];
      }
      conns := conns[c := Conn(role, device, Attached, {})];
      return true;
    }

    method Unlist(c: ConnId)
      requires c in conns
      modifies this`agents, this`clients
      ensures State() == Unlisted(old(State()), c)
    {
      var d := conns[c].device;
      match conns[c].role
      case AgentRole =>
        if d in agents && agents[d] == c {
          agents := agents - {d};
        }
      case ClientRole =>
        var ids := if d in clients then clients[d] else [];
        var filtered := [];
        for i := 0 to |ids|
          invariant filtered == Without(ids[..i], c)
        {
          assert ids[..i + 1][..i] == ids[..i];
          if ids[i] != c {
            filtered := filtered + [ids[i]];
          }
        }
        assert ids[..|ids|] == ids;
        if |filtered| == 0 {
          clients := clients - {d};
        } else {
          clients := clients[d := filtered];
        }
    }

    // Lets go of a connection whose sessions are listed in `order`; an agent's, current or not,
    // takes its device's pairing window with it, and the clients `paired` with it are told.
    method DetachConn(c: ConnId, order: seq<Sid>, paired: seq<Device>)
      returns (frames: seq<Frame>, presence: seq<Presence>)
      requires c in conns
      modifies this, pairs
      ensures (State(), frames) == Leave(old(State()), c, order)
      ensures pairs.State() == WindowsLeft(old(pairs.State()), old(State()), c)
      ensures presence ==
        if old(conns[c].role).AgentRole? then Broadcast(State(), old(conns[c].device), paired) else []
    {
      var role := conns[c].role;
      var device := conns[c].device;
      Unlist(c);
      ghost var start := State();
      frames := [];
      for i := 0 to |order|
        invariant (State(), frames) == AllEnded(start, order[..i], Some(device))
        invariant pairs.State() == old(pairs.State())
      {
        assert order[..i + 1][..i] == order[..i];
        var more := EndSession(order[i], Some(device));
        frames := frames + more;
      }
      assert order[..|order|] == order;
      if c in conns {
        conns := conns[c := conns[c].(phase := Detached)];
      }
      ghost var windows := pairs.State();
      assert windows == old(pairs.State());
      presence := [];
      if role.AgentRole? {
        pairs.RevokeWindow(device);
        assert pairs.State() == PairingStore.Step(windows, PairingStore.Revoke(device), 0.0).0;
        presence := BroadcastPresence(device, paired);
      }
    }

    method BroadcastPresence(device: Device, paired: seq<Device>) returns (presence: seq<Presence>)
      ensures presence == Broadcast(State(), device, paired)
    {
      presence := [];
      for i := 0 to |paired|
        invariant presence == Broadcast(State(), device, paired[..i])
      {
        assert paired[..i + 1][..i] == paired[..i];
        presence := presence + PresenceTo(ClientConns(State(), paired[i]), device, device in agents);
      }
      assert paired[..|paired|] == paired;
    }

    method EndSession(sid: Sid, requester: Option<Device>) returns (frames: seq<Frame>)
      modifies this`sessions, this`conns
      ensures (State(), frames) == SessionEnded(old(State()), sid, requester)
    {
      if sid !in sessions {
        return [];
      }
      var session := sessions[sid];
      if requester.Some? && requester.value != session.client && requester.value != session.agent {
        return [];
      }
      sessions := sessions - {sid};
      frames := Notify(sid, session, session.agent, requester);
      var more := Notify(sid, session, session.client, requester);
      frames := frames + more;
    }

    method Notify(sid: Sid, session: Session, d: Device, requester: Option<Device>) returns (frames: seq<Frame>)
      modifies this`conns
      ensures (State(), frames) == Notified(old(State()), sid, session, d, requester)
    {
      if requester == Some(d) {
        return [];
      }
      var ids := Ends(State(), session, d);
      frames := [];
      for i := 0 to |ids|
        invariant frames == EndFrames(ids[..i], sid)
        invariant conns == Dropped(old(conns), ids[..i], sid)
      {
        assert ids[..i + 1] == ids[..i] + [ids[i]];
        DroppedMore(old(conns), ids[..i], ids[i], sid);
        if ids[i] in conns {
          conns := conns[ids[i] := conns[ids[i]].(sessions := conns[ids[i]].sessions - {sid})];
        }
        frames := frames + [Frame(ids[i], Ended(sid))];
      }
      assert ids[..|ids|] == ids;
    }

    method AddSession(c: ConnId, sid: Sid)
      modifies this`conns
      ensures State() == Joined(old(State()), c, sid)
    {
      if c in conns {
        conns := conns[c := conns[c].(sessions := conns[c].sessions + {sid})];
      }
    }

    method OnConnect(c: ConnId, target: Device, sid: Sid, admitted: bool, standing: Standing)
      returns (frames: seq<Frame>)
      requires c in conns
      modifies this
      ensures (State(), frames) == Meet(old(State()), c, target, sid, admitted, standing)
    {
      if !conns[c].role.ClientRole? {
        return [Frame(c, Rejected(Unauthorized))];
      }
      if !admitted {
        return [Frame(c, Rejected(RateLimited))];
      }
      if standing.Unknown? {
        return [Frame(c, Rejected(DeviceUnknown))];
      }
      if standing.Stranger? {
        return [Frame(c, Rejected(NotPaired))];
      }
      if target !in agents {
        return [Frame(c, Rejected(DeviceOffline))];
      }
      var agent := agents[target];
      var client := conns[c].device;
      sessions := sessions[sid := Session(client, target)];
      AddSession(c, sid);
      AddSession(agent, sid);
      return [Frame(agent, Introduced(sid, client)), Frame(c, Introduced(sid, client))];
    }

    method OnSignal(c: ConnId, sid: Sid) returns (frames: seq<Frame>)
      requires c in conns
      modifies this
      ensures (State(), frames) == Relayed(old(State()), c, sid)
    {
      if sid !in sessions {
        return [Frame(c, Rejected(BadRequest))];
      }
      var session := sessions[sid];
      var from := conns[c].device;
      var peer: Device;
      if from == session.client {
        peer := session.agent;
      } else if from == session.agent {
        peer := session.client;
      } else {
        return [Frame(c, Rejected(Unauthorized))];
      }
      if peer == session.agent {
        if peer in agents {
          return SignalFrames([agents[peer]], sid, from, peer);
        }
      } else if peer in clients && clients[peer] != [] {
        var ids := clients[peer];
        return SignalFrames(ids, sid, from, peer);
      }
      frames := EndSession(sid, None);
      frames := frames + [Frame(c, Rejected(DeviceOffline))];
    }
  }
}
