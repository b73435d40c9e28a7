/** The rendezvous server's store of open pairing windows.

    Instants are seconds; a window's handle, agent and public values are opaque strings.
    `Store` is the value of the store, `Step` what one call does to it and answers, and
    class `Pairings` runs the same calls on its two maps. */
module PairingStore {
  import opened Basics

  type Code = string
  type Agent = string

  datatype Window = Window(code: Code, agent: Agent, salt: string, ephemeralPub: string, identityPub: string,
                           deviceName: string, expiresAt: real, consumed: bool)

  datatype Publication = Publication(code: Code, salt: string, ephemeralPub: string, identityPub: string,
                                     deviceName: string, expiresAt: int)

  datatype Error = Incomplete | TooMany | NoWindow | Consumed
  datatype Answer = Opened(window: Window) | Refused(error: Error) | Revoked | Count(open: nat)

  const MAX_OPEN_WINDOWS: nat := 256
  const WINDOW_SECONDS: real := 180.0

  datatype Store = Store(byCode: map<Code, Window>, byAgent: map<Agent, Code>)

  const EMPTY := Store(map[], map[])

  datatype Call =
    | Publish(agent: Agent, p: Publication)
    | Lookup(code: Code)
    | Consume(code: Code)
    | Revoke(agent: Agent)
    | Open

  predicate Expired(w: Window, now: real) { now > w.expiresAt }

  // Expired windows go, and with each the entry of its agent if that entry names it.
  function Collected(s: Store, now: real): Store {
    Store(map c | c in s.byCode && !Expired(s.byCode[c], now) :: s.byCode[c],
          map a | a in s.byAgent && !Orphaned(s, a, now) :: s.byAgent[a])
  }

  predicate Orphaned(s: Store, a: Agent, now: real)
    requires a in s.byAgent
  {
    var c := s.byAgent[a]; c in s.byCode && Expired(s.byCode[c], now) && s.byCode[c].agent == a
  }

  function Expiry(p: Publication, now: real): real {
    if p.expiresAt == 0 || p.expiresAt as real > now + WINDOW_SECONDS then now + WINDOW_SECONDS
    else p.expiresAt as real
  }

  predicate Complete(p: Publication) {
    p.code != "" && p.salt != "" && p.ephemeralPub != "" && p.identityPub != ""
  }

  function Published(s: Store, agent: Agent, p: Publication, now: real): (Store, Answer) {
    var t := if agent in s.byAgent then s.(byCode := s.byCode - {s.byAgent[agent]}) else s;
    if |t.byCode| >= MAX_OPEN_WINDOWS then (t, Refused(TooMany))
    else
      var w := Window(p.code, agent, p.salt, p.ephemeralPub, p.identityPub, p.deviceName, Expiry(p, now), false);
      (Store(t.byCode[p.code := w], t.byAgent[agent := p.code]), Opened(w))
  }

  function Found(s: Store, code: Code): Answer {
    if code !in s.byCode then Refused(NoWindow)
    else if s.byCode[code].consumed then Refused(Consumed)
    else Opened(s.byCode[code])
  }

  function Step(s: Store, c: Call, now: real): (Store, Answer) {
    match c
    case Publish(agent, p) =>
      if !Complete(p) then (s, Refused(Incomplete)) else Published(Collected(s, now), agent, p, now)
    case Lookup(code) =>
      var t := Collected(s, now); (t, Found(t, code))
    case Consume(code) =>
      var t := Collected(s, now);
      if Found(t, code).Opened? then
        var w := t.byCode[code].(consumed := true);
        (t.(byCode := t.byCode[code := w]), Opened(w))
      else (t, Found(t, code))
    case Revoke(agent) =>
      (if agent in s.byAgent then Store(s.byCode - {s.byAgent[agent]}, s.byAgent - {agent}) else s, Revoked)
    case Open =>
      var t := Collected(s, now); (t, Count(|t.byCode|))
  }

  // ------------------------------------------------------------- the mutable store

  class Pairings {
    var byCode: map<Code, Window>
    var byAgent: map<Agent, Code>

    constructor ()
      ensures State() == EMPTY
    {
      byCode, byAgent := map[], map[];
    }

    function State(): Store
      reads this
    {
      Store(byCode, byAgent)
    }

    method Collect(now: real)
      modifies this
      ensures State() == Collected(old(State()), now)
    {
      ghost var was := State();
      var todo := byCode.Keys;
      while todo != {}
        invariant todo <= was.byCode.Keys
        invariant forall c :: c in byCode <==> c in was.byCode && (c in todo || !Expired(was.byCode[c], now))
        invariant forall c <- byCode :: byCode[c] == was.byCode[c]
        invariant forall a :: a in byAgent <==> a in was.byAgent && (was.byAgent[a] in todo || !Orphaned(was, a, now))
        invariant forall a <- byAgent :: byAgent[a] == was.byAgent[a]
      {
        var code :| code in todo;
        todo := todo - {code};
        var w := byCode[code];
        if now > w.expiresAt {
          byCode := byCode - {code};
          if w.agent in byAgent && byAgent[w.agent] == code {
            byAgent := byAgent - {w.agent};
          }
        }
      }
    }

    method PublishWindow(agent: Agent, p: Publication, now: real) returns (r: Answer)
      modifies this
      ensures (State(), r) == Step(old(State()), Publish(agent, p), now)
    {
      if p.code == "" || p.salt == "" || p.ephemeralPub == "" || p.identityPub == "" {
        return Refused(Incomplete);
      }
      Collect(now);
      if agent in byAgent {
        byCode := byCode - {byAgent[agent]};
      }
      if |byCode| >= MAX_OPEN_WINDOWS {
        return Refused(TooMany);
      }
      var expires := p.expiresAt as real;
      var maxExpiry := now + WINDOW_SECONDS;
      if p.expiresAt == 0 || expires > maxExpiry {
        expires := maxExpiry;
      }
      var w := Window(p.code, agent, p.salt, p.ephemeralPub, p.identityPub, p.deviceName, expires, false);
      byCode := byCode[p.code := w];
      byAgent := byAgent[agent := p.code];
      return Opened(w);
    }

    method LookupWindow(code: Code, now: real) returns (r: Answer)
      modifies this
      ensures (State(), r) == Step(old(State()), Lookup(code), now)
    {
      Collect(now);
      if code !in byCode {
        return Refused(NoWindow);
      }
      var w := byCode[code];
      if w.consumed {
        return Refused(Consumed);
      }
      return Opened(w);
    }

    method ConsumeWindow(code: Code, now: real) returns (r: Answer)
      modifies this
      ensures (State(), r) == Step(old(State()), Consume(code), now)
    {
      Collect(now);
      if code !in byCode {
        return Refused(NoWindow);
      }
      var w := byCode[code];
      if w.consumed {
        return Refused(Consumed);
      }
      w := w.(consumed := true);
      byCode := byCode[code := w];
      return Opened(w);
    }

    method RevokeWindow(agent: Agent)
      modifies this
      ensures forall now :: State() == Step(old(State()), Revoke(agent), now).0
    {
      if agent in byAgent {
        byCode := byCode - {byAgent[agent]};
        byAgent := byAgent - {agent};
      }
    }

    method OpenWindows(now: real) returns (n: nat)
      modifies this
      ensures (State(), Count(n)) == Step(old(State()), Open, now)
    {
      Collect(now);
      return |byCode|;
    }
  }
}
