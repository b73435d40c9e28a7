/** No request hangs, and neither the reader nor the teardown ever blocks on a channel,
    under every interleaving of callers, replies, cancellations and reconnections. */
module RvClientRuns {
  import opened Basics
  import opened RvClient

  // The reader has taken this waiter out of the table and still owes it an envelope.
  predicate Owed(s: State, ref: Ref) {
    match s.reader
    case Delivering(_, r) => r == ref
    case Failing(_, left) => ref in left
    case _ => false
  }

  // The connection is `conn`, and the failing of its waiters is yet to come.
  predicate StillToFail(r: Reader, conn: Conn) {
    (r.Serving? || r.Delivering? || r.Closing?) && r.conn == conn
  }

  predicate Published(s: State) {
    match s.reader
    case Serving(c) => s.shared.ws == Some(c)
    case Delivering(c, _) => s.shared.ws == Some(c)
    case _ => s.shared.ws == None
  }

  // One envelope per request: in the table, owed, or arrived, but never two of these.
  ghost predicate AtMostOnce(s: State, ref: Ref)
    requires ref in s.arrived
  {
    && |s.arrived[ref]| <= 1
    && !(ref in s.shared.waiters && Owed(s, ref))
    && (ref in s.shared.waiters || Owed(s, ref) ==> s.arrived[ref] == [])
    && (ref in s.taken ==> |s.arrived[ref]| == 1)
  }

  // What the program counter of one caller implies.
  ghost predicate CallerInv(s: State, ref: Ref)
    requires ref in s.callers && ref in s.arrived
  {
    match s.callers[ref]
    case Fresh => ref !in s.shared.waiters && !Owed(s, ref) && s.arrived[ref] == [] && ref !in s.taken
    case Registered => Expected(s, ref) && ref !in s.taken
    case Writing(c) => Expected(s, ref) && ref !in s.taken && (ref in s.shared.waiters ==> StillToFail(s.reader, c))
    case Waiting(c) => Expected(s, ref) && ref !in s.taken && (ref in s.shared.waiters ==> StillToFail(s.reader, c))
    case Leaving => true
    case Done => ref !in s.shared.waiters
  }

  predicate Expected(s: State, ref: Ref)
    requires ref in s.arrived
  {
    ref in s.shared.waiters || Owed(s, ref) || s.arrived[ref] != []
  }

  ghost predicate Inv(s: State) {
    && Published(s)
    && s.callers.Keys == s.arrived.Keys
    && s.shared.waiters <= s.callers.Keys && s.taken <= s.callers.Keys
    && (forall ref: Ref :: Owed(s, ref) ==> ref in s.callers)
    && (forall ref <- s.callers :: ref < s.nextRef && AtMostOnce(s, ref) && CallerInv(s, ref))
  }

  lemma StepKeepsTables(s: State, e: Event)
    requires Inv(s) && Enabled(s, e)
    ensures var t := Step(s, e);
      && Published(t) && t.callers.Keys == t.arrived.Keys
      && t.shared.waiters <= t.callers.Keys && t.taken <= t.callers.Keys
      && (forall ref: Ref :: Owed(t, ref) ==> ref in t.callers)
      && (forall ref <- t.callers :: ref < t.nextRef)
  {
    hide AtMostOnce, CallerInv;
  }

  lemma StepKeepsOneEnvelope(s: State, e: Event, ref: Ref)
    requires Inv(s) && Enabled(s, e) && ref in s.callers
    ensures ref in Step(s, e).callers && ref in Step(s, e).arrived && AtMostOnce(Step(s, e), ref)
  {
    assert AtMostOnce(s, ref) && CallerInv(s, ref);
  }

  // A step of the reading goroutine.
  predicate Reads(e: Event) {
    e.Connect? || e.TakeWaiter? || e.Deliver? || e.Lose? || e.SwapWaiters? || e.FailWaiter? || e.Finish?
  }

  lemma ReaderKeepsCaller(s: State, e: Event, ref: Ref)
    requires Inv(s) && Enabled(s, e) && ref in s.callers && Reads(e)
    ensures ref in Step(s, e).callers && ref in Step(s, e).arrived && CallerInv(Step(s, e), ref)
  {
    assert AtMostOnce(s, ref) && CallerInv(s, ref);
  }

  lemma CallersKeepCaller(s: State, e: Event, ref: Ref)
    requires Inv(s) && Enabled(s, e) && ref in s.callers && !Reads(e)
    ensures ref in Step(s, e).callers && ref in Step(s, e).arrived && CallerInv(Step(s, e), ref)
  {
    assert AtMostOnce(s, ref) && CallerInv(s, ref);
  }

  // A request that has just begun.
  lemma NewCaller(s: State, e: Event, ref: Ref)
    requires Inv(s) && Enabled(s, e) && ref !in s.callers && ref in Step(s, e).callers
    ensures ref in Step(s, e).arrived && AtMostOnce(Step(s, e), ref) && CallerInv(Step(s, e), ref)
  {
  }

  lemma StepKeepsInv(s: State, e: Event)
    requires Inv(s) && Enabled(s, e)
    ensures Inv(Step(s, e))
  {
    var t := Step(s, e);
    StepKeepsTables(s, e);
    hide Step, AtMostOnce, CallerInv, Enabled, Owed;
    forall ref | ref in t.callers
      ensures ref < t.nextRef && AtMostOnce(t, ref) && CallerInv(t, ref)
    {
      if ref in s.callers {
        StepKeepsOneEnvelope(s, e, ref);
        if Reads(e) {
          ReaderKeepsCaller(s, e, ref);
        } else {
          CallersKeepCaller(s, e, ref);
        }
      } else {
        NewCaller(s, e, ref);
      }
    }
  }

  lemma {:induction false} LeadsKeepsInv(s: State, events: seq<Event>, t: State)
    requires Inv(s) && Leads(s, events, t)
    ensures Inv(t)
    decreases |events|
  {
    if events != [] {
      StepKeepsInv(s, events[0]);
      LeadsKeepsInv(Step(s, events[0]), events[1..], t);
    }
  }

  lemma ReachableInv(s: State)
    requires Reachable(s)
    ensures Inv(s)
  {
    var events :| Leads(INITIAL, events, s);
    LeadsKeepsInv(INITIAL, events, s);
  }

  // ------------------------------------------------------------------ the claims

  // No channel ever receives a second envelope.
  lemma AtMostOneEnvelope(s: State, ref: Ref)
    requires Reachable(s) && ref in s.arrived
    ensures |s.arrived[ref]| <= 1
  {
    ReachableInv(s);
    assert AtMostOnce(s, ref);
  }

  // Whoever is about to send to a waiter finds its channel empty.
  lemma SendersNeverBlock(s: State)
    requires Reachable(s)
    ensures s.reader.Delivering? ==> Enabled(s, Deliver)
    ensures s.reader.Failing? ==> forall ref <- s.reader.left :: Enabled(s, FailWaiter(ref))
  {
    ReachableInv(s);
    if s.reader.Delivering? {
      assert Owed(s, s.reader.ref);
      assert AtMostOnce(s, s.reader.ref);
    } else if s.reader.Failing? {
      forall ref | ref in s.reader.left ensures Enabled(s, FailWaiter(ref)) {
        assert Owed(s, ref);
        assert AtMostOnce(s, ref);
      }
    }
  }

  // A caller still waiting with nothing in its channel is owed an envelope, or sits in the
  // table while the very connection it wrote to has its failing of waiters yet to come.
  lemma WaitersHaveALiveSession(s: State, ref: Ref)
    requires Reachable(s) && ref in s.callers && s.callers[ref].Waiting? && ref in s.arrived && s.arrived[ref] == []
    ensures Owed(s, ref) || (ref in s.shared.waiters && StillToFail(s.reader, s.callers[ref].conn))
  {
    ReachableInv(s);
    assert CallerInv(s, ref);
  }

  // --------------------------------------------------------------- the way to the end

  // What a lost connection still has to do, in steps of the reading goroutine alone.
  ghost function TeardownLeft(s: State): nat {
    match s.reader
    case Idle => 0
    case Failing(_, left) => 1 + |left|
    case Closing(_) => 2 + |s.shared.waiters|
    case Serving(_) => 3 + |s.shared.waiters|
    case Delivering(_, _) => 4 + |s.shared.waiters|
  }

  // Callers may still register, so the teardown is counted from the step that swaps the
  // table on; until then one step of the reader leads there.
  lemma NextTeardown(s: State) returns (e: Event)
    requires Reachable(s) && !s.reader.Idle?
    ensures e in {Lose, Deliver, SwapWaiters, Finish} || e.FailWaiter?
    ensures Enabled(s, e) && TeardownLeft(Step(s, e)) < TeardownLeft(s)
  {
    SendersNeverBlock(s);
    match s.reader
    case Serving(_) => e := Lose;
    case Delivering(_, _) => e := Deliver;
    case Closing(_) => e := SwapWaiters;
    case Failing(_, left) =>
      if left == {} {
        e := Finish;
      } else {
        var ref :| ref in left;
        e := FailWaiter(ref);
      }
  }

  lemma {:induction false} LeadsOn(s: State, events: seq<Event>, t: State, e: Event)
    requires Leads(s, events, t) && Enabled(t, e)
    ensures Leads(s, events + [e], Step(t, e))
    decreases |events|
  {
    if events == [] {
      assert [e][1..] == [];
    } else {
      LeadsOn(Step(s, events[0]), events[1..], t, e);
      assert (events + [e])[1..] == events[1..] + [e];
    }
  }

  lemma ReachesOn(s: State, e: Event)
    requires Reachable(s) && Enabled(s, e)
    ensures Reachable(Step(s, e))
  {
    var events :| Leads(INITIAL, events, s);
    LeadsOn(INITIAL, events, s, e);
  }

  // Caller threads standing still, the teardown of a lost connection runs to its end by
  // itself, and then every caller that waits has something in its channel.
  lemma {:induction false} TeardownFreesEveryWaiter(s: State) returns (events: seq<Event>, t: State)
    requires Reachable(s)
    ensures Leads(s, events, t) && t.reader.Idle? && t.callers == s.callers
    ensures forall e <- events :: e in {Lose, Deliver, SwapWaiters, Finish} || e.FailWaiter?
    ensures forall ref <- t.callers :: t.callers[ref].Waiting? ==> Enabled(t, Receive(ref))
    decreases TeardownLeft(s)
  {
    if s.reader.Idle? {
      events, t := [], s;
      ReachableInv(s);
      forall ref | ref in t.callers && t.callers[ref].Waiting? ensures Enabled(t, Receive(ref)) {
        assert CallerInv(s, ref) && AtMostOnce(s, ref);
      }
    } else {
      var e := NextTeardown(s);
      ReachesOn(s, e);
      var rest;
      rest, t := TeardownFreesEveryWaiter(Step(s, e));
      events := [e] + rest;
      assert events[1..] == rest;
    }
  }

  // ------------------------------------------------------------- which envelope it is

  // The steps so far account for everything in the channels: a reply for each waiter the reader
  // took out and delivered to, an empty envelope for each the teardown failed.
  ghost predicate Accounted(s: State, events: seq<Event>) {
    && (forall ref: Ref | TakeWaiter(ref) in events || FailWaiter(ref) in events :: ref in s.arrived)
    && (forall ref: Ref :: !(TakeWaiter(ref) in events && FailWaiter(ref) in events))
    && (s.reader.Delivering? ==> TakeWaiter(s.reader.ref) in events)
    && (forall ref <- s.arrived :: s.arrived[ref] == Envelopes(s, events, ref))
  }

  predicate DeliveringTo(s: State, ref: Ref) { s.reader.Delivering? && s.reader.ref == ref }

  function Envelopes(s: State, events: seq<Event>, ref: Ref): seq<Envelope> {
    if FailWaiter(ref) in events then [Closed]
    else if TakeWaiter(ref) in events && !DeliveringTo(s, ref) then [Reply]
    else []
  }

  lemma OneMoreEvent(events: seq<Event>, e: Event, f: Event)
    ensures f in events + [e] <==> f in events || f == e
  {
  }

  lemma OneMoreEnvelope(s: State, events: seq<Event>, e: Event, ref: Ref)
    requires Inv(s) && Accounted(s, events) && Enabled(s, e) && ref in Step(s, e).arrived
    ensures Step(s, e).arrived[ref] == Envelopes(Step(s, e), events + [e], ref)
  {
    OneMoreEvent(events, e, TakeWaiter(ref));
    OneMoreEvent(events, e, FailWaiter(ref));
    if ref in s.callers {
      assert AtMostOnce(s, ref) && s.arrived[ref] == Envelopes(s, events, ref);
      if e.Deliver? && s.reader.ref == ref {
        assert Owed(s, ref) && s.arrived[ref] == [];
        assert [] + [Reply] == [Reply];
      } else if e == FailWaiter(ref) {
        assert Owed(s, ref) && s.arrived[ref] == [];
        assert [] + [Closed] == [Closed];
      }
    }
  }

  lemma StepKeepsAccount(s: State, events: seq<Event>, e: Event)
    requires Inv(s) && Accounted(s, events) && Enabled(s, e)
    ensures Accounted(Step(s, e), events + [e])
  {
    var t := Step(s, e);
    forall ref | ref in t.arrived ensures t.arrived[ref] == Envelopes(t, events + [e], ref) {
      OneMoreEnvelope(s, events, e, ref);
    }
    forall ref: Ref | TakeWaiter(ref) in events + [e] || FailWaiter(ref) in events + [e]
      ensures ref in t.arrived && !(TakeWaiter(ref) in events + [e] && FailWaiter(ref) in events + [e])
    {
      OneMoreEvent(events, e, TakeWaiter(ref));
      OneMoreEvent(events, e, FailWaiter(ref));
      if ref in s.callers {
        assert AtMostOnce(s, ref) && CallerInv(s, ref);
      }
    }
  }

  lemma {:induction false} LeadsKeepsAccount(s: State, before: seq<Event>, events: seq<Event>, t: State)
    requires Inv(s) && Accounted(s, before) && Leads(s, events, t)
    ensures Accounted(t, before + events)
    decreases |events|
  {
    if events == [] {
      assert before + events == before;
    } else {
      StepKeepsInv(s, events[0]);
      StepKeepsAccount(s, before, events[0]);
      LeadsKeepsAccount(Step(s, events[0]), before + [events[0]], events[1..], t);
      assert before + [events[0]] + events[1..] == before + events;
    }
  }

  // What a request's channel has received after any run: an empty envelope exactly if the teardown
  // failed its waiter, a reply exactly if the reader took its waiter out of the table and has sent
  // to it, and nothing otherwise; never both.
  lemma ArrivedExactly(events: seq<Event>, s: State, ref: Ref)
    requires Leads(INITIAL, events, s) && ref in s.arrived
    ensures Closed in s.arrived[ref] <==> FailWaiter(ref) in events
    ensures Reply in s.arrived[ref] <==>
      TakeWaiter(ref) in events && !(s.reader.Delivering? && s.reader.ref == ref)
    ensures |s.arrived[ref]| <= 1
  {
    LeadsKeepsAccount(INITIAL, [], events, s);
    assert [] + events == events;
  }

  // A request that is over has left nothing behind in the table.
  lemma DoneLeavesNothing(s: State, ref: Ref)
    requires Reachable(s) && At(s, ref, Done)
    ensures ref !in s.shared.waiters
  {
    ReachableInv(s);
    assert CallerInv(s, ref);
  }

  // ------------------------------------------------------------- where a request has got to

  // What the steps so far say of one request.
  ghost predicate Placed(s: State, events: seq<Event>, ref: Ref)
    requires ref in s.callers
  {
    var wrote, failed := Write(ref, true) in events, Write(ref, false) in events;
    var got, gave, left := Receive(ref) in events, Cancel(ref) in events, Leave(ref) in events;
    && (ref in s.taken <==> got)
    && (left <==> s.callers[ref].Done?)
    && (wrote && !got && !gave <==> s.callers[ref].Waiting?)
    && (s.callers[ref].Fresh? || s.callers[ref].Registered? || s.callers[ref].Writing? ==>
          !wrote && !failed && !got && !gave)
    && (s.callers[ref].Writing? ==> ReadConnection(ref) in events)
    && (s.callers[ref].Leaving? || s.callers[ref].Done? ==>
          failed || got || gave || (ReadConnection(ref) in events && !wrote))
    && (failed ==> !wrote && (s.callers[ref].Leaving? || s.callers[ref].Done?))
    && (got || gave ==> wrote)
  }

  predicate Concerns(e: Event, ref: Ref) {
    match e
    case Register(r) => r == ref
    case ReadConnection(r) => r == ref
    case Write(r, _) => r == ref
    case Receive(r) => r == ref
    case Cancel(r) => r == ref
    case Leave(r) => r == ref
    case _ => false
  }

  ghost predicate AllPlaced(s: State, events: seq<Event>) {
    && (forall ref <- s.callers :: Placed(s, events, ref))
    && (forall e <- events, ref: Ref | Concerns(e, ref) :: ref in s.callers)
  }

  lemma OthersStay(s: State, e: Event, ref: Ref)
    requires Inv(s) && Enabled(s, e) && ref in s.callers && !Concerns(e, ref)
    ensures var t := Step(s, e);
      ref in t.callers && t.callers[ref] == s.callers[ref] && (ref in t.taken <==> ref in s.taken)
  {
    hide AtMostOnce, CallerInv;
  }

  lemma OneMoreOfEach(events: seq<Event>, e: Event, ref: Ref)
    ensures forall f: Event | Concerns(f, ref) :: f in events + [e] <==> f in events || f == e
  {
  }

  lemma StepKeepsPlaced(s: State, events: seq<Event>, e: Event, ref: Ref)
    requires Inv(s) && AllPlaced(s, events) && Enabled(s, e) && ref in Step(s, e).callers
    ensures Placed(Step(s, e), events + [e], ref)
  {
    hide Placed, Step, Inv, Enabled;
    if ref in s.callers {
      if Concerns(e, ref) {
        MovesOn(s, events, e, ref);
      } else {
        OthersStay(s, e, ref);
        StaysPlaced(s, Step(s, e), events, e, ref);
      }
    } else {
      assert forall f: Event | Concerns(f, ref) :: f !in events;
      NewPlaced(s, events, e, ref);
    }
  }

  lemma StaysPlaced(s: State, t: State, events: seq<Event>, e: Event, ref: Ref)
    requires ref in s.callers && Placed(s, events, ref) && !Concerns(e, ref)
    requires ref in t.callers && t.callers[ref] == s.callers[ref] && (ref in t.taken <==> ref in s.taken)
    ensures Placed(t, events + [e], ref)
  {
    OneMoreOfEach(events, e, ref);
    EachConcerns(ref);
  }

  lemma NewPlaced(s: State, events: seq<Event>, e: Event, ref: Ref)
    requires Inv(s) && Enabled(s, e) && ref !in s.callers && ref in Step(s, e).callers
    requires forall f: Event | Concerns(f, ref) :: f !in events
    ensures Placed(Step(s, e), events + [e], ref)
  {
    hide AtMostOnce, CallerInv;
    OneMoreOfEach(events, e, ref);
    EachConcerns(ref);
  }

  lemma EachConcerns(ref: Ref)
    ensures forall ok :: Concerns(Write(ref, ok), ref)
    ensures Concerns(Receive(ref), ref) && Concerns(Cancel(ref), ref) && Concerns(Leave(ref), ref)
    ensures Concerns(ReadConnection(ref), ref)
  {
  }

  lemma MovesOn(s: State, events: seq<Event>, e: Event, ref: Ref)
    requires Enabled(s, e) && ref in s.callers && Concerns(e, ref) && Placed(s, events, ref)
    ensures ref in Step(s, e).callers && Placed(Step(s, e), events + [e], ref)
  {
    OneMoreOfEach(events, e, ref);
    EachConcerns(ref);
  }

  lemma {:induction false} LeadsKeepsPlaced(s: State, before: seq<Event>, events: seq<Event>, t: State)
    requires Inv(s) && AllPlaced(s, before) && Leads(s, events, t)
    ensures AllPlaced(t, before + events)
    decreases |events|
  {
    if events == [] {
      assert before + events == before;
    } else {
      var r := Step(s, events[0]);
      forall ref | ref in r.callers ensures Placed(r, before + [events[0]], ref) {
        StepKeepsPlaced(s, before, events[0], ref);
      }
      forall e <- before + [events[0]], ref: Ref | Concerns(e, ref) ensures ref in r.callers {
        OneMoreEvent(before, events[0], e);
      }
      StepKeepsInv(s, events[0]);
      LeadsKeepsPlaced(r, before + [events[0]], events[1..], t);
      assert before + [events[0]] + events[1..] == before + events;
    }
  }

  // A request waits exactly from its successful write until it receives or is cancelled, it is over
  // exactly once it has removed itself, and it gives up only because it received, was cancelled,
  // could not write or found nothing to write to.
  lemma WaitsExactly(events: seq<Event>, s: State, ref: Ref)
    requires Leads(INITIAL, events, s) && ref in s.callers
    ensures s.callers[ref].Waiting? <==>
      Write(ref, true) in events && Receive(ref) !in events && Cancel(ref) !in events
    ensures s.callers[ref].Done? <==> Leave(ref) in events
    ensures s.callers[ref].Leaving? || s.callers[ref].Done? ==>
      || Receive(ref) in events || Cancel(ref) in events || Write(ref, false) in events
      || (ReadConnection(ref) in events && Write(ref, true) !in events)
    ensures ref in s.taken <==> Receive(ref) in events
  {
    LeadsKeepsPlaced(INITIAL, [], events, s);
    assert [] + events == events;
    assert Placed(s, events, ref);
  }

  // And it writes to the connection that is being read, or gives up if there is none.
  lemma WritesToTheLiveOne(s: State, ref: Ref)
    requires Reachable(s) && Enabled(s, ReadConnection(ref))
    ensures var c := Step(s, ReadConnection(ref)).callers[ref];
      if s.reader.Serving? || s.reader.Delivering? then c == Writing(s.reader.conn) else c == Leaving
  {
    ReachableInv(s);
  }
}
