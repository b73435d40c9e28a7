/** The reconnecting rendezvous client: callers that wait for replies, one goroutine that
    reads them, and the teardown of a lost connection.

    `Shared` is what the client's two mutexes guard.  Its functions are the critical
    sections; class `Client` runs them on the mutable fields, and `Step` interleaves them,
    one critical section or channel operation at a time, with a program counter for every
    caller and for the reading goroutine. */
module RvClient {
  import opened Basics

  type Ref = nat    // the request sequence number carried by a request and its reply
  type Conn = nat   // one dialled connection

  // What lands in a waiter's channel: a reply, or the zero envelope of a lost connection.
  datatype Envelope = Reply | Closed

  // -------------------------------------------------------------- critical sections

  datatype Shared = Shared(ws: Option<Conn>, waiters: set<Ref>)

  function Publish(s: Shared, conn: Conn): Shared { s.(ws := Some(conn)) }

  function Retract(s: Shared): Shared { s.(ws := None) }

  function Enter(s: Shared, ref: Ref): Shared { s.(waiters := s.waiters + {ref}) }

  function Remove(s: Shared, ref: Ref): Shared { s.(waiters := s.waiters - {ref}) }

  function TakeAll(s: Shared): (Shared, set<Ref>) { (s.(waiters := {}), s.waiters) }

  // A one-place channel made by one request.
  class Channel {
    var queue: seq<Envelope>
    constructor ()
      ensures queue == []
    {
      queue := [];
    }
  }

  class Client {
    var ws: Option<Conn>
    var waiters: map<Ref, Channel>
    var reqSeq: Ref

    constructor ()
      ensures View() == Shared(None, {}) && reqSeq == 0
    {
      ws, waiters, reqSeq := None, map[], 0;
    }

    function View(): Shared
      reads this
    {
      Shared(ws, waiters.Keys)
    }

    // The start of a request: its number, its channel, and its entry in the table.
    method Register() returns (ref: Ref, ch: Channel)
      modifies this
      ensures ref == old(reqSeq) + 1 == reqSeq && fresh(ch) && ch.queue == []
      ensures View() == Enter(old(View()), ref) && waiters == old(waiters)[ref := ch]
    {
      reqSeq := reqSeq + 1;
      ref := reqSeq;
      ch := new Channel();
      waiters := waiters[ref := ch];
    }

    // The end of a request, deferred before it sends anything.
    method Unregister(ref: Ref)
      modifies this`waiters
      ensures View() == Remove(old(View()), ref) && waiters == old(waiters) - {ref}
    {
      waiters := waiters - {ref};
      assert waiters.Keys == old(waiters.Keys) - {ref};
    }

    // A reply has come in: its waiter, if it is still expected, is taken out of the table.
    method TakeWaiter(ref: Ref) returns (ch: Channel?)
      modifies this`waiters
      ensures ch == (if ref in old(waiters) then old(waiters)[ref] else null)
      ensures View() == Remove(old(View()), ref)
    {
      ch := null;
      if ref in waiters {
        ch := waiters[ref];
        waiters := waiters - {ref};
      }
      assert waiters.Keys == old(waiters.Keys) - {ref};
    }

    method SwapWaiters() returns (taken: map<Ref, Channel>)
      modifies this`waiters
      ensures taken == old(waiters)
      ensures (View(), taken.Keys) == TakeAll(old(View()))
    {
      taken := waiters;
      waiters := map[];
      assert waiters.Keys == {};
    }

    method SetConnection(conn: Conn)
      modifies this`ws
      ensures View() == Publish(old(View()), conn)
    {
      ws := Some(conn);
    }

    method ClearConnection()
      modifies this`ws
      ensures View() == Retract(old(View()))
    {
      ws := None;
    }
  }

  // ------------------------------------------------------------------- the protocol

  datatype Caller =
    | Fresh                  // numbered, its channel made
    | Registered             // in the table of waiters
    | Writing(conn: Conn)    // has read the connection, is sending the request
    | Waiting(conn: Conn)    // selects between its channel and its context
    | Leaving                // about to run the deferred removal
    | Done

  datatype Reader =
    | Idle                                    // between two connections
    | Serving(conn: Conn)                     // handshake and read loop
    | Delivering(conn: Conn, ref: Ref)        // has taken a waiter out, is sending to it
    | Closing(conn: Conn)                     // has cleared the connection
    | Failing(conn: Conn, left: set<Ref>)     // has swapped the table, is failing its waiters

  // `arrived` lists everything a request's channel ever received, `taken` those whose
  // caller has received from it.
  datatype State = State(
    shared: Shared, callers: map<Ref, Caller>, reader: Reader,
    nextRef: Ref, nextConn: Conn,
    arrived: map<Ref, seq<Envelope>>, taken: set<Ref>)

  const INITIAL := State(Shared(None, {}), map[], Idle, 1, 0, map[], {})

  datatype Event =
    | Begin
    | Register(ref: Ref)
    | ReadConnection(ref: Ref)
    | Write(ref: Ref, ok: bool)
    | Receive(ref: Ref)
    | Cancel(ref: Ref)
    | Leave(ref: Ref)
    | Connect
    | TakeWaiter(ref: Ref)
    | Deliver
    | Lose
    | SwapWaiters
    | FailWaiter(ref: Ref)
    | Finish

  // A one-place channel has room when everything that arrived has been received.
  predicate HasRoom(s: State, ref: Ref) {
    ref in s.arrived && |s.arrived[ref]| == if ref in s.taken then 1 else 0
  }

  predicate At(s: State, ref: Ref, c: Caller) { ref in s.callers && s.callers[ref] == c }

  predicate Enabled(s: State, e: Event) {
    match e
    case Begin => true
    case Register(ref) => At(s, ref, Fresh)
    case ReadConnection(ref) => At(s, ref, Registered)
    case Write(ref, _) => ref in s.callers && s.callers[ref].Writing?
    case Receive(ref) => ref in s.callers && s.callers[ref].Waiting? && ref in s.arrived && !HasRoom(s, ref)
    case Cancel(ref) => ref in s.callers && s.callers[ref].Waiting?
    case Leave(ref) => At(s, ref, Leaving)
    case Connect => s.reader.Idle?
    case TakeWaiter(ref) => s.reader.Serving? && ref in s.shared.waiters
    case Deliver => s.reader.Delivering? && HasRoom(s, s.reader.ref)
    case Lose => s.reader.Serving?
    case SwapWaiters => s.reader.Closing?
    case FailWaiter(ref) => s.reader.Failing? && ref in s.reader.left && HasRoom(s, ref)
    case Finish => s.reader.Failing? && s.reader.left == {}
  }

  function Moved(s: State, ref: Ref, c: Caller): State { s.(callers := s.callers[ref := c]) }

  function Sent(s: State, ref: Ref, m: Envelope): State
    requires ref in s.arrived
  {
    s.(arrived := s.arrived[ref := s.arrived[ref] + [m]])
  }

  function Step(s: State, e: Event): State
    requires Enabled(s, e)
  {
    match e
    case Begin =>
      Moved(s, s.nextRef, Fresh).(nextRef := s.nextRef + 1, arrived := s.arrived[s.nextRef := []])
    case Register(ref) =>
      Moved(s, ref, Registered).(shared := Enter(s.shared, ref))
    case ReadConnection(ref) =>
      if s.shared.ws.None? then Moved(s, ref, Leaving) else Moved(s, ref, Writing(s.shared.ws.value))
    case Write(ref, ok) =>
      if ok then Moved(s, ref, Waiting(s.callers[ref].conn)) else Moved(s, ref, Leaving)
    case Receive(ref) =>
      Moved(s, ref, Leaving).(taken := s.taken + {ref})
    case Cancel(ref) =>
      Moved(s, ref, Leaving)
    case Leave(ref) =>
      Moved(s, ref, Done).(shared := Remove(s.shared, ref))
    case Connect =>
      s.(reader := Serving(s.nextConn), nextConn := s.nextConn + 1, shared := Publish(s.shared, s.nextConn))
    case TakeWaiter(ref) =>
      s.(reader := Delivering(s.reader.conn, ref), shared := Remove(s.shared, ref))
    case Deliver =>
      Sent(s, s.reader.ref, Reply).(reader := Serving(s.reader.conn))
    case Lose =>
      s.(reader := Closing(s.reader.conn), shared := Retract(s.shared))
    case SwapWaiters =>
      var (shared, left) := TakeAll(s.shared);
      s.(reader := Failing(s.reader.conn, left), shared := shared)
    case FailWaiter(ref) =>
      Sent(s, ref, Closed).(reader := Failing(s.reader.conn, s.reader.left - {ref}))
    case Finish =>
      s.(reader := Idle)
  }

  // A state some interleaving leads to.
  ghost predicate Leads(from: State, events: seq<Event>, to: State)
    decreases |events|
  {
    if events == [] then from == to
    else Enabled(from, events[0]) && Leads(Step(from, events[0]), events[1..], to)
  }

  ghost predicate Reachable(s: State) {
    exists events :: Leads(INITIAL, events, s)
  }
}
