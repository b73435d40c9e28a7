/** The queues between the native capture thread and its caller: two frames, eight cursors and
    the sixteen newest cursor bitmaps.

    Frames and bitmaps are numbered as they are published. `Queues` is the value with the lists
    of what was delivered and dropped; `Session` is the object whose loops update it. */
module NativeQueues {

  datatype Cursor = Moved | Shaped(bitmap: nat)

  datatype FrameResult = Frame(number: nat) | Timeout | Closed

  datatype CursorResult = NoCursor | ACursor(cursor: Cursor)

  datatype Queues = Queues(
    running: bool,
    frames: seq<nat>,
    published: nat,
    delivered: seq<nat>,
    dropped: seq<nat>,
    cursors: seq<Cursor>,
    bitmaps: seq<nat>,
    pushed: nat)

  const EMPTY := Queues(true, [], 0, [], [], [], [], 0)

  // ------------------------------------------------------------------------ steps

  // The newest `n` of a queue.
  function Newest<T>(s: seq<T>, n: nat): seq<T> { if |s| <= n then s else s[|s| - n..] }

  function FramePublished(q: Queues): Queues {
    var kept := Newest(q.frames, 1);
    q.(frames := kept + [q.published], published := q.published + 1,
       dropped := q.dropped + q.frames[..|q.frames| - |kept|])
  }

  function FrameTaken(q: Queues): (Queues, FrameResult) {
    if q.frames == [] then (q, if q.running then Timeout else Closed)
    else (q.(frames := q.frames[1..], delivered := q.delivered + [q.frames[0]]), Frame(q.frames[0]))
  }

  // One more bitmap in a store of sixteen.
  function Stored(bitmaps: seq<nat>, b: nat): seq<nat> {
    if |bitmaps| + 1 > 16 then (bitmaps + [b])[1..] else bitmaps + [b]
  }

  // `shape` says whether a new bitmap comes with the position.
  function CursorPublished(q: Queues, shape: bool): Queues {
    var r := if shape then q.(bitmaps := Stored(q.bitmaps, q.pushed), pushed := q.pushed + 1) else q;
    r.(cursors := Newest(q.cursors, 7) + [if shape then Shaped(q.pushed) else Moved])
  }

  function CursorTaken(q: Queues): (Queues, CursorResult) {
    if q.cursors == [] then (q, NoCursor) else (q.(cursors := q.cursors[1..]), ACursor(q.cursors[0]))
  }

  datatype Step = PublishFrame | NextFrame | PublishCursor(shape: bool) | NextCursor | Stop

  function Stepped(q: Queues, s: Step): Queues {
    match s
    case PublishFrame => FramePublished(q)
    case NextFrame => FrameTaken(q).0
    case PublishCursor(shape) => CursorPublished(q, shape)
    case NextCursor => CursorTaken(q).0
    case Stop => q.(running := false)
  }

  function After(run: seq<Step>): Queues {
    if run == [] then EMPTY else Stepped(After(run[..|run| - 1]), run[|run| - 1])
  }

  // ------------------------------------------------------------- the mutable object

  class Session {
    var running: bool
    var frames: seq<nat>
    var droppedCount: nat
    var cursors: seq<Cursor>
    var bitmaps: seq<nat>
    var published: nat
    var pushed: nat
    ghost var delivered: seq<nat>
    ghost var dropped: seq<nat>

    constructor ()
      ensures State() == EMPTY && Counted()
    {
      running, frames, droppedCount, cursors, bitmaps := true, [], 0, [], [];
      published, pushed, delivered, dropped := 0, 0, [], [];
    }

    ghost function State(): Queues
      reads this
    {
      Queues(running, frames, published, delivered, dropped, cursors, bitmaps, pushed)
    }

    ghost predicate Counted()
      reads this
    {
      droppedCount == |dropped|
    }

    method DropOldFrames()
      requires Counted()
      modifies this`frames, this`droppedCount, this`dropped
      ensures Counted() && frames == Newest(old(frames), 1)
      ensures dropped == old(dropped) + old(frames)[..|old(frames)| - |frames|]
    {
      ghost var was := frames;
      while |frames| >= 2
        invariant |frames| <= |was| && frames == was[|was| - |frames|..]
        invariant |was| >= 1 ==> |frames| >= 1
        invariant dropped == old(dropped) + was[..|was| - |frames|] && Counted()
        decreases |frames|
      {
        dropped := dropped + [frames[0]];
        frames := frames[1..];
        droppedCount := droppedCount + 1;
      }
    }

    method PublishFrame()
      requires Counted()
      modifies this
      ensures State() == FramePublished(old(State())) && Counted()
    {
      hide Newest;
      DropOldFrames();
      frames := frames + [published];
      published := published + 1;
    }

    // What it finds once the wait for a frame or for the end of the session is over.
    method NextFrame() returns (r: FrameResult)
      requires Counted()
      modifies this
      ensures (State(), r) == FrameTaken(old(State())) && Counted()
    {
      if !running && frames == [] {
        return Closed;
      }
      if frames == [] {
        return Timeout;
      }
      r := Frame(frames[0]);
      delivered := delivered + [frames[0]];
      frames := frames[1..];
    }

    method StoreBitmap() returns (b: nat)
      modifies this`bitmaps, this`pushed
      ensures b == old(pushed) && pushed == old(pushed) + 1 && bitmaps == Stored(old(bitmaps), b)
    {
      b := pushed;
      bitmaps := bitmaps + [b];
      if |bitmaps| > 16 {
        bitmaps := bitmaps[1..];
      }
      pushed := pushed + 1;
    }

    method DropOldCursors()
      modifies this`cursors
      ensures cursors == Newest(old(cursors), 7)
    {
      ghost var was := cursors;
      while |cursors| >= 8
        invariant |cursors| <= |was| && cursors == was[|was| - |cursors|..]
        invariant |cursors| >= if |was| < 7 then |was| else 7
        decreases |cursors|
      {
        cursors := cursors[1..];
      }
    }

    method PublishCursor(shape: bool)
      modifies this
      ensures State() == CursorPublished(old(State()), shape) && (old(Counted()) ==> Counted())
    {
      hide Newest, Stored;
      var update := Moved;
      if shape {
        var b := StoreBitmap();
        update := Shaped(b);
      }
      DropOldCursors();
      cursors := cursors + [update];
    }

    method NextCursor() returns (r: CursorResult)
      modifies this
      ensures (State(), r) == CursorTaken(old(State())) && (old(Counted()) ==> Counted())
    {
      if cursors == [] {
        return NoCursor;
      }
      r := ACursor(cursors[0]);
      cursors := cursors[1..];
    }
  }

  // ---------------------------------------------------------------------- invariants

  ghost predicate Increasing(s: seq<nat>) { forall i, j | 0 <= i < j < |s| :: s[i] < s[j] }

  // The queue holds the newest frames; every older one was delivered or dropped, never both;
  // both lists are in order.
  ghost predicate FramesAccounted(q: Queues) {
    && |q.frames| <= 2 && |q.frames| <= q.published
    && (forall i | 0 <= i < |q.frames| :: q.frames[i] == q.published - |q.frames| + i)
    && Increasing(q.delivered) && Increasing(q.dropped)
    && (forall n :: n in q.delivered ==> n !in q.dropped)
    && (forall n: nat :: n in q.delivered || n in q.dropped <==> n < q.published - |q.frames|)
    && |q.delivered| + |q.dropped| + |q.frames| == q.published
  }

  // The store holds the newest bitmaps, and what is queued refers to recent ones: the newest
  // cursor to the last bitmap at oldest, the one before it to the last but one, and so on.
  ghost predicate BitmapsStored(q: Queues) {
    && |q.cursors| <= 8
    && |q.bitmaps| == (if q.pushed < 16 then q.pushed else 16)
    && (forall i | 0 <= i < |q.bitmaps| :: q.bitmaps[i] == q.pushed - |q.bitmaps| + i)
    && (forall i | 0 <= i < |q.cursors| && q.cursors[i].Shaped? ::
          q.cursors[i].bitmap < q.pushed && q.pushed - q.cursors[i].bitmap <= |q.cursors| - i)
  }

  lemma IncreasingAppends(s: seq<nat>, n: nat)
    requires Increasing(s) && forall m <- s :: m < n
    ensures Increasing(s + [n])
  {
    forall i, j | 0 <= i < j < |s + [n]| ensures (s + [n])[i] < (s + [n])[j] {
      assert s[i] in s;
    }
  }

  lemma PublishAccounts(q: Queues)
    requires FramesAccounted(q)
    ensures FramesAccounted(FramePublished(q))
  {
    if |q.frames| == 2 {
      assert q.frames[..1] == [q.frames[0]];
      IncreasingAppends(q.dropped, q.frames[0]);
    } else {
      assert q.dropped + q.frames[..0] == q.dropped;
    }
  }

  lemma TakeAccounts(q: Queues)
    requires FramesAccounted(q)
    ensures FramesAccounted(FrameTaken(q).0)
  {
    if q.frames != [] {
      IncreasingAppends(q.delivered, q.frames[0]);
    }
  }

  lemma CursorStores(q: Queues, shape: bool)
    requires BitmapsStored(q)
    ensures BitmapsStored(CursorPublished(q, shape))
  {
  }

  // So it is after any steps of the capture thread and its caller.
  lemma {:induction false} AlwaysAccounted(run: seq<Step>)
    ensures FramesAccounted(After(run)) && BitmapsStored(After(run))
  {
    if run != [] {
      var q := After(run[..|run| - 1]);
      AlwaysAccounted(run[..|run| - 1]);
      match run[|run| - 1]
      case PublishFrame => PublishAccounts(q);
      case NextFrame => TakeAccounts(q);
      case PublishCursor(shape) => CursorStores(q, shape);
      case NextCursor =>
      case Stop =>
    }
  }

  // A frame is delivered after all that were delivered before it, and is one of the newest two.
  lemma DeliveryIsFreshAndInOrder(run: seq<Step>)
    requires FrameTaken(After(run)).1.Frame?
    ensures var q, n := After(run), FrameTaken(After(run)).1.number;
      (forall m <- q.delivered :: m < n) && q.published - 2 <= n < q.published
  {
    AlwaysAccounted(run);
  }

  // Closed comes only when no frame is left: all that were published went one way or the other.
  lemma ClosedWhenDrained(run: seq<Step>)
    requires FrameTaken(After(run)).1.Closed?
    ensures var q := After(run); !q.running && forall n: nat | n < q.published :: n in q.delivered || n in q.dropped
  {
    AlwaysAccounted(run);
  }

  // Every queued cursor finds its bitmap in the store, and so does the caller it was handed to
  // while at most eight more bitmaps come.
  lemma QueuedBitmapsStored(run: seq<Step>, i: nat)
    requires var q := After(run); i < |q.cursors| && q.cursors[i].Shaped?
    ensures After(run).cursors[i].bitmap in After(run).bitmaps
  {
    AlwaysAccounted(run);
    var q := After(run);
    var at := q.cursors[i].bitmap - (q.pushed - |q.bitmaps|);
    assert q.bitmaps[at] == q.cursors[i].bitmap;
  }

  lemma HandedBitmapLasts(run: seq<Step>, later: seq<Step>)
    requires var r := CursorTaken(After(run)).1; r.ACursor? && r.cursor.Shaped?
    requires After(run + [NextCursor] + later).pushed <= After(run).pushed + 8
    ensures CursorTaken(After(run)).1.cursor.bitmap in After(run + [NextCursor] + later).bitmaps
  {
    AlwaysAccounted(run);
    AlwaysAccounted(run + [NextCursor] + later);
    PushedGrows(run, [NextCursor] + later);
    assert run + [NextCursor] + later == run + ([NextCursor] + later);
    var b := CursorTaken(After(run)).1.cursor.bitmap;
    var q := After(run + [NextCursor] + later);
    assert q.bitmaps[b - (q.pushed - |q.bitmaps|)] == b;
  }

  lemma {:induction false} PushedGrows(run: seq<Step>, later: seq<Step>)
    ensures After(run).pushed <= After(run + later).pushed
  {
    if later == [] {
      assert run + later == run;
    } else {
      var n := |later| - 1;
      assert (run + later)[..|run + later| - 1] == run + later[..n];
      PushedGrows(run, later[..n]);
    }
  }

  // ------------------------------------------------------------- nothing kept back

  // A frame that was published and neither delivered nor dropped.
  predicate Left(q: Queues, n: nat) { n < q.published && n !in q.delivered && n !in q.dropped }

  // A caller that asks gets the oldest frame left, and only that is delivered by it; with none left
  // it is told whether the session has ended.
  lemma NextFrameExactly(run: seq<Step>)
    ensures var q := After(run); var (r, answer) := FrameTaken(q);
      && (if exists n: nat :: Left(q, n) then
            && answer.Frame? && Left(q, answer.number) && (forall n: nat | Left(q, n) :: answer.number <= n)
            && r.delivered == q.delivered + [answer.number]
          else answer == (if q.running then Timeout else Closed) && r.delivered == q.delivered)
      && r.dropped == q.dropped && r.published == q.published && r.running == q.running
  {
    AlwaysAccounted(run);
    var q := After(run);
    if q.frames != [] {
      LeftAreQueued(q, q.frames[0]);
    }
    forall n: nat | Left(q, n) ensures q.frames != [] && q.frames[0] <= n {
      LeftAreQueued(q, n);
    }
  }

  lemma LeftAreQueued(q: Queues, n: nat)
    requires FramesAccounted(q)
    ensures Left(q, n) <==> q.published - |q.frames| <= n < q.published
  {
  }

  // Neither of the newest two frames is ever dropped.
  lemma {:induction false} NewestTwoAreKept(run: seq<Step>)
    ensures forall n <- After(run).dropped :: n + 2 < After(run).published
  {
    if run != [] {
      NewestTwoAreKept(run[..|run| - 1]);
      AlwaysAccounted(run[..|run| - 1]);
      var q := After(run[..|run| - 1]);
      if run[|run| - 1].PublishFrame? {
        forall n <- After(run).dropped ensures n + 2 < After(run).published {
          if n !in q.dropped {
            assert n in q.frames[..|q.frames| - |Newest(q.frames, 1)|];
          }
        }
      }
    }
  }

  // The cursors that are published one after the other, from bitmap number `pushed` on.
  function Shapes(shapes: seq<bool>): seq<Step> {
    seq(|shapes|, i requires 0 <= i < |shapes| => PublishCursor(shapes[i]))
  }

  function PushedIn(shapes: seq<bool>): nat {
    if shapes == [] then 0 else PushedIn(shapes[..|shapes| - 1]) + if shapes[|shapes| - 1] then 1 else 0
  }

  // The cursors they are to become.
  function Shown(pushed: nat, shapes: seq<bool>): (c: seq<Cursor>)
    ensures |c| == |shapes|
  {
    if shapes == [] then []
    else
      var before := shapes[..|shapes| - 1];
      Shown(pushed, before) + [if shapes[|shapes| - 1] then Shaped(pushed + PushedIn(before)) else Moved]
  }

  predicate EndsIn<T(==)>(all: seq<T>, end: seq<T>) { |end| <= |all| && all[|all| - |end|..] == end }

  lemma EndGrows<T>(all: seq<T>, end: seq<T>, x: T, n: nat)
    requires EndsIn(all, end) && |end| <= n
    ensures EndsIn(Newest(all, n) + [x], end + [x])
  {
    var kept := Newest(all, n);
    assert kept[|kept| - |end|..] == end;
    assert (kept + [x])[|kept| - |end|..] == kept[|kept| - |end|..] + [x];
  }

  lemma OneMoreShape(run: seq<Step>, shapes: seq<bool>)
    requires shapes != []
    ensures var n := |shapes| - 1;
      After(run + Shapes(shapes)) == CursorPublished(After(run + Shapes(shapes[..n])), shapes[n])
  {
    var n := |shapes| - 1;
    var all := run + Shapes(shapes);
    assert all[..|all| - 1] == run + Shapes(shapes[..n]) && all[|all| - 1] == PublishCursor(shapes[n]);
  }

  // Of cursors published one after the other the newest eight are queued, in their order, each with
  // its own bitmap.
  lemma {:induction false} NewestCursorsQueued(run: seq<Step>, shapes: seq<bool>)
    requires |shapes| <= 8
    ensures var p, q := After(run), After(run + Shapes(shapes));
      EndsIn(q.cursors, Shown(p.pushed, shapes)) && q.pushed == p.pushed + PushedIn(shapes)
  {
    hide Newest, EndsIn, Stored;
    if shapes == [] {
      assert run + Shapes([]) == run;
      EndsEmpty(After(run).cursors);
    } else {
      var n := |shapes| - 1;
      var q := After(run + Shapes(shapes[..n]));
      NewestCursorsQueued(run, shapes[..n]);
      OneMoreShape(run, shapes);
      var x := if shapes[n] then Shaped(q.pushed) else Moved;
      EndGrows(q.cursors, Shown(After(run).pushed, shapes[..n]), x, 7);
      hide After;
    }
  }

  lemma EndsEmpty(all: seq<Cursor>)
    ensures EndsIn(all, [])
  {
  }

  // A caller that asks gets the oldest of them, and the next one the time after.
  lemma {:induction false} CursorsComeInOrder(run: seq<Step>, k: nat)
    ensures var q := After(run); var r := After(run + seq(k, _ => NextCursor));
      && r.cursors == (if k <= |q.cursors| then q.cursors[k..] else [])
      && CursorTaken(r).1 == (if k < |q.cursors| then ACursor(q.cursors[k]) else NoCursor)
  {
    var all := run + seq(k, _ => NextCursor);
    if k == 0 {
      assert all == run;
    } else {
      assert all[..|all| - 1] == run + seq(k - 1, _ => NextCursor) && all[|all| - 1] == NextCursor;
      CursorsComeInOrder(run, k - 1);
    }
  }
}
