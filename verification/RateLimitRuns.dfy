/** Runs of the limiter: whatever keys are interleaved, whatever is swept or refused,
    no key gets more than its budget, and the sweep can never be noticed. */
module RateLimitRuns {
  import opened Basics
  import opened RateLimit

  datatype Call = Call(key: Key, cost: real, at: real)

  // Instants never go back, and costs are not negative.
  ghost predicate Ordered(calls: seq<Call>) {
    && (forall i | 0 <= i < |calls| :: 0.0 <= calls[i].cost)
    && (forall i, j | 0 <= i < j < |calls| :: calls[i].at <= calls[j].at)
  }

  function DropLast(calls: seq<Call>): seq<Call>
    requires calls != []
  {
    calls[..|calls| - 1]
  }

  function Last(calls: seq<Call>): Call
    requires calls != []
  {
    calls[|calls| - 1]
  }

  // The limiter after a run that starts with an empty table.
  function After(g: Budget, calls: seq<Call>): Table {
    if calls == [] then EMPTY
    else var c := Last(calls); Step(After(g, DropLast(calls)), g, c.key, c.cost, c.at).0
  }

  // What the last call of a run is answered.
  predicate Granted(g: Budget, calls: seq<Call>)
    requires calls != []
  {
    var c := Last(calls); Step(After(g, DropLast(calls)), g, c.key, c.cost, c.at).1
  }

  // The cost granted to `key` between the instants `from` and `to`, both included.
  function Admitted(g: Budget, calls: seq<Call>, key: Key, from: real, to: real): real {
    if calls == [] then 0.0
    else
      var c := Last(calls);
      Admitted(g, DropLast(calls), key, from, to) +
      if c.key == key && from <= c.at <= to && Granted(g, calls) then c.cost else 0.0
  }

  // What drips into a bucket over a stretch of time, were there no brim.
  function Drip(g: Budget, seconds: real): real {
    seconds * g.refill
  }

  // --------------------------------------------------- what a key could spend

  // The tokens `key` would find if it were consulted at `now`.
  ghost function Level(t: Table, g: Budget, key: Key, now: real): real {
    if key !in t.buckets || t.buckets[key].last.None? then g.capacity
    else Refilled(t.buckets[key], g, now).tokens
  }

  ghost predicate Inv(t: Table, g: Budget, now: real) {
    && |t.buckets| <= SIZE_LIMIT + 1
    && forall k <- t.buckets ::
         && t.buckets[k].last.Some? && t.buckets[k].last.value <= now
         && 0.0 <= t.buckets[k].tokens <= g.capacity
  }

  lemma LevelFlows(t: Table, g: Budget, key: Key, now: real, later: real)
    requires g.Valid() && Inv(t, g, now) && now <= later
    ensures Inv(t, g, later)
    ensures Level(t, g, key, later) == Min(Level(t, g, key, now) + Drip(g, later - now), g.capacity)
  {
    if key in t.buckets {
      MoreTimeMoreTokens(g, t.buckets[key].last.value, now, later);
      MoreTimeMoreTokens(g, t.buckets[key].last.value, t.buckets[key].last.value, now);
    }
  }

  // A bucket that is swept had refilled, so forgetting it changes no level.
  lemma SweepKeepsLevels(t: Table, g: Budget, now: real, key: Key)
    requires g.Valid() && g.RefillsWhileIdle() && Inv(t, g, now)
    ensures Inv(Sweep(t, now), g, now)
    ensures Level(Sweep(t, now), g, key, now) == Level(t, g, key, now)
  {
    var u := Sweep(t, now);
    assert u.buckets.Keys <= t.buckets.Keys;
    SubsetSize(u.buckets.Keys, t.buckets.Keys);
    if key in t.buckets && key !in u.buckets {
      IdleIsFull(t.buckets[key], g, now);
    }
  }

  lemma IdleIsFull(b: BucketState, g: Budget, now: real)
    requires g.Valid() && g.RefillsWhileIdle() && b.last.Some? && Idle(b, now) && 0.0 <= b.tokens <= g.capacity
    ensures Refilled(b, g, now).tokens == g.capacity
  {
    var elapsed := now - b.last.value;
    DripIsPositive(g, elapsed - IDLE_SECONDS);
    assert elapsed * g.refill == IDLE_SECONDS * g.refill + Drip(g, elapsed - IDLE_SECONDS);
  }

  predicate Refuses(t: Table, key: Key) {
    key !in t.buckets && |t.buckets| > SIZE_LIMIT
  }

  lemma TakeCharges(b: BucketState, g: Budget, now: real, cost: real)
    requires g.Valid() && 0.0 <= cost
    requires b.last.Some? ==> b.last.value <= now && 0.0 <= b.tokens <= g.capacity
    ensures var (c, ok) := Take(b, g, now, cost); var had := Refilled(b, g, now).tokens;
      && c.last == Some(now) && 0.0 <= had <= g.capacity && ok == (cost <= had)
      && c.tokens == (if ok then had - cost else had) && 0.0 <= c.tokens
  {
    if b.last.Some? {
      assert Drip(g, now - b.last.value) >= 0.0;
    }
  }

  lemma ConsultInv(t: Table, g: Budget, c: Call)
    requires g.Valid() && Inv(t, g, c.at) && 0.0 <= c.cost
    ensures Inv(Consult(t, g, c.key, c.cost, c.at).0, g, c.at)
  {
    var u := Consult(t, g, c.key, c.cost, c.at).0;
    TakeCharges(if c.key in t.buckets then t.buckets[c.key] else BucketState(0.0, None), g, c.at, c.cost);
    if c.key in t.buckets || Refuses(t, c.key) {
      assert u.buckets.Keys == t.buckets.Keys;
    } else {
      assert u.buckets.Keys == t.buckets.Keys + {c.key};
    }
  }

  lemma ConsultCharges(t: Table, g: Budget, c: Call, key: Key)
    requires g.Valid() && Inv(t, g, c.at) && 0.0 <= c.cost
    ensures var (u, ok) := Consult(t, g, c.key, c.cost, c.at);
      && Level(u, g, key, c.at) == Level(t, g, key, c.at) - (if ok && key == c.key then c.cost else 0.0)
      && 0.0 <= Level(u, g, key, c.at) <= g.capacity
      && ok == (c.cost <= Level(t, g, c.key, c.at) && !Refuses(t, c.key))
  {
    TakeCharges(if c.key in t.buckets then t.buckets[c.key] else BucketState(0.0, None), g, c.at, c.cost);
    if key in t.buckets {
      TakeCharges(t.buckets[key], g, c.at, 0.0);
    }
  }

  // A call takes its cost from its own key's level and leaves every other level alone.
  lemma StepChargesOneKey(t: Table, g: Budget, c: Call, key: Key)
    requires g.Valid() && g.RefillsWhileIdle() && Inv(t, g, c.at) && 0.0 <= c.cost
    ensures var (u, ok) := Step(t, g, c.key, c.cost, c.at);
      && Inv(u, g, c.at)
      && Level(u, g, key, c.at) == Level(t, g, key, c.at) - (if ok && key == c.key then c.cost else 0.0)
      && 0.0 <= Level(u, g, key, c.at) <= g.capacity
      && ok == (c.cost <= Level(t, g, c.key, c.at) && !Refuses(Sweep(t, c.at), c.key))
  {
    SweepKeepsLevels(t, g, c.at, key);
    SweepKeepsLevels(t, g, c.at, c.key);
    ConsultInv(Sweep(t, c.at), g, c);
    ConsultCharges(Sweep(t, c.at), g, c, key);
  }

  // --------------------------------------------------------- the window bound

  lemma EmptyIsFull(g: Budget, key: Key, now: real)
    ensures Inv(EMPTY, g, now) && Level(EMPTY, g, key, now) == g.capacity
  {
  }

  // Before its last call a run leaves a sound table, in which no key has more than
  // it had after the call before plus what has dripped in since.
  lemma {:induction false} BeforeLast(g: Budget, calls: seq<Call>, key: Key)
    requires g.Valid() && g.RefillsWhileIdle() && Ordered(calls) && calls != []
    ensures var t := After(g, DropLast(calls)); var now := Last(calls).at;
      && Inv(t, g, now) && Level(t, g, key, now) <= g.capacity
      && (|calls| > 1 ==> var p := Last(DropLast(calls)).at;
            Level(t, g, key, now) <= Level(t, g, key, p) + Drip(g, now - p))
  {
    hide Step, Level, Drip;
    var before := DropLast(calls);
    if before == [] {
      EmptyIsFull(g, key, Last(calls).at);
    } else {
      var p := Last(before);
      BeforeLast(g, before, key);
      StepChargesOneKey(After(g, DropLast(before)), g, p, key);
      LevelFlows(After(g, before), g, key, p.at, Last(calls).at);
    }
  }

  // Spent plus still available never exceeds what the window has made available.
  lemma {:induction false} SpentPlusLevel(g: Budget, calls: seq<Call>, key: Key, from: real, to: real)
    requires g.Valid() && g.RefillsWhileIdle() && Ordered(calls) && calls != [] && from <= to
    ensures 0.0 <= Level(After(g, calls), g, key, Last(calls).at)
    ensures Last(calls).at < from ==> Admitted(g, calls, key, from, to) == 0.0
    ensures from <= Last(calls).at <= to ==>
      Admitted(g, calls, key, from, to) + Level(After(g, calls), g, key, Last(calls).at)
        <= g.capacity + Drip(g, Last(calls).at - from)
  {
    hide Step, Level, Drip;
    var c := Last(calls);
    var before := DropLast(calls);
    var t := After(g, before);
    BeforeLast(g, calls, key);
    StepChargesOneKey(t, g, c, key);
    if before == [] {
      MoreTimeMoreTokens(g, from, from, c.at);
    } else {
      var p := Last(before).at;
      SpentPlusLevel(g, before, key, from, to);
      MoreTimeMoreTokens(g, from, p, c.at);
    }
  }

  lemma DripIsPositive(g: Budget, seconds: real)
    requires 0.0 <= g.refill && 0.0 <= seconds
    ensures 0.0 <= Drip(g, seconds)
  {
  }

  lemma MoreTimeMoreTokens(g: Budget, a: real, b: real, c: real)
    requires g.Valid()
    ensures Drip(g, b - a) + Drip(g, c - b) == Drip(g, c - a)
    ensures b <= c ==> 0.0 <= Drip(g, c - b)
    ensures a <= c ==> 0.0 <= Drip(g, c - a)
  {
    if b <= c {
      DripIsPositive(g, c - b);
    }
    if a <= c {
      DripIsPositive(g, c - a);
    }
  }

  lemma {:induction false} WindowBound(g: Budget, calls: seq<Call>, key: Key, from: real, to: real)
    requires g.Valid() && g.RefillsWhileIdle() && Ordered(calls) && from <= to
    ensures Admitted(g, calls, key, from, to) <= g.capacity + Drip(g, to - from)
  {
    hide Step, Level, Drip;
    MoreTimeMoreTokens(g, from, from, to);
    if calls != [] {
      var c := Last(calls);
      if to < c.at {
        WindowBound(g, DropLast(calls), key, from, to);
      } else {
        SpentPlusLevel(g, calls, key, from, to);
        MoreTimeMoreTokens(g, from, c.at, to);
      }
    }
  }

  ghost predicate WithinBudget(g: Budget, calls: seq<Call>) {
    forall key, from: real, to: real | from <= to ::
      Admitted(g, calls, key, from, to) <= g.capacity + Drip(g, to - from)
  }

  // The window bound holds of every run exactly when an idle bucket refills before it is swept.
  lemma BudgetHoldsExactly(g: Budget)
    requires g.Valid()
    ensures (forall calls | Ordered(calls) :: WithinBudget(g, calls)) <==> g.RefillsWhileIdle()
  {
    if g.RefillsWhileIdle() {
      forall calls | Ordered(calls) ensures WithinBudget(g, calls) {
        forall key, from: real, to: real | from <= to
          ensures Admitted(g, calls, key, from, to) <= g.capacity + Drip(g, to - from)
        {
          WindowBound(g, calls, key, from, to);
        }
      }
    } else {
      var calls, end := DrainTwice(g);
      assert !WithinBudget(g, calls) by {
        assert Admitted(g, calls, "", 0.0, end) > g.capacity + Drip(g, end - 0.0);
      }
    }
  }

  // An instant just past the sweep's five minutes at which the bucket is not yet full.
  lemma SlackInstant(g: Budget) returns (end: real)
    requires g.Valid() && !g.RefillsWhileIdle()
    ensures IDLE_SECONDS < end && 0.0 <= Drip(g, end) < g.capacity
  {
    end := IDLE_SECONDS + 1.0;
    if g.refill > 0.0 {
      var slack := g.capacity - IDLE_SECONDS * g.refill;
      var more := slack / (2.0 * g.refill);
      assert more * g.refill == slack / 2.0;
      assert more > 0.0;
      end := IDLE_SECONDS + more;
    }
  }

  lemma FirstDrain(g: Budget, calls: seq<Call>)
    requires g.Valid() && calls == [Call("", g.capacity, 0.0)]
    ensures Granted(g, calls) && ForeverGranted(g, calls)
    ensures After(g, calls) == Table(map["" := BucketState(0.0, Some(0.0))], Some(0.0))
    ensures AfterForever(g, calls).buckets == map["" := BucketState(0.0, Some(0.0))]
  {
    assert DropLast(calls) == [];
    assert Sweep(EMPTY, 0.0) == Table(map[], Some(0.0));
  }

  // Draining a bucket, waiting just past the sweep, and draining it again.
  lemma DrainTwice(g: Budget) returns (calls: seq<Call>, end: real)
    requires g.Valid() && !g.RefillsWhileIdle()
    ensures IDLE_SECONDS < end && Drip(g, end) < g.capacity
    ensures calls == [Call("", g.capacity, 0.0), Call("", g.capacity, end)] && Ordered(calls)
    ensures Granted(g, calls) && Admitted(g, calls, "", 0.0, end) == 2.0 * g.capacity
    ensures !ForeverGranted(g, calls)
  {
    end := SlackInstant(g);
    var first := [Call("", g.capacity, 0.0)];
    FirstDrain(g, first);
    calls := first + [Call("", g.capacity, end)];
    assert DropLast(calls) == first && DropLast(first) == [];
    assert Sweep(After(g, first), end) == Table(map[], Some(end));
    assert Refilled(BucketState(0.0, Some(0.0)), g, end).tokens <= Drip(g, end);
    assert Admitted(g, first, "", 0.0, end) == g.capacity;
  }

  // ------------------------------------------------ the sweep cannot be noticed

  // The limiter that never forgets a bucket and never refuses for size.
  function StepForever(t: Table, g: Budget, key: Key, cost: real, now: real): (Table, bool) {
    var b := if key in t.buckets then t.buckets[key] else BucketState(0.0, None);
    var (c, ok) := Take(b, g, now, cost);
    (t.(buckets := t.buckets[key := c]), ok)
  }

  function AfterForever(g: Budget, calls: seq<Call>): Table {
    if calls == [] then EMPTY
    else var c := Last(calls); StepForever(AfterForever(g, DropLast(calls)), g, c.key, c.cost, c.at).0
  }

  predicate ForeverGranted(g: Budget, calls: seq<Call>)
    requires calls != []
  {
    var c := Last(calls); StepForever(AfterForever(g, DropLast(calls)), g, c.key, c.cost, c.at).1
  }

  // No call of the run met a full table.
  ghost predicate NeverRefused(g: Budget, calls: seq<Call>) {
    calls != [] ==>
      && NeverRefused(g, DropLast(calls))
      && !Refuses(Sweep(After(g, DropLast(calls)), Last(calls).at), Last(calls).key)
  }

  ghost predicate Bounded(t: Table, g: Budget, now: real) {
    forall k <- t.buckets ::
      && t.buckets[k].last.Some? && t.buckets[k].last.value <= now
      && 0.0 <= t.buckets[k].tokens <= g.capacity
  }

  ghost predicate SameLevels(t: Table, u: Table, g: Budget, now: real) {
    Inv(t, g, now) && Bounded(u, g, now) && forall k :: Level(t, g, k, now) == Level(u, g, k, now)
  }

  lemma SameLevelsLater(t: Table, u: Table, g: Budget, now: real, later: real)
    requires g.Valid() && SameLevels(t, u, g, now) && now <= later
    ensures SameLevels(t, u, g, later)
  {
    forall k ensures Level(t, g, k, later) == Level(u, g, k, later) {
      assert Level(t, g, k, now) == Level(u, g, k, now);
      LevelFlows(t, g, k, now, later);
      var one := Table(if k in u.buckets then map[k := u.buckets[k]] else map[], None);
      LevelFlows(one, g, k, now, later);
    }
  }

  lemma {:induction false} SweepIsInvisible(g: Budget, calls: seq<Call>)
    requires g.Valid() && g.RefillsWhileIdle() && Ordered(calls) && NeverRefused(g, calls) && calls != []
    ensures Granted(g, calls) == ForeverGranted(g, calls)
    ensures SameLevels(After(g, calls), AfterForever(g, calls), g, Last(calls).at)
  {
    var c := Last(calls);
    var before := DropLast(calls);
    var t, u := After(g, before), AfterForever(g, before);
    if before != [] {
      SweepIsInvisible(g, before);
      SameLevelsLater(t, u, g, Last(before).at, c.at);
    }
    assert Level(t, g, c.key, c.at) == Level(u, g, c.key, c.at);
    SameLevelsStep(t, u, g, c);
  }

  lemma SameLevelsStep(t: Table, u: Table, g: Budget, c: Call)
    requires g.Valid() && g.RefillsWhileIdle() && 0.0 <= c.cost && SameLevels(t, u, g, c.at)
    requires !Refuses(Sweep(t, c.at), c.key)
    ensures Step(t, g, c.key, c.cost, c.at).1 == StepForever(u, g, c.key, c.cost, c.at).1
    ensures SameLevels(Step(t, g, c.key, c.cost, c.at).0, StepForever(u, g, c.key, c.cost, c.at).0, g, c.at)
  {
    var t', u' := Step(t, g, c.key, c.cost, c.at).0, StepForever(u, g, c.key, c.cost, c.at).0;
    forall k ensures Level(t', g, k, c.at) == Level(u', g, k, c.at) {
      assert Level(t, g, k, c.at) == Level(u, g, k, c.at);
      StepChargesOneKey(t, g, c, k);
      ForeverCharges(u, g, c, k);
    }
    assert Level(t, g, c.key, c.at) == Level(u, g, c.key, c.at);
    StepChargesOneKey(t, g, c, c.key);
    ForeverCharges(u, g, c, c.key);
  }

  lemma ForeverCharges(u: Table, g: Budget, c: Call, key: Key)
    requires g.Valid() && Bounded(u, g, c.at) && 0.0 <= c.cost
    ensures var (v, ok) := StepForever(u, g, c.key, c.cost, c.at);
      && Bounded(v, g, c.at)
      && Level(v, g, key, c.at) == Level(u, g, key, c.at) - (if ok && key == c.key then c.cost else 0.0)
      && ok == (c.cost <= Level(u, g, c.key, c.at))
  {
    TakeCharges(if c.key in u.buckets then u.buckets[c.key] else BucketState(0.0, None), g, c.at, c.cost);
    if key in u.buckets {
      TakeCharges(u.buckets[key], g, c.at, 0.0);
    }
  }

  ghost predicate AnswersAlike(g: Budget, calls: seq<Call>) {
    forall n | 0 < n <= |calls| :: Granted(g, calls[..n]) == ForeverGranted(g, calls[..n])
  }

  // Runs that never meet a full table are answered as if nothing were ever forgotten,
  // exactly when an idle bucket refills before it is swept.
  lemma InvisibleExactly(g: Budget)
    requires g.Valid()
    ensures (forall calls | Ordered(calls) && NeverRefused(g, calls) :: AnswersAlike(g, calls))
      <==> g.RefillsWhileIdle()
  {
    if g.RefillsWhileIdle() {
      forall calls, n | Ordered(calls) && NeverRefused(g, calls) && 0 < n <= |calls|
        ensures Granted(g, calls[..n]) == ForeverGranted(g, calls[..n])
      {
        NeverRefusedPrefix(g, calls, n);
        SweepIsInvisible(g, calls[..n]);
      }
    } else {
      var calls, end := DrainTwice(g);
      assert calls[..2] == calls;
      assert DropLast(calls) == [calls[0]] && DropLast([calls[0]]) == [];
      assert NeverRefused(g, calls) by {
        assert NeverRefused(g, []) && NeverRefused(g, [calls[0]]);
        SubsetSize(Sweep(After(g, [calls[0]]), end).buckets.Keys, {""});
      }
      assert !AnswersAlike(g, calls);
    }
  }

  lemma {:induction false} NeverRefusedPrefix(g: Budget, calls: seq<Call>, n: nat)
    requires NeverRefused(g, calls) && n <= |calls|
    ensures NeverRefused(g, calls[..n])
  {
    if n < |calls| {
      NeverRefusedPrefix(g, DropLast(calls), n);
      assert DropLast(calls)[..n] == calls[..n];
    } else {
      assert calls[..n] == calls;
    }
  }

  // Whatever the budget and the instants, the table never holds more than 50,001 buckets.
  lemma {:induction false} TableIsBounded(g: Budget, calls: seq<Call>)
    ensures |After(g, calls).buckets| <= 50_001
  {
    if calls != [] {
      TableIsBounded(g, DropLast(calls));
      var c := Last(calls);
      var t := After(g, DropLast(calls));
      var s := Sweep(t, c.at);
      assert s.buckets.Keys <= t.buckets.Keys;
      SubsetSize(s.buckets.Keys, t.buckets.Keys);
      var u := After(g, calls);
      if Refuses(s, c.key) {
        assert u == s;
      } else if c.key in s.buckets {
        assert u.buckets.Keys == s.buckets.Keys;
      } else {
        assert u.buckets.Keys == s.buckets.Keys + {c.key};
      }
    }
  }

  // ------------------------------------------------------------ shipped limits

  const AUTH := Budget(10.0, 0.5)
  const PAIR := Budget(5.0, 0.1)
  const CONNECT := Budget(10.0, 0.5)
  const MESSAGE := Budget(200.0, 50.0)
  const SOCKET := Budget(20.0, 1.0)

  // Each of the five shipped budgets is one for which the bound and the invisibility hold.
  lemma ShippedBudgetsHold(g: Budget, calls: seq<Call>)
    requires g in {AUTH, PAIR, CONNECT, MESSAGE, SOCKET} && Ordered(calls)
    ensures WithinBudget(g, calls) && (NeverRefused(g, calls) ==> AnswersAlike(g, calls))
  {
    BudgetHoldsExactly(g);
    InvisibleExactly(g);
  }
}
