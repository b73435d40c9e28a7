/** Runs of the quality controller: it settles without turning back, and it keeps the
    pace its comments promise. */
module QualityRuns {
  import opened Basics
  import opened QualityController

  datatype Tick = Tick(estimate: int, viewport: Option<Size>, moment: Moment)

  function Ticked(q: Controller, t: Tick): Controller {
    Update(q, t.estimate, t.viewport, t.moment)
  }

  // The controller after a run of updates.
  function After(q: Controller, run: seq<Tick>): Controller {
    if run == [] then q else Ticked(After(q, run[..|run| - 1]), run[|run| - 1])
  }

  // How often a run changed or tried to change the size or the frame rate.
  function Changes(calls: seq<SourceCall>): nat {
    if calls == [] then 0
    else
      var c := calls[|calls| - 1];
      Changes(calls[..|calls| - 1]) + if c.SetFrameRate? || c.SetResolution? then 1 else 0
  }

  function BitrateCalls(calls: seq<SourceCall>): nat {
    if calls == [] then 0
    else BitrateCalls(calls[..|calls| - 1]) + if calls[|calls| - 1].SetBitrate? then 1 else 0
  }

  // ------------------------------------------------------- soundness is invariant

  lemma UpdateIsSound(q: Controller, t: Tick)
    requires Sound(q)
    ensures Sound(Ticked(q, t))
  {
    var seen := if t.viewport.Some? then WithViewport(q, t.viewport.value, t.moment) else q;
    assert Sound(seen);
    if seen.adaptive && t.estimate > 0 {
      var target := Target(seen, t.estimate);
      AdaptIsSound(TrackBitrate(seen, target), target, t.moment);
    }
  }

  lemma AdaptIsSound(q: Controller, target: int, m: Moment)
    requires Sound(q)
    ensures Sound(Adapt(q, target, m))
  {
    hide Clamp;
    ClampStays();
  }

  lemma ClampStays()
    ensures forall v: int, low: int, high: int {:trigger Clamp(v, low, high)} ::
      low <= high ==> low <= Clamp(v, low, high) <= high && (low <= v <= high ==> Clamp(v, low, high) == v)
  {
  }

  lemma ApplyIsSound(q: Controller, r: Request, m: Moment)
    requires Sound(q)
    ensures Sound(Apply(q, r, m))
  {
    hide Requested, WithFPS, WithRung;
    var a := Requested(q, r);
    RequestedIsSound(q, r);
    StepsAreSound(a, a.maxFPS, m);
    StepsAreSound(a, MinInt(a.maxFPS, 60), m);
    StepsAreSound(WithFPS(a, MinInt(a.maxFPS, 60)), 60, m);
  }

  lemma RequestedIsSound(q: Controller, r: Request)
    requires Sound(q)
    ensures Sound(Requested(q, r))
  {
    hide Clamp;
    ClampStays();
  }

  lemma StepsAreSound(q: Controller, fps: int, m: Moment)
    requires Sound(q)
    ensures Sound(WithFPS(q, fps)) && Sound(WithRung(q, 0, m))
  {
  }

  // ------------------------------------------------------------ what a request leaves

  // The bounds of the bitrate stay in order through a request exactly if a lower maximum does
  // not pass an old minimum, and a tiny new minimum does not meet a maximum tinier still.
  lemma RequestKeepsBounds(q: Controller, r: Request, m: Moment)
    requires q.minBitrate <= q.maxBitrate
    ensures var top := if r.maxKbps > 0 then Clamp(r.maxKbps * 1000, 300_000, 200_000_000) else q.maxBitrate;
      Apply(q, r, m).minBitrate <= Apply(q, r, m).maxBitrate <==>
        if r.minKbps > 0 then r.minKbps >= 100 || top >= 100_000 else q.minBitrate <= top
  {
    hide WithFPS, WithRung, WithPolicy;
    var a := Requested(q, r);
    ApplyKeepsLimits(q, r, m);
  }

  lemma ApplyKeepsLimits(q: Controller, r: Request, m: Moment)
    ensures var a, z := Requested(q, r), Apply(q, r, m);
      z.minBitrate == a.minBitrate && z.maxBitrate == a.maxBitrate && z.maxFPS == a.maxFPS
  {
    hide Requested, Clamp, SizeForRung, RoundTo16;
  }

  // A request for a game gets its frame rate; one for a desktop gets at most sixty frames and,
  // unless the policy fixes the size, the top rung.
  lemma RequestMeetsPreset(q: Controller, r: Request, m: Moment)
    requires Sound(q)
    ensures var a, z := Requested(q, r), Apply(q, r, m);
      && (a.preset.Gaming? ==> z.fps == MaxInt(a.maxFPS, MIN_USABLE_FPS))
      && (a.preset.Desktop? ==> z.fps == MaxInt(MinInt(a.maxFPS, 60), MIN_USABLE_FPS))
      && (a.preset.Desktop? && (a.policy.Auto? || a.policy.Fit?) ==> z.rung == 0)
      && (a.policy.Native? && m.acceptsSize ==> z.rung == 0)
      && (!a.preset.Gaming? && !a.preset.Desktop? ==> z.fps == q.fps)
  {
    RequestedIsSound(q, r);
    RequestedKeepsRates(q, r);
    hide Requested, WithFPS, WithRung, WithPolicy;
    var a := Requested(q, r);
    RateSet(a, a.maxFPS);
    RateSet(a, MinInt(a.maxFPS, 60));
    TopRungSet(WithFPS(a, MinInt(a.maxFPS, 60)), m);
    var b := if a.preset.Gaming? then WithFPS(a, a.maxFPS)
             else if a.preset.Desktop? then WithRung(WithFPS(a, MinInt(a.maxFPS, 60)), 0, m)
             else a;
    PolicySet(b, m);
  }

  lemma RateSet(q: Controller, fps: int)
    requires fps <= MAX_FPS
    ensures WithFPS(q, fps).(calls := q.calls) == q.(fps := MaxInt(fps, MIN_USABLE_FPS))
  {
  }

  lemma TopRungSet(q: Controller, m: Moment)
    ensures var r := WithRung(q, 0, m);
      && r.fps == q.fps && r.policy == q.policy && r.preset == q.preset
      && (q.policy.Auto? || q.policy.Fit? ==> r.rung == 0)
  {
    hide SizeForRung;
  }

  lemma PolicySet(q: Controller, m: Moment)
    ensures var r := WithPolicy(q, m);
      r.fps == q.fps && r.rung == if q.policy.Native? && m.acceptsSize then 0 else q.rung
  {
    hide RoundTo16;
  }

  lemma RequestedKeepsRates(q: Controller, r: Request)
    ensures Requested(q, r).fps == q.fps && Requested(q, r).rung == q.rung
  {
  }

  // On the top rung a lowered frame rate is never restored: while no estimate is too low for
  // it, updates leave both as they are, however good the estimates.
  lemma {:induction false} TopRungKeepsFrameRate(q: Controller, run: seq<Tick>)
    requires Sound(q) && q.rung == 0
    requires forall t <- run :: Target(q, t.estimate) >= MinBitrate(0)
    ensures var r := After(q, run);
      r.fps == q.fps && r.rung == 0 && Sound(r) && r.minBitrate == q.minBitrate && r.maxBitrate == q.maxBitrate
  {
    hide Ticked;
    if run != [] {
      var n := |run| - 1;
      assert run[n] in run && forall t <- run[..n] :: t in run;
      TopRungKeepsFrameRate(q, run[..n]);
      TopRungTick(After(q, run[..n]), run[n]);
    }
  }

  lemma TopRungTick(q: Controller, t: Tick)
    requires Sound(q) && q.rung == 0 && Target(q, t.estimate) >= MinBitrate(0)
    ensures var r := Ticked(q, t);
      r.fps == q.fps && r.rung == 0 && Sound(r) && r.minBitrate == q.minBitrate && r.maxBitrate == q.maxBitrate
  {
    hide Clamp;
  }

  // ---------------------------------------------- how much there is left to change

  // Whether the size policy leaves the ladder free to move.
  predicate Free(q: Controller) { !q.policy.Native? && !q.policy.Fixed? }

  // Steps the controller will take downwards while `target` stays too low for its rung.
  function StepsDown(free: bool, desktop: bool, fps: int, rung: nat, target: int): nat
    requires rung <= LOWEST_RUNG
    decreases LOWEST_RUNG - rung, fps
  {
    if target >= MinBitrate(rung) then 0
    else if desktop && fps > 30 then 1 + StepsDown(free, desktop, 30, rung, target)
    else if rung < LOWEST_RUNG then (if free then 1 + StepsDown(free, desktop, fps, rung + 1, target) else 0)
    else if fps > MIN_USABLE_FPS then 1 + StepsDown(free, desktop, MaxInt(MIN_USABLE_FPS, fps / 2), rung, target)
    else 0
  }

  // Steps it will take upwards while `target` leaves the upgrade margin above its rung.
  function StepsUp(free: bool, fps: int, maxFPS: int, rung: nat, target: int): nat
    requires maxFPS <= MAX_FPS
    decreases rung, maxFPS - fps
  {
    if rung == 0 || target as real <= MinBitrate(rung - 1) as real * UPGRADE_MARGIN then 0
    else if fps < maxFPS then 1 + StepsUp(free, Clamp(maxFPS, MIN_USABLE_FPS, MAX_FPS), maxFPS, rung, target)
    else if free then 1 + StepsUp(free, fps, maxFPS, rung - 1, target)
    else 0
  }

  function Work(q: Controller, target: int): nat
    requires q.rung <= LOWEST_RUNG && q.maxFPS <= MAX_FPS
  {
    if LowFor(q, target) then StepsDown(Free(q), q.preset.Desktop?, q.fps, q.rung, target)
    else StepsUp(Free(q), q.fps, q.maxFPS, q.rung, target)
  }

  // Halvings of a frame rate that lead to the least usable one.
  function Halvings(fps: int): nat {
    if fps <= 15 then 0 else if fps <= 31 then 1 else if fps <= 63 then 2 else if fps <= 127 then 3 else 4
  }

  lemma {:induction false} StepsDownBound(free: bool, desktop: bool, fps: int, rung: nat, target: int)
    requires rung <= LOWEST_RUNG && fps <= MAX_FPS
    ensures StepsDown(free, desktop, fps, rung, target) <=
      (LOWEST_RUNG - rung) + if desktop && fps > 30 then 2 else Halvings(fps)
    decreases LOWEST_RUNG - rung, fps
  {
    if target < MinBitrate(rung) {
      if desktop && fps > 30 {
        StepsDownBound(free, desktop, 30, rung, target);
      } else if rung < LOWEST_RUNG {
        StepsDownBound(free, desktop, fps, rung + 1, target);
      } else if fps > MIN_USABLE_FPS {
        StepsDownBound(free, desktop, MaxInt(MIN_USABLE_FPS, fps / 2), rung, target);
      }
    }
  }

  lemma {:induction false} StepsUpBound(free: bool, fps: int, maxFPS: int, rung: nat, target: int)
    requires maxFPS <= MAX_FPS
    ensures StepsUp(free, fps, maxFPS, rung, target) <= rung + if fps < maxFPS then 1 else 0
    decreases rung, maxFPS - fps
  {
    if rung > 0 && target as real > MinBitrate(rung - 1) as real * UPGRADE_MARGIN {
      if fps < maxFPS {
        StepsUpBound(free, Clamp(maxFPS, MIN_USABLE_FPS, MAX_FPS), maxFPS, rung, target);
      } else {
        StepsUpBound(free, fps, maxFPS, rung - 1, target);
      }
    }
  }

  lemma WorkBound(q: Controller, target: int)
    requires Sound(q)
    ensures Work(q, target) <= 9
  {
    StepsDownBound(Free(q), q.preset.Desktop?, q.fps, q.rung, target);
    StepsUpBound(Free(q), q.fps, q.maxFPS, q.rung, target);
  }

  // -------------------------------------------------- one update, constant estimate

  ghost predicate Steady(q: Controller) { Sound(q) && q.adaptive }

  // No viewport comes in that the policy would act on.
  predicate Undisturbed(q: Controller, t: Tick) { q.policy.Fit? ==> t.viewport.None? }

  // The timers of the branch the target points to have run out.
  predicate Due(q: Controller, target: int, now: real) {
    && now - q.lastChange >= RUNG_DWELL
    && if LowFor(q, target) then now - Since(q.lowSince, now) >= DOWNGRADE_AFTER
       else now - Since(q.highSince, now) >= UPGRADE_AFTER
  }

  predicate Changed(q: Controller, r: Controller) {
    q.rung != r.rung || q.fps != r.fps
  }

  // `r` follows `q` by one visible call to the source if something changed, and by none if not.
  ghost predicate OneCallIfChanged(q: Controller, r: Controller) {
    if Changed(q, r) then
      exists c: SourceCall :: (c.SetFrameRate? || c.SetResolution?) && r.calls == q.calls + [c]
    else r.calls == q.calls
  }

  // The way `target` points for the rung of `q`, as the way from `q` to `r`.
  predicate KeepsDirection(q: Controller, r: Controller, target: int) {
    if LowFor(q, target) then q.rung <= r.rung && r.fps <= q.fps && !HighFor(r, target)
    else r.rung <= q.rung && q.fps <= r.fps && !LowFor(r, target)
  }

  predicate SameSettings(q: Controller, r: Controller) {
    && r.preset == q.preset && r.policy == q.policy && r.adaptive == q.adaptive && r.maxFPS == q.maxFPS
    && r.maxBitrate == q.maxBitrate && r.minBitrate == q.minBitrate
  }

  lemma DownStepWorks(q: Controller, target: int, m: Moment)
    requires Steady(q) && LowFor(q, target)
    ensures var r := StepDown(q, m);
      && SameSettings(q, r) && r.bitrate == q.bitrate && Sound(r)
      && KeepsDirection(q, r, target) && OneCallIfChanged(q, r)
      && Changed(q, r) == (Work(q, target) > 0)
      && Work(r, target) == Work(q, target) - if Changed(q, r) then 1 else 0
  {
    DownStepShape(q, target, m);
    hide StepDown, SameSettings, OneCallIfChanged, SizeForRung, StepsUp;
    var r := StepDown(q, m);
    WorkWhenNotHigh(r, target);
    assert Free(r) == Free(q) && r.preset == q.preset by { SettingsOf(q, r); }
    assert q.fps / 2 < q.fps || q.fps <= MIN_USABLE_FPS;
  }

  lemma SettingsOf(q: Controller, r: Controller)
    requires SameSettings(q, r)
    ensures Free(r) == Free(q) && r.preset == q.preset && r.maxFPS == q.maxFPS
  {
  }

  lemma WorkWhenNotHigh(q: Controller, target: int)
    requires Sound(q) && !HighFor(q, target)
    ensures Work(q, target) == StepsDown(Free(q), q.preset.Desktop?, q.fps, q.rung, target)
  {
  }

  // A step down lowers at most one of the two, the desktop's frame rate first; the ladder
  // stands still where the policy holds it.
  lemma DownStepShape(q: Controller, target: int, m: Moment)
    requires Steady(q) && LowFor(q, target)
    ensures var r := StepDown(q, m);
      && SameSettings(q, r) && r.bitrate == q.bitrate && Sound(r)
      && KeepsDirection(q, r, target) && OneCallIfChanged(q, r)
      && (r.rung, r.fps) ==
           if q.preset.Desktop? && q.fps > 30 then (q.rung, 30)
           else if q.rung < LOWEST_RUNG then (if Free(q) then q.rung + 1 else q.rung, q.fps)
           else if q.fps > MIN_USABLE_FPS then (q.rung, MaxInt(MIN_USABLE_FPS, q.fps / 2))
           else (q.rung, q.fps)
  {
    var r := StepDown(q, m);
    if Changed(q, r) {
      assert r.calls == q.calls + [r.calls[|q.calls|]];
    }
  }

  lemma UpStepWorks(q: Controller, target: int, m: Moment)
    requires Steady(q) && HighFor(q, target)
    ensures var r := StepUp(q, m);
      && SameSettings(q, r) && r.bitrate == q.bitrate && Sound(r)
      && KeepsDirection(q, r, target) && OneCallIfChanged(q, r)
      && Changed(q, r) == (Work(q, target) > 0)
      && Work(r, target) == Work(q, target) - if Changed(q, r) then 1 else 0
  {
    var r := StepUp(q, m);
    if Changed(q, r) {
      assert r.calls == q.calls + [r.calls[|q.calls|]];
    }
  }

  lemma AdaptWorks(q: Controller, target: int, m: Moment)
    requires Steady(q)
    ensures var r := Adapt(q, target, m);
      && SameSettings(q, r) && r.bitrate == q.bitrate && Sound(r)
      && KeepsDirection(q, r, target) && OneCallIfChanged(q, r)
      && (Changed(q, r) <==> Work(q, target) > 0 && Due(q, target, m.now))
      && Work(r, target) == Work(q, target) - if Changed(q, r) then 1 else 0
  {
    hide StepDown, StepUp;
    if LowFor(q, target) {
      var noted := q.(highSince := None, lowSince := Some(Since(q.lowSince, m.now)));
      DownStepWorks(noted, target, m);
    } else if HighFor(q, target) {
      var noted := q.(lowSince := None, highSince := Some(Since(q.highSince, m.now)));
      UpStepWorks(noted, target, m);
    }
  }

  lemma TrackingKeepsWork(q: Controller, target: int, now: real)
    requires Steady(q)
    ensures var a := TrackBitrate(q, target);
      && Steady(a) && SameSettings(q, a) && a.rung == q.rung && a.fps == q.fps
      && Work(a, target) == Work(q, target) && Due(a, target, now) == Due(q, target, now)
      && Changes(a.calls) == Changes(q.calls)
  {
    hide StepsDown, StepsUp, Changes, BitrateCalls, Quotient;
    CallsGrow(q.calls, SetBitrate(target));
  }

  // What one update does to a steady controller.  It changes something exactly when
  // there is work left and the timers are due, and then the work shrinks by one.
  lemma SteadyTick(q: Controller, t: Tick)
    requires Steady(q) && 0 < t.estimate && Undisturbed(q, t)
    ensures var target := Target(q, t.estimate); var r := Ticked(q, t);
      && Steady(r) && SameSettings(q, r) && KeepsDirection(q, r, target)
      && (Changed(q, r) <==> Work(q, target) > 0 && Due(q, target, t.moment.now))
      && Work(r, target) == Work(q, target) - (if Changed(q, r) then 1 else 0)
      && Changes(r.calls) == Changes(q.calls) + (if Changed(q, r) then 1 else 0)
      && r.bitrate == TrackBitrate(q, target).bitrate
      && BitrateCalls(r.calls) == BitrateCalls(TrackBitrate(q, target).calls)
  {
    var target := Target(q, t.estimate);
    var a := TrackBitrate(q, target);
    var r := Ticked(q, t);
    assert r == Adapt(a, target, t.moment) by { hide Adapt, TrackBitrate; }
    TrackingKeepsWork(q, target, t.moment.now);
    hide Adapt, TrackBitrate, Ticked, Work, Due, Changes, BitrateCalls, Target;
    AdaptWorks(a, target, t.moment);
    if Changed(a, r) {
      var c: SourceCall :| (c.SetFrameRate? || c.SetResolution?) && r.calls == a.calls + [c];
      CallsGrow(a.calls, c);
    }
  }

  // The controller once a viewport has been considered.
  function Seen(q: Controller, t: Tick): Controller {
    if t.viewport.Some? then WithViewport(q, t.viewport.value, t.moment) else q
  }

  // A viewport moves neither rung nor frame rate, and the rest of the update is one without it.
  lemma ViewportAside(q: Controller, t: Tick)
    requires Steady(q)
    ensures var p := Seen(q, t);
      && Steady(p) && SameSettings(q, p) && p.rung == q.rung && p.fps == q.fps && p.native == q.native
      && p.bitrate == q.bitrate && BitrateCalls(p.calls) == BitrateCalls(q.calls)
      && (forall target :: Work(p, target) == Work(q, target))
      && (Undisturbed(q, t) ==> p == q)
      && Ticked(q, t) == Ticked(p, t.(viewport := None))
  {
    hide StepsDown, StepsUp, Adapt, TrackBitrate, RoundTo16;
    var p := Seen(q, t);
    if p.calls != q.calls {
      var c := p.calls[|q.calls|];
      assert p.calls == q.calls + [c];
      CallsGrow(q.calls, c);
    }
  }

  // What one update does whatever the policy and whatever viewport comes with it.
  lemma AnyTick(q: Controller, t: Tick)
    requires Steady(q) && 0 < t.estimate
    ensures var target := Target(q, t.estimate); var r := Ticked(q, t);
      && Steady(r) && SameSettings(q, r) && KeepsDirection(q, r, target)
      && (Changed(q, r) ==> Work(q, target) > 0)
      && Work(r, target) == Work(q, target) - (if Changed(q, r) then 1 else 0)
      && r.bitrate == TrackBitrate(q, target).bitrate
      && BitrateCalls(r.calls) == BitrateCalls(TrackBitrate(q, target).calls)
  {
    ViewportAside(q, t);
    var p := Seen(q, t);
    SteadyTick(p, t.(viewport := None));
    BitrateAside(q, p, Target(q, t.estimate));
    hide Ticked, Seen, Work, TrackBitrate, BitrateCalls, Due;
  }

  lemma BitrateAside(q: Controller, p: Controller, target: int)
    requires p.bitrate == q.bitrate && BitrateCalls(p.calls) == BitrateCalls(q.calls)
    ensures TrackBitrate(p, target).bitrate == TrackBitrate(q, target).bitrate
    ensures BitrateCalls(TrackBitrate(p, target).calls) == BitrateCalls(TrackBitrate(q, target).calls)
  {
    CallsGrow(p.calls, SetBitrate(target));
    CallsGrow(q.calls, SetBitrate(target));
  }

  lemma CallsGrow(calls: seq<SourceCall>, c: SourceCall)
    ensures Changes(calls + [c]) == Changes(calls) + if c.SetFrameRate? || c.SetResolution? then 1 else 0
    ensures BitrateCalls(calls + [c]) == BitrateCalls(calls) + if c.SetBitrate? then 1 else 0
  {
    assert (calls + [c])[..|calls|] == calls;
  }

  // ------------------------------------------------------------------ no oscillation

  // The updates of a run that moved the rung or the frame rate.
  function Moves(q: Controller, run: seq<Tick>): nat {
    if run == [] then 0
    else
      Moves(q, run[..|run| - 1]) + if Changed(After(q, run[..|run| - 1]), After(q, run)) then 1 else 0
  }

  // Under a constant estimate, from any sound state, under every policy, with whatever viewports,
  // at whatever instants and whatever the source accepts: the rung and the frame rate move one
  // way only, every move is paid for out of at most nine, and the bitrate is set at most once.
  lemma {:induction false} NoOscillation(q: Controller, run: seq<Tick>, estimate: int)
    requires Steady(q) && 0 < estimate && forall t <- run :: t.estimate == estimate
    ensures var target := Target(q, estimate); var r := After(q, run);
      && Steady(r) && SameSettings(q, r) && KeepsDirection(q, r, target)
      && (LowFor(q, target) || HighFor(q, target) || (r.rung == q.rung && r.fps == q.fps))
      && Moves(q, run) + Work(r, target) == Work(q, target) <= 9
      && (|| (r.bitrate == q.bitrate && BitrateCalls(r.calls) == BitrateCalls(q.calls))
          || (r.bitrate == target && BitrateCalls(r.calls) == BitrateCalls(q.calls) + 1))
  {
    var target := Target(q, estimate);
    WorkBound(q, target);
    if run != [] {
      var before := run[..|run| - 1];
      var p := After(q, before);
      NoOscillation(q, before, estimate);
      AnyTick(p, run[|run| - 1]);
      hide Ticked, Work, BitrateCalls, Sound;
    }
  }

  // And where no viewport disturbs, every move is one call for a size or a frame rate, and there
  // are no others.
  lemma {:induction false} MovesAreCalls(q: Controller, run: seq<Tick>, estimate: int)
    requires Steady(q) && 0 < estimate && forall t <- run :: t.estimate == estimate && Undisturbed(q, t)
    ensures Changes(After(q, run).calls) == Changes(q.calls) + Moves(q, run)
  {
    if run != [] {
      var n := |run| - 1;
      var p := After(q, run[..n]);
      assert run[n] in run && forall t <- run[..n] :: t in run;
      MovesAreCalls(q, run[..n], estimate);
      NoOscillation(q, run[..n], estimate);
      SteadyTick(p, run[n]);
    }
  }

  // Nothing left to change, and the bitrate close enough to the target.
  predicate Quiet(q: Controller, target: int)
    requires Sound(q)
  {
    Work(q, target) == 0 && TrackBitrate(q, target) == q
  }

  // Once its work is done the controller says nothing more to the source, ever.
  lemma {:induction false} SettledStaysQuiet(q: Controller, run: seq<Tick>, estimate: int)
    requires Steady(q) && 0 < estimate && forall t <- run :: t.estimate == estimate && Undisturbed(q, t)
    requires Quiet(q, Target(q, estimate))
    ensures After(q, run).calls == q.calls && After(q, run).rung == q.rung && After(q, run).fps == q.fps
    ensures Steady(After(q, run)) && SameSettings(q, After(q, run)) && Quiet(After(q, run), Target(q, estimate))
  {
    if run != [] {
      var p := After(q, run[..|run| - 1]);
      assert run[|run| - 1] in run;
      SettledStaysQuiet(q, run[..|run| - 1], estimate);
      SteadyTick(p, run[|run| - 1]);
      AdaptWorks(p, Target(q, estimate), run[|run| - 1].moment);
    }
  }

  // After one update the bitrate needs no further call, so a run that has used up its
  // work has made its last call.
  lemma DoneIsQuiet(q: Controller, run: seq<Tick>, estimate: int)
    requires Steady(q) && 0 < estimate && run != []
    requires forall t <- run :: t.estimate == estimate && Undisturbed(q, t)
    requires var r := After(q, run); Changes(r.calls) == Changes(q.calls) + Work(q, Target(q, estimate))
    ensures Steady(After(q, run)) && Quiet(After(q, run), Target(q, estimate))
  {
    var target := Target(q, estimate);
    NoOscillation(q, run, estimate);
    NoOscillation(q, run[..|run| - 1], estimate);
    MovesAreCalls(q, run, estimate);
    var p := After(q, run[..|run| - 1]);
    assert run[|run| - 1] in run;
    SteadyTick(p, run[|run| - 1]);
    ClosestSettles(p, After(q, run), target);
    hide Ticked, Work, TrackBitrate, Changes, BitrateCalls, Due, KeepsDirection, Moves;
  }

  // A bitrate that has followed its target needs no further call.
  lemma ClosestSettles(p: Controller, r: Controller, target: int)
    requires r.bitrate == TrackBitrate(p, target).bitrate && 0 <= target
    ensures TrackBitrate(r, target) == r
  {
  }

  // ----------------------------------------------------------------------- progress

  // Every mark the controller keeps lies in the past.
  predicate MarkedBy(q: Controller, now: real) {
    && q.lastChange <= now
    && (q.lowSince.Some? ==> q.lowSince.value <= now)
    && (q.highSince.Some? ==> q.highSince.value <= now)
  }

  predicate Instants(run: seq<Tick>) {
    forall i, j | 0 <= i < j < |run| :: run[i].moment.now <= run[j].moment.now
  }

  // The mark of the branch the target points to was set by `start` at the latest.
  predicate MarkedSince(q: Controller, target: int, start: real) {
    && q.lastChange <= start
    && if LowFor(q, target) then q.lowSince.Some? && q.lowSince.value <= start
       else q.highSince.Some? && q.highSince.value <= start
  }

  // An update that changes nothing although there is work only keeps the mark.
  lemma WaitingKeepsMark(q: Controller, t: Tick, start: real)
    requires Steady(q) && 0 < t.estimate && Undisturbed(q, t) && Work(q, Target(q, t.estimate)) > 0
    requires MarkedSince(q, Target(q, t.estimate), start) || (MarkedBy(q, start) && t.moment.now == start)
    requires !Changed(q, Ticked(q, t))
    ensures MarkedSince(Ticked(q, t), Target(q, t.estimate), start)
  {
    var target := Target(q, t.estimate);
    assert !Due(q, target, t.moment.now) by { SteadyTick(q, t); }
    hide StepDown, StepUp, StepsDown, StepsUp;
    var a := TrackBitrate(q, target);
    assert Ticked(q, t) == Adapt(a, target, t.moment);
  }

  ghost predicate ConstantRun(q: Controller, run: seq<Tick>, estimate: int) {
    && run != [] && Instants(run) && MarkedBy(q, run[0].moment.now)
    && forall t <- run :: t.estimate == estimate && Undisturbed(q, t)
  }

  lemma ConstantBefore(q: Controller, run: seq<Tick>, estimate: int)
    requires ConstantRun(q, run, estimate) && |run| > 1
    ensures ConstantRun(q, run[..|run| - 1], estimate)
  {
  }

  // Work left at the end of a run without a move has been marked since its start.
  lemma {:induction false} MarksPersist(q: Controller, run: seq<Tick>, estimate: int)
    requires Steady(q) && 0 < estimate && ConstantRun(q, run, estimate)
    requires Work(q, Target(q, estimate)) > 0 && Moves(q, run) == 0
    ensures MarkedSince(After(q, run), Target(q, estimate), run[0].moment.now)
  {
    hide Work, Ticked, MarkedSince, MarkedBy;
    var before := run[..|run| - 1];
    var p := After(q, before);
    assert run[|run| - 1] in run;
    NoOscillation(q, before, estimate);
    NoOscillation(q, run, estimate);
    if before != [] {
      ConstantBefore(q, run, estimate);
      MarksPersist(q, before, estimate);
    }
    WaitingKeepsMark(p, run[|run| - 1], run[0].moment.now);
  }

  lemma WorkHasASide(q: Controller, target: int)
    requires Sound(q) && Work(q, target) > 0
    ensures LowFor(q, target) || HighFor(q, target)
  {
  }

  // Six seconds of updates get at least one piece of the work done, downwards four.
  lemma ProgressInSixSeconds(q: Controller, run: seq<Tick>, estimate: int)
    requires Steady(q) && 0 < estimate && ConstantRun(q, run, estimate)
    requires run[|run| - 1].moment.now - run[0].moment.now >= if LowFor(q, Target(q, estimate)) then 4.0 else 6.0
    requires Work(q, Target(q, estimate)) > 0
    ensures Moves(q, run) > 0
  {
    hide Work, Ticked, MarkedBy, BitrateCalls, Changes, TrackBitrate, Clamp, MinBitrate;
    var before := run[..|run| - 1];
    var p := After(q, before);
    assert run[|run| - 1] in run;
    NoOscillation(q, before, estimate);
    if Moves(q, before) == 0 {
      SteadyTick(p, run[|run| - 1]);
      WorkHasASide(p, Target(q, estimate));
      MarkedBefore(q, run, estimate);
    }
  }

  lemma MarkedBefore(q: Controller, run: seq<Tick>, estimate: int)
    requires Steady(q) && 0 < estimate && ConstantRun(q, run, estimate)
    requires Work(q, Target(q, estimate)) > 0 && Moves(q, run[..|run| - 1]) == 0
    ensures var p := After(q, run[..|run| - 1]); var start := run[0].moment.now;
      if |run| == 1 then p == q && MarkedBy(q, start) else MarkedSince(p, Target(q, estimate), start)
  {
    hide Work, MarkedSince, MarkedBy, Target;
    if |run| > 1 {
      ConstantBefore(q, run, estimate);
      MarksPersist(q, run[..|run| - 1], estimate);
    }
  }

  // The viewport wants a size other than the one there is, and the source takes it.
  predicate Mismatched(q: Controller, t: Tick) {
    && t.viewport.Some? && t.viewport.value.width > 0 && t.viewport.value.height > 0
    && t.moment.acceptsSize
    && t.moment.reported != Size(RoundTo16(MinInt(t.viewport.value.width, q.native.width)),
                                 RoundTo16(MinInt(t.viewport.value.height, q.native.height)))
  }

  // Under the policy that matches the viewport no time is promised: while the size there is never
  // is the one it wants, each change restarts the dwell and the ladder never has its turn.
  lemma {:induction false} ViewportStarvesLadder(q: Controller, run: seq<Tick>)
    requires q.policy.Fit? && forall t <- run :: Mismatched(q, t)
    ensures var r := After(q, run);
      r.rung == q.rung && r.fps == q.fps && r.policy == q.policy && r.native == q.native
  {
    hide Ticked, Mismatched;
    if run != [] {
      var n := |run| - 1;
      assert run[n] in run && forall t <- run[..n] :: t in run;
      ViewportStarvesLadder(q, run[..n]);
      MismatchedTick(After(q, run[..n]), run[n]) by { SameMismatch(q, After(q, run[..n]), run[n]); }
    }
  }

  lemma SameMismatch(q: Controller, p: Controller, t: Tick)
    requires Mismatched(q, t) && p.native == q.native
    ensures Mismatched(p, t)
  {
  }

  lemma MismatchedTick(q: Controller, t: Tick)
    requires q.policy.Fit? && Mismatched(q, t)
    ensures var r := Ticked(q, t);
      r.rung == q.rung && r.fps == q.fps && r.policy == q.policy && r.native == q.native
  {
    hide RoundTo16, StepDown, StepUp;
  }

  // ------------------------------------------------------------ a lowered frame rate

  // What the maximum comes to: the source is asked for no fewer than fifteen frames.
  function FullRate(q: Controller): int { MaxInt(q.maxFPS, MIN_USABLE_FPS) }

  // Away from low targets an update leaves the frame rate or sets it to its maximum, and when it
  // moves at all with a lowered rate, that is what it does.
  lemma UpTickSetsRate(q: Controller, t: Tick)
    requires Steady(q) && 0 < t.estimate && !LowFor(q, Target(q, t.estimate))
    ensures var r := Ticked(q, t);
      && (r.fps == q.fps || r.fps == FullRate(q)) && r.maxFPS == q.maxFPS
      && (q.fps < q.maxFPS && Changed(q, r) ==> r.fps == FullRate(q))
      && (q.fps == FullRate(q) ==> r.fps == FullRate(q))
  {
    ViewportAside(q, t);
    var p := Seen(q, t);
    var target := Target(q, t.estimate);
    assert Target(p, t.estimate) == target;
    var a := TrackBitrate(p, target);
    assert Ticked(p, t.(viewport := None)) == Adapt(a, target, t.moment) by { hide Adapt, TrackBitrate; }
  }

  lemma {:induction false} ClimbSetsRate(q: Controller, run: seq<Tick>, estimate: int)
    requires Steady(q) && 0 < estimate && forall t <- run :: t.estimate == estimate
    requires q.fps < q.maxFPS && HighFor(q, Target(q, estimate))
    ensures After(q, run).fps == if Moves(q, run) == 0 then q.fps else FullRate(q)
  {
    hide Ticked;
    if run != [] {
      var n := |run| - 1;
      assert run[n] in run && forall t <- run[..n] :: t in run;
      ClimbSetsRate(q, run[..n], estimate);
      NoOscillation(q, run[..n], estimate);
      UpTickSetsRate(After(q, run[..n]), run[n]);
    }
  }

  // Six seconds of a constant estimate restore a lowered frame rate exactly if the rung the
  // controller is on takes the upgrade branch.
  lemma RestoredExactly(q: Controller, run: seq<Tick>, estimate: int)
    requires Steady(q) && 0 < estimate && ConstantRun(q, run, estimate)
    requires run[|run| - 1].moment.now - run[0].moment.now >= UPGRADE_AFTER
    requires q.fps < q.maxFPS
    ensures After(q, run).fps == FullRate(q) <==> HighFor(q, Target(q, estimate))
  {
    hide After;
    var target := Target(q, estimate);
    NoOscillation(q, run, estimate);
    if HighFor(q, target) {
      assert Work(q, target) > 0;
      ProgressInSixSeconds(q, run, estimate);
      ClimbSetsRate(q, run, estimate);
    }
  }

  // However good the estimate, that is exactly off the top rung.
  lemma RestoredOffTheTop(q: Controller, run: seq<Tick>, estimate: int)
    requires Steady(q) && 0 < estimate && ConstantRun(q, run, estimate)
    requires run[|run| - 1].moment.now - run[0].moment.now >= UPGRADE_AFTER
    requires q.fps < q.maxFPS
    requires Target(q, estimate) as real > MinBitrate(0) as real * UPGRADE_MARGIN
    ensures After(q, run).fps == FullRate(q) <==> q.rung > 0
  {
    hide After;
    RestoredExactly(q, run, estimate);
  }

  // A desktop session as it starts, on a link worth eight megabits per second.
  const DESKTOP := Controller(Desktop, Auto, true, 60, 20_000_000, 600_000, Size(0, 0), Size(1920, 1080),
                              8_000_000, 60, 0, 0.0, None, None, [])

  function PlainTick(estimate: int, now: real): Tick {
    Tick(estimate, None, Moment(now, Size(1920, 1080), true, true))
  }

  // Two updates take it to thirty frames on the top rung, where it stays through any later
  // estimates above what the top rung needs.
  lemma LoweredForGood(later: seq<Tick>)
    requires forall t <- later :: Target(DESKTOP, t.estimate) >= MinBitrate(0)
    ensures var q := After(DESKTOP, [PlainTick(8_000_000, 4.0), PlainTick(8_000_000, 6.0)]);
      && Steady(q) && MarkedBy(q, 6.0) && q.rung == 0 && q.fps == 30 < q.maxFPS == 60
      && After(q, later).fps == 30 && After(q, later).rung == 0
  {
    var one, two := PlainTick(8_000_000, 4.0), PlainTick(8_000_000, 6.0);
    var run := [one, two];
    assert run[..1] == [one] && [one][..0] == [];
    assert After(DESKTOP, [one]) == Ticked(After(DESKTOP, []), one) && After(DESKTOP, []) == DESKTOP;
    var a, b := Ticked(DESKTOP, one), After(DESKTOP, run);
    assert a == DESKTOP.(lowSince := Some(4.0));
    assert b == Ticked(a, two);
    assert b == DESKTOP.(fps := 30, lastChange := 6.0, calls := [SetFrameRate(30)]);
    TopRungKeepsFrameRate(b, later);
  }

  // ----------------------------------------------------------------------- timing

  // A frame rate, or a size the source accepted.
  predicate Effective(c: SourceCall) {
    c.SetFrameRate? || (c.SetResolution? && c.accepted)
  }

  function EffectiveCalls(calls: seq<SourceCall>): nat {
    if calls == [] then 0
    else EffectiveCalls(calls[..|calls| - 1]) + if Effective(calls[|calls| - 1]) then 1 else 0
  }

  lemma EffectiveGrows(calls: seq<SourceCall>, c: SourceCall)
    ensures EffectiveCalls(calls + [c]) == EffectiveCalls(calls) + if Effective(c) then 1 else 0
  {
    assert (calls + [c])[..|calls|] == calls;
  }

  predicate TookEffect(q: Controller, r: Controller) {
    q.rung != r.rung || EffectiveCalls(r.calls) > EffectiveCalls(q.calls)
  }

  // At most one change takes effect; it had to wait for the dwell time and restarts it.
  ghost predicate Paced(q: Controller, r: Controller, now: real) {
    && EffectiveCalls(q.calls) <= EffectiveCalls(r.calls) <= EffectiveCalls(q.calls) + 1
    && (if TookEffect(q, r) then now - q.lastChange >= RUNG_DWELL && r.lastChange == now
        else r.lastChange == q.lastChange || r.lastChange == now)
  }

  // One step makes at most one call, and restarts the clock if it makes any.
  ghost predicate OneStep(q: Controller, r: Controller, now: real) {
    if r.calls == q.calls then r.rung == q.rung && (r.lastChange == q.lastChange || r.lastChange == now)
    else |r.calls| == |q.calls| + 1 && r.calls[..|q.calls|] == q.calls && r.lastChange == now
  }

  lemma StepDownIsOne(q: Controller, m: Moment)
    requires Sound(q)
    ensures OneStep(q, StepDown(q, m), m.now)
  {
    hide Clamp, SizeForRung;
    ClampStays();
  }

  lemma StepUpIsOne(q: Controller, m: Moment)
    requires Sound(q)
    ensures OneStep(q, StepUp(q, m), m.now)
  {
    hide Clamp, SizeForRung;
    ClampStays();
  }

  lemma OneStepIsPaced(q: Controller, r: Controller, now: real)
    requires OneStep(q, r, now) && now - q.lastChange >= RUNG_DWELL
    ensures Paced(q, r, now)
  {
    if r.calls != q.calls {
      EffectiveGrows(q.calls, r.calls[|q.calls|]);
      assert r.calls == q.calls + [r.calls[|q.calls|]];
    }
  }

  lemma AdaptIsPaced(q: Controller, target: int, m: Moment)
    requires Sound(q)
    ensures Paced(q, Adapt(q, target, m), m.now)
    ensures m.now - q.lastChange < RUNG_DWELL ==>
      Adapt(q, target, m).rung == q.rung && Adapt(q, target, m).calls == q.calls
  {
    hide StepDown, StepUp, EffectiveCalls;
    var r := Adapt(q, target, m);
    var low := q.(highSince := None, lowSince := Some(Since(q.lowSince, m.now)));
    var high := q.(lowSince := None, highSince := Some(Since(q.highSince, m.now)));
    StepDownIsOne(low, m);
    StepUpIsOne(high, m);
    if m.now - q.lastChange >= RUNG_DWELL {
      OneStepIsPaced(q, r, m.now);
    }
  }

  lemma ViewportIsPaced(q: Controller, viewport: Size, m: Moment)
    ensures var r := WithViewport(q, viewport, m);
      Paced(q, r, m.now) && r.rung == q.rung && (Sound(q) ==> Sound(r))
  {
    var r := WithViewport(q, viewport, m);
    if r.calls != q.calls {
      assert r.calls == q.calls + [r.calls[|q.calls|]];
      EffectiveGrows(q.calls, r.calls[|q.calls|]);
    }
  }

  lemma TickIsPaced(q: Controller, t: Tick)
    requires Sound(q)
    ensures Paced(q, Ticked(q, t), t.moment.now)
  {
    hide Adapt, WithViewport, EffectiveCalls;
    var m := t.moment;
    var seen := if t.viewport.Some? then WithViewport(q, t.viewport.value, m) else q;
    if t.viewport.Some? {
      ViewportIsPaced(q, t.viewport.value, m);
    }
    if seen.adaptive && t.estimate > 0 {
      var target := Target(seen, t.estimate);
      EffectiveGrows(seen.calls, SetBitrate(target));
      AdaptIsPaced(TrackBitrate(seen, target), target, m);
    }
  }

  function Before(q: Controller, run: seq<Tick>, i: nat): Controller
    requires i <= |run|
  {
    After(q, run[..i])
  }

  lemma BeforeNext(q: Controller, run: seq<Tick>, i: nat)
    requires i < |run|
    ensures Before(q, run, i + 1) == Ticked(Before(q, run, i), run[i])
  {
    assert run[..i + 1][..i] == run[..i];
  }

  lemma {:induction false} AlwaysSound(q: Controller, run: seq<Tick>, i: nat)
    requires Sound(q) && i <= |run|
    ensures Sound(Before(q, run, i))
  {
    if i > 0 {
      AlwaysSound(q, run, i - 1);
      BeforeNext(q, run, i - 1);
      UpdateIsSound(Before(q, run, i - 1), run[i - 1]);
    }
  }

  lemma {:induction false} EffectIsRemembered(q: Controller, run: seq<Tick>, i: nat, n: nat)
    requires Sound(q) && Instants(run) && i < n <= |run| && TookEffect(Before(q, run, i), Before(q, run, i + 1))
    ensures Before(q, run, n).lastChange >= run[i].moment.now
  {
    hide Before, Ticked, Sound, TookEffect, EffectiveCalls;
    AlwaysSound(q, run, n - 1);
    BeforeNext(q, run, n - 1);
    TickIsPaced(Before(q, run, n - 1), run[n - 1]);
    if i < n - 1 {
      EffectIsRemembered(q, run, i, n - 1);
    }
  }

  // Two changes that take effect are at least four seconds apart, in any run of updates,
  // whatever the estimates, the viewports and the source's answers.
  lemma EffectsAreSpaced(q: Controller, run: seq<Tick>, i: nat, j: nat)
    requires Sound(q) && Instants(run) && i < j < |run|
    requires TookEffect(Before(q, run, i), Before(q, run, i + 1))
    requires TookEffect(Before(q, run, j), Before(q, run, j + 1))
    ensures run[j].moment.now - run[i].moment.now >= RUNG_DWELL
  {
    EffectIsRemembered(q, run, i, j);
    AlwaysSound(q, run, j);
    BeforeNext(q, run, j);
    TickIsPaced(Before(q, run, j), run[j]);
  }

  // -------------------------------------------------------------- persistent conditions

  predicate Driven(q: Controller, t: Tick) { q.adaptive && t.estimate > 0 }

  predicate TookLow(q: Controller, t: Tick) {
    Driven(q, t) && LowFor(q, Target(q, t.estimate))
  }

  predicate TookHigh(q: Controller, t: Tick) {
    Driven(q, t) && !LowFor(q, Target(q, t.estimate)) && HighFor(q, Target(q, t.estimate))
  }

  predicate Lowered(q: Controller, r: Controller) { r.rung > q.rung || r.fps < q.fps }

  predicate Raised(q: Controller, r: Controller) { r.rung < q.rung || r.fps > q.fps }

  lemma TickMarks(q: Controller, t: Tick)
    requires Sound(q)
    ensures var r := Ticked(q, t); var now := t.moment.now;
      if TookLow(q, t) then
        && r.highSince.None? && (r.lowSince.Some? ==> r.lowSince.value == Since(q.lowSince, now))
        && !Raised(q, r) && (Lowered(q, r) ==> now - Since(q.lowSince, now) >= DOWNGRADE_AFTER)
      else if TookHigh(q, t) then
        && r.lowSince.None? && (r.highSince.Some? ==> r.highSince.value == Since(q.highSince, now))
        && !Lowered(q, r) && (Raised(q, r) ==> now - Since(q.highSince, now) >= UPGRADE_AFTER)
      else
        && !Raised(q, r) && !Lowered(q, r)
        && (if Driven(q, t) then r.lowSince.None? && r.highSince.None?
            else r.lowSince == q.lowSince && r.highSince == q.highSince)
  {
    hide Adapt;
    var seen := if t.viewport.Some? then WithViewport(q, t.viewport.value, t.moment) else q;
    if Driven(q, t) {
      var target := Target(seen, t.estimate);
      AdaptMarks(TrackBitrate(seen, target), target, t.moment);
    }
  }

  lemma AdaptMarks(q: Controller, target: int, m: Moment)
    requires Sound(q)
    ensures var r := Adapt(q, target, m);
      if LowFor(q, target) then
        && r.highSince.None? && (r.lowSince.Some? ==> r.lowSince.value == Since(q.lowSince, m.now))
        && !Raised(q, r) && (Lowered(q, r) ==> m.now - Since(q.lowSince, m.now) >= DOWNGRADE_AFTER)
      else if HighFor(q, target) then
        && r.lowSince.None? && (r.highSince.Some? ==> r.highSince.value == Since(q.highSince, m.now))
        && !Lowered(q, r) && (Raised(q, r) ==> m.now - Since(q.highSince, m.now) >= UPGRADE_AFTER)
      else !Raised(q, r) && !Lowered(q, r) && r.lowSince.None? && r.highSince.None?
  {
    hide Clamp;
    ClampStays();
  }

  lemma {:induction false} MarksMeanBranches(q: Controller, run: seq<Tick>, n: nat, i: nat)
    requires Sound(q) && Instants(run) && i < n <= |run| && Driven(Before(q, run, i), run[i])
    ensures var r := Before(q, run, n);
      && (r.lowSince.Some? && r.lowSince.value < run[i].moment.now ==> TookLow(Before(q, run, i), run[i]))
      && (r.highSince.Some? && r.highSince.value < run[i].moment.now ==> TookHigh(Before(q, run, i), run[i]))
  {
    hide TookLow, TookHigh, Ticked, Before, Sound;
    AlwaysSound(q, run, n - 1);
    BeforeNext(q, run, n - 1);
    TickMarks(Before(q, run, n - 1), run[n - 1]);
    TakesOneBranch(Before(q, run, n - 1), run[n - 1]);
    if i < n - 1 {
      MarksMeanBranches(q, run, n - 1, i);
    }
  }

  lemma TakesOneBranch(q: Controller, t: Tick)
    ensures !(TookLow(q, t) && TookHigh(q, t)) && (TookLow(q, t) || TookHigh(q, t) ==> Driven(q, t))
  {
  }

  // Quality goes down only if every update of the last 1.5 s that had an estimate found
  // it too low, and up only if every one of the last 6 s found it high enough.
  lemma StepsNeedPersistence(q: Controller, run: seq<Tick>, j: nat, i: nat)
    requires Sound(q) && Instants(run) && i <= j < |run| && Driven(Before(q, run, i), run[i])
    ensures Lowered(Before(q, run, j), Before(q, run, j + 1)) ==>
      run[i].moment.now > run[j].moment.now - DOWNGRADE_AFTER ==> TookLow(Before(q, run, i), run[i])
    ensures Raised(Before(q, run, j), Before(q, run, j + 1)) ==>
      run[i].moment.now > run[j].moment.now - UPGRADE_AFTER ==> TookHigh(Before(q, run, i), run[i])
  {
    hide TookLow, TookHigh, Ticked, Before, Sound;
    AlwaysSound(q, run, j);
    BeforeNext(q, run, j);
    TickMarks(Before(q, run, j), run[j]);
    if i < j {
      MarksMeanBranches(q, run, j, i);
    }
  }

  // ------------------------------------------------------- where the claim stops

  // The sizes the source accepted.
  function Sizes(calls: seq<SourceCall>): seq<Size> {
    if calls == [] then []
    else
      var c := calls[|calls| - 1];
      Sizes(calls[..|calls| - 1]) + if c.SetResolution? && c.accepted then [c.size] else []
  }

  // The calls a stretch of updates added.
  function Added(q: Controller, r: Controller): seq<SourceCall> {
    if |q.calls| <= |r.calls| then r.calls[|q.calls|..] else []
  }

  predicate NoLarger(a: Size, b: Size) { a.width <= b.width && a.height <= b.height }

  ghost predicate Shrinking(s: seq<Size>) { forall i, j | 0 <= i < j < |s| :: NoLarger(s[j], s[i]) }

  ghost predicate Growing(s: seq<Size>) { forall i, j | 0 <= i < j < |s| :: NoLarger(s[i], s[j]) }

  // Widths that never turn.
  ghost predicate OneWay(s: seq<Size>) {
    || (forall i, j | 0 <= i < j < |s| :: s[j].width <= s[i].width)
    || (forall i, j | 0 <= i < j < |s| :: s[i].width <= s[j].width)
  }

  lemma RoundingGrows(a: real, b: real, floor: int)
    requires 0.0 <= a <= b || (a <= 0.0 && b <= 0.0)
    requires floor >= 180
    ensures MaxInt(RoundTo16(Truncate(a)), floor) <= MaxInt(RoundTo16(Truncate(b)), floor)
  {
    if a <= 0.0 && b <= 0.0 {
      SmallRounds(a);
      SmallRounds(b);
    } else {
      assert 0 <= Truncate(a) <= Truncate(b);
    }
  }

  lemma SmallRounds(a: real)
    requires a <= 0.0
    ensures RoundTo16(Truncate(a)) <= 16
  {
    assert Truncate(a) <= 0;
  }

  // A rung further down is no larger on either side, screens turned inside out included.
  lemma NextRungSmaller(n: int, i: nat, least: int)
    requires i < LOWEST_RUNG && least >= 180
    ensures Side(n, i + 1, least) <= Side(n, i, least)
  {
    hide RoundTo16, Truncate, MaxInt;
    var x := n as real;
    if i == 0 {
      RoundingGrows(x * 0.75, x * 1.0, least);
    } else if i == 1 {
      RoundingGrows(x * 0.60, x * 0.75, least);
    } else if i == 2 {
      RoundingGrows(x * 0.50, x * 0.60, least);
    } else if i == 3 {
      RoundingGrows(x * 0.375, x * 0.50, least);
    } else {
      RoundingGrows(x * 0.30, x * 0.375, least);
    }
  }

  lemma {:induction false} HigherRungSmaller(q: Controller, i: nat, j: nat)
    requires i <= j <= LOWEST_RUNG
    ensures NoLarger(SizeForRung(q, j), SizeForRung(q, i))
    decreases j
  {
    hide Side;
    if i < j {
      HigherRungSmaller(q, i, j - 1);
      NextRungSmaller(q.native.width, j - 1, 320);
      NextRungSmaller(q.native.height, j - 1, 180);
    }
  }

  // `r` adds to `q` at most one size, that of its new rung.
  ghost predicate AddsRungSize(q: Controller, r: Controller) {
    && r.native == q.native && |q.calls| <= |r.calls| && r.calls[..|q.calls|] == q.calls
    && (Sizes(Added(q, r)) == [] || (r.rung != q.rung && Sizes(Added(q, r)) == [SizeForRung(q, r.rung)]))
  }

  // What an update without a disturbing viewport adds: at most one size, that of the new rung.
  lemma TickSizes(q: Controller, t: Tick)
    requires Steady(q) && 0 < t.estimate && Undisturbed(q, t)
    ensures AddsRungSize(q, Ticked(q, t))
  {
    var target := Target(q, t.estimate);
    var a := TrackBitrate(q, target);
    assert Ticked(q, t) == Adapt(a, target, t.moment) by { hide Adapt, TrackBitrate; }
    AdaptSizes(a, target, t.moment);
    hide Adapt, Ticked, AddsRungSize;
    if a.calls == q.calls {
      AlikeAdds(q, a, Adapt(a, target, t.moment), Adapt(a, target, t.moment));
    } else {
      AfterBitrate(q, a, SetBitrate(target), Adapt(a, target, t.moment));
    }
  }

  // A call for a bitrate before it changes nothing about sizes.
  lemma AfterBitrate(q: Controller, a: Controller, c: SourceCall, r: Controller)
    requires AddsRungSize(a, r) && c.SetBitrate?
    requires a.native == q.native && a.rung == q.rung && a.calls == q.calls + [c]
    ensures AddsRungSize(q, r)
  {
    SameNative(a, q, r.rung);
    hide SizeForRung;
    assert Added(q, r) == [c] + Added(a, r);
    SizesAppend([c], Added(a, r));
    assert [c][..0] == [] && Sizes([c]) == [];
  }

  // The ladder and the calls are all that counts.
  predicate Alike(p: Controller, q: Controller) { p.native == q.native && p.calls == q.calls && p.rung == q.rung }

  lemma AlikeAdds(q: Controller, p: Controller, r: Controller, z: Controller)
    requires AddsRungSize(p, r) && Alike(p, q) && Alike(r, z)
    ensures AddsRungSize(q, z)
  {
    SameNative(p, q, r.rung);
    hide SizeForRung, Sizes;
  }

  lemma NothingAdded(q: Controller, r: Controller)
    requires r.native == q.native && r.calls == q.calls
    ensures AddsRungSize(q, r)
  {
    hide SizeForRung;
    assert r.calls[|q.calls|..] == [];
  }

  lemma AdaptSizes(q: Controller, target: int, m: Moment)
    requires Sound(q)
    ensures AddsRungSize(q, Adapt(q, target, m))
  {
    hide AddsRungSize, StepDown, StepUp;
    var r := Adapt(q, target, m);
    var low := q.(highSince := None, lowSince := Some(Since(q.lowSince, m.now)));
    var high := q.(lowSince := None, highSince := Some(Since(q.highSince, m.now)));
    StepSizes(low, StepDown(low, m), true, m);
    StepSizes(high, StepUp(high, m), false, m);
    if r == StepDown(low, m) {
      AlikeAdds(q, low, r, r);
    } else if r == StepUp(high, m) {
      AlikeAdds(q, high, r, r);
    } else {
      NothingAdded(q, r);
    }
  }

  lemma RateAdds(q: Controller, fps: int)
    ensures AddsRungSize(q, WithFPS(q, fps))
  {
    hide SizeForRung, Clamp;
    var r := WithFPS(q, fps);
    SizesOfNone();
    if r.calls != q.calls {
      assert Added(q, r) == [] + [r.calls[|q.calls|]];
      SizesGrow([], r.calls[|q.calls|]);
    } else {
      NothingAdded(q, r);
    }
  }

  lemma RungAdds(q: Controller, rung: int, m: Moment)
    ensures AddsRungSize(q, WithRung(q, rung, m))
  {
    hide SizeForRung;
    var r := WithRung(q, rung, m);
    SizesOfNone();
    if r.calls != q.calls {
      assert Added(q, r) == [] + [r.calls[|q.calls|]];
      SizesGrow([], r.calls[|q.calls|]);
    } else {
      NothingAdded(q, r);
    }
  }

  lemma StepSizes(q: Controller, r: Controller, down: bool, m: Moment)
    requires Sound(q) && r == if down then StepDown(q, m) else StepUp(q, m)
    ensures AddsRungSize(q, r)
  {
    hide AddsRungSize, WithFPS, WithRung;
    NothingAdded(q, q);
    var p :=
      if down && q.preset.Desktop? && q.fps > 30 then WithFPS(q, 30)
      else if down && q.rung < LOWEST_RUNG then WithRung(q, q.rung + 1, m)
      else if down && q.fps > MIN_USABLE_FPS then WithFPS(q, MaxInt(MIN_USABLE_FPS, Quotient(q.fps, 2)))
      else if !down && q.fps < q.maxFPS then WithFPS(q, q.maxFPS)
      else if !down && q.rung > 0 then WithRung(q, q.rung - 1, m)
      else q;
    RateAdds(q, 30);
    RateAdds(q, MaxInt(MIN_USABLE_FPS, Quotient(q.fps, 2)));
    RateAdds(q, q.maxFPS);
    RungAdds(q, q.rung + 1, m);
    RungAdds(q, q.rung - 1, m);
    AlikeAdds(q, q, p, r);
  }

  lemma {:induction false} SizesAppend(a: seq<SourceCall>, b: seq<SourceCall>)
    ensures Sizes(a + b) == Sizes(a) + Sizes(b)
  {
    if b == [] {
      assert a + b == a;
    } else {
      var n := |b| - 1;
      assert (a + b)[..|a + b| - 1] == a + b[..n];
      SizesAppend(a, b[..n]);
    }
  }

  // Sizes so far and the one of the rung now, in the direction the run goes.
  ghost predicate Bounded(s: seq<Size>, now: Size, down: bool) {
    if down then Shrinking(s) && forall x <- s :: NoLarger(now, x)
    else Growing(s) && forall x <- s :: NoLarger(x, now)
  }

  lemma BoundedGrows(s: seq<Size>, was: Size, now: Size, down: bool)
    requires Bounded(s, was, down) && (if down then NoLarger(now, was) else NoLarger(was, now))
    ensures Bounded(s, now, down) && Bounded(s + [now], now, down)
  {
    assert forall i | 0 <= i < |s| :: s[i] in s;
  }

  // One more update of a run that goes one way.
  lemma OneMoreSize(q: Controller, p: Controller, r: Controller, down: bool)
    requires Sound(p) && Sound(r) && AddsRungSize(p, r)
    requires if down then p.rung <= r.rung else r.rung <= p.rung
    requires p.native == q.native && |q.calls| <= |p.calls| && p.calls[..|q.calls|] == q.calls
    requires Bounded(Sizes(Added(q, p)), SizeForRung(q, p.rung), down)
    ensures r.native == q.native && |q.calls| <= |r.calls| && r.calls[..|q.calls|] == q.calls
    ensures Bounded(Sizes(Added(q, r)), SizeForRung(q, r.rung), down)
  {
    hide SizeForRung, Bounded, Sizes;
    SizesAppend(Added(q, p), Added(p, r));
    assert Added(q, r) == Added(q, p) + Added(p, r);
    SameNative(p, q, r.rung);
    if down {
      HigherRungSmaller(q, p.rung, r.rung);
    } else {
      HigherRungSmaller(q, r.rung, p.rung);
    }
    BoundedGrows(Sizes(Added(q, p)), SizeForRung(q, p.rung), SizeForRung(q, r.rung), down);
    assert Sizes(Added(q, p)) + [] == Sizes(Added(q, p));
  }

  // One update goes the way the run does.
  lemma GoesOn(q: Controller, p: Controller, t: Tick)
    requires Steady(q) && Steady(p) && SameSettings(q, p) && 0 < t.estimate
    requires KeepsDirection(q, p, Target(q, t.estimate))
    requires var target := Target(q, t.estimate);
      LowFor(q, target) || HighFor(q, target) || (p.rung == q.rung && p.fps == q.fps)
    ensures if LowFor(q, Target(q, t.estimate)) then p.rung <= Ticked(p, t).rung else Ticked(p, t).rung <= p.rung
  {
    AnyTick(p, t);
    hide Ticked, TrackBitrate, Work;
  }

  // Where no viewport disturbs, the accepted sizes go one way, in width and height alike.
  lemma {:induction false} SizesGoOneWay(q: Controller, run: seq<Tick>, estimate: int)
    requires Steady(q) && 0 < estimate && forall t <- run :: t.estimate == estimate && Undisturbed(q, t)
    ensures var r := After(q, run); var down := LowFor(q, Target(q, estimate));
      && r.native == q.native && |q.calls| <= |r.calls| && r.calls[..|q.calls|] == q.calls
      && Bounded(Sizes(Added(q, r)), SizeForRung(q, r.rung), down)
  {
    hide SizeForRung, Ticked, Bounded, AddsRungSize, Sizes, Work, KeepsDirection, Moves;
    var down := LowFor(q, Target(q, estimate));
    if run == [] {
      NothingBounded(SizeForRung(q, q.rung), down);
      assert Added(q, q) == [];
    } else {
      var n := |run| - 1;
      assert run[n] in run && forall t <- run[..n] :: t in run;
      var p, r := After(q, run[..n]), After(q, run);
      SizesGoOneWay(q, run[..n], estimate);
      NoOscillation(q, run[..n], estimate);
      NoOscillation(q, run, estimate);
      GoesOn(q, p, run[n]);
      TickSizes(p, run[n]);
      OneMoreSize(q, p, r, down);
    }
  }

  lemma NothingBounded(now: Size, down: bool)
    ensures Bounded(Sizes([]), now, down)
  {
  }

  // Every run of updates at one estimate, from every sound adapting controller with the policy.
  ghost predicate NeverPumps(policy: Policy) {
    forall q, run, estimate: int |
      Steady(q) && q.policy == policy && 0 < estimate && Instants(run) && Constant(run, estimate) ::
      OneWay(Sizes(Added(q, After(q, run))))
  }

  ghost predicate Constant(run: seq<Tick>, estimate: int) { forall t <- run :: t.estimate == estimate }

  // The stream never pumps exactly under the policies that do not match the viewport.
  lemma PumpsExactly(policy: Policy)
    ensures NeverPumps(policy) <==> !policy.Fit?
  {
    if policy.Fit? {
      var run := FitPolicyPumps();
      assert Added(PUMPED, After(PUMPED, run)) == After(PUMPED, run).calls by {
        hide After;
        assert After(PUMPED, run).calls[0..] == After(PUMPED, run).calls;
      }
      assert Constant(run, 1_000_000) && !OneWay([LESS, FULL, Size(1152, 656)]) by { TurnsTwice(); }
      assert PUMPED.policy == policy && Steady(PUMPED);
    } else {
      forall q, run, estimate: int |
        Steady(q) && q.policy == policy && 0 < estimate && Instants(run) && Constant(run, estimate)
        ensures OneWay(Sizes(Added(q, After(q, run))))
      {
        hide After, Ticked, SizeForRung;
        SizesGoOneWay(q, run, estimate);
        var r := After(q, run);
        assert Bounded(Sizes(Added(q, r)), SizeForRung(q, r.rung), LowFor(q, Target(q, estimate)));
      }
    }
  }

  lemma TurnsTwice()
    ensures !OneWay([LESS, FULL, Size(1152, 656)])
  {
    var s := [LESS, FULL, Size(1152, 656)];
    assert s[0].width < s[1].width && s[2].width < s[1].width;
  }

  // A Full HD desktop viewed at its own size, with a link worth one megabit per second.
  const PUMPED := Controller(Balanced, Fit, true, 60, 20_000_000, 600_000, Size(0, 0), Size(1920, 1080),
                             1_000_000, 60, 0, 0.0, None, None, [])
  const FULL := Size(1920, 1088)
  const LESS := Size(1440, 816)

  function PumpTick(now: real, reported: Size): Tick {
    Tick(1_000_000, Some(Size(1920, 1080)), Moment(now, reported, true, true))
  }

  lemma PumpedSizes()
    ensures SizeForRung(PUMPED, 1) == LESS && SizeForRung(PUMPED, 2) == Size(1152, 656)
  {
    assert (1920.0 * 0.60).Floor == 1152 && (1080.0 * 0.60).Floor == 648;
  }

  lemma SameNative(q: Controller, r: Controller, rung: nat)
    requires q.native == r.native
    ensures SizeForRung(q, rung) == SizeForRung(r, rung)
  {
  }

  // The ladder's turn: the viewport already matches, the timers are due.
  lemma PumpDown(q: Controller, now: real)
    requires q == PUMPED.(rung := q.rung, lastChange := q.lastChange, lowSince := q.lowSince, calls := q.calls)
    requires q.rung <= 1 && now - q.lastChange >= RUNG_DWELL
    requires q.lowSince.Some? && now - q.lowSince.value >= DOWNGRADE_AFTER
    ensures Ticked(q, PumpTick(now, FULL)) ==
      q.(rung := q.rung + 1, lastChange := now, lowSince := None,
         calls := q.calls + [SetResolution(SizeForRung(PUMPED, q.rung + 1), true)])
  {
    SameNative(q, PUMPED, q.rung + 1);
    hide SizeForRung;
  }

  // The viewport's turn: the ladder has shrunk the stream.
  lemma PumpUp(q: Controller, now: real)
    requires q == PUMPED.(rung := 1, lastChange := q.lastChange, calls := q.calls)
    requires now - q.lastChange >= RUNG_DWELL
    ensures Ticked(q, PumpTick(now, LESS)) ==
      q.(lastChange := now, lowSince := Some(now), calls := q.calls + [SetResolution(FULL, true)])
  {
  }

  // Under the policy that matches the viewport the stream does pump: at a constant low
  // estimate the ladder shrinks it, the viewport match enlarges it, the ladder shrinks it.
  lemma FitPolicyPumps() returns (run: seq<Tick>)
    ensures Sound(PUMPED) && Instants(run)
    ensures forall t <- run :: t.estimate == 1_000_000 && t.viewport == Some(Size(1920, 1080))
    ensures Sizes(After(PUMPED, run).calls) == [LESS, FULL, Size(1152, 656)]
  {
    run := PumpRun();
    PumpedCalls(run);
    PumpedSizes();
    hide Ticked, SizeForRung, RoundTo16, Sizes, After, PumpTick;
    var one := [SetResolution(LESS, true)];
    var two := one + [SetResolution(FULL, true)];
    SizesGrow([], one[0]);
    SizesGrow(one, SetResolution(FULL, true));
    SizesGrow(two, SetResolution(Size(1152, 656), true));
    SizesOfNone();
  }

  lemma PumpRun() returns (run: seq<Tick>)
    ensures run == [PumpTick(1.0, FULL), PumpTick(10.0, FULL), PumpTick(20.0, LESS), PumpTick(30.0, FULL)]
    ensures Sound(PUMPED) && Instants(run)
    ensures forall t <- run :: t.estimate == 1_000_000 && t.viewport == Some(Size(1920, 1080))
  {
    run := [PumpTick(1.0, FULL), PumpTick(10.0, FULL), PumpTick(20.0, LESS), PumpTick(30.0, FULL)];
  }

  lemma SizesOfNone()
    ensures Sizes([]) == []
  {
  }

  lemma PumpedCalls(run: seq<Tick>)
    requires run == [PumpTick(1.0, FULL), PumpTick(10.0, FULL), PumpTick(20.0, LESS), PumpTick(30.0, FULL)]
    ensures After(PUMPED, run).calls == [SetResolution(SizeForRung(PUMPED, 1), true)] +
        [SetResolution(FULL, true)] + [SetResolution(SizeForRung(PUMPED, 2), true)]
  {
    AfterFour(PUMPED, run);
    var a := PumpStart(run[0]);
    hide Ticked, SizeForRung, RoundTo16, After;
    PumpDown(a, 10.0);
    var b := Ticked(a, run[1]);
    PumpUp(b, 20.0);
    var c := Ticked(b, run[2]);
    PumpDown(c, 30.0);
  }

  lemma PumpStart(t: Tick) returns (a: Controller)
    requires t == PumpTick(1.0, FULL)
    ensures a == Ticked(PUMPED, t) == PUMPED.(lowSince := Some(1.0))
  {
    a := Ticked(PUMPED, t);
  }

  lemma AfterFour(q: Controller, run: seq<Tick>)
    requires |run| == 4
    ensures After(q, run) == Ticked(Ticked(Ticked(Ticked(q, run[0]), run[1]), run[2]), run[3])
  {
    hide Ticked;
    assert run[..3][..2] == run[..2] && run[..2][..1] == run[..1] && run[..1][..0] == [];
    assert After(q, run[..1]) == Ticked(q, run[0]);
    assert After(q, run[..2]) == Ticked(After(q, run[..1]), run[1]);
  }

  lemma SizesGrow(calls: seq<SourceCall>, c: SourceCall)
    ensures Sizes(calls + [c]) == Sizes(calls) + if c.SetResolution? && c.accepted then [c.size] else []
  {
    assert (calls + [c])[..|calls|] == calls;
  }
}
