/** What the quality controller tells its source: bitrates, frame rates and sizes, each stated
    by the numbers the source is to hear. */
module QualityCalls {
  import opened Basics
  import opened QualityController
  import opened QualityRuns

  // The bitrates, the frame rates and the sizes the source was told, in order.
  function BitratesTold(calls: seq<SourceCall>): seq<int> {
    if calls == [] then []
    else
      var c := calls[|calls| - 1];
      BitratesTold(calls[..|calls| - 1]) + if c.SetBitrate? then [c.bps] else []
  }

  function RatesTold(calls: seq<SourceCall>): seq<int> {
    if calls == [] then []
    else
      var c := calls[|calls| - 1];
      RatesTold(calls[..|calls| - 1]) + if c.SetFrameRate? then [c.fps] else []
  }

  function SizesAsked(calls: seq<SourceCall>): seq<SourceCall> {
    if calls == [] then []
    else
      var c := calls[|calls| - 1];
      SizesAsked(calls[..|calls| - 1]) + if c.SetResolution? then [c] else []
  }

  function PresetsTold(calls: seq<SourceCall>): seq<Preset> {
    if calls == [] then []
    else
      var c := calls[|calls| - 1];
      PresetsTold(calls[..|calls| - 1]) + if c.SetPreset? then [c.preset] else []
  }

  lemma OneMoreTold(calls: seq<SourceCall>, c: SourceCall)
    ensures BitratesTold(calls + [c]) == BitratesTold(calls) + if c.SetBitrate? then [c.bps] else []
    ensures RatesTold(calls + [c]) == RatesTold(calls) + if c.SetFrameRate? then [c.fps] else []
    ensures SizesAsked(calls + [c]) == SizesAsked(calls) + if c.SetResolution? then [c] else []
    ensures PresetsTold(calls + [c]) == PresetsTold(calls) + if c.SetPreset? then [c.preset] else []
  {
    assert (calls + [c])[..|calls|] == calls;
  }

  // ------------------------------------------------------------------- the bitrate

  // `n` held within the two bounds.
  function Within(n: int, low: int, high: int): int {
    if n < low then low else if high < n then high else n
  }

  // More than a twentieth of the bitrate away from it.
  predicate Far(target: int, bitrate: int) {
    20 * (target - bitrate) > bitrate || 20 * (bitrate - target) > bitrate
  }

  lemma TwentiethsAreExact(target: int, bitrate: int)
    requires 0 <= bitrate
    ensures Abs(target - bitrate) > Quotient(bitrate, 20) <==> Far(target, bitrate)
  {
  }

  // What one step adds of bitrates and frame rates, and what is kept of them.
  ghost predicate Adds(q: Controller, r: Controller, bitrates: seq<int>, rates: seq<int>) {
    && BitratesTold(r.calls) == BitratesTold(q.calls) + bitrates
    && RatesTold(r.calls) == RatesTold(q.calls) + rates
    && r.bitrate == (if bitrates == [] then q.bitrate else bitrates[|bitrates| - 1])
    && r.fps == (if rates == [] then q.fps else rates[|rates| - 1])
  }

  lemma AddsTwice(q: Controller, p: Controller, r: Controller, b: seq<int>, f: seq<int>, c: seq<int>, g: seq<int>)
    requires Adds(q, p, b, f) && Adds(p, r, c, g)
    ensures Adds(q, r, b + c, f + g)
  {
  }

  lemma NothingAdded(q: Controller, r: Controller)
    requires r.calls == q.calls && r.bitrate == q.bitrate && r.fps == q.fps
    ensures Adds(q, r, [], [])
  {
  }

  lemma RateAdds(q: Controller, fps: int)
    ensures Adds(q, WithFPS(q, fps), [], if WithFPS(q, fps).fps == q.fps then [] else [WithFPS(q, fps).fps])
  {
    hide Clamp;
    OneMoreTold(q.calls, SetFrameRate(Clamp(fps, MIN_USABLE_FPS, MAX_FPS)));
  }

  lemma SizeAdds(q: Controller, r: Controller)
    requires r.bitrate == q.bitrate && r.fps == q.fps
    requires
      || r.calls == q.calls
      || exists c: SourceCall :: (c.SetResolution? || c.SetPreset?) && r.calls == q.calls + [c]
    ensures Adds(q, r, [], [])
  {
    if r.calls != q.calls {
      var c: SourceCall :| (c.SetResolution? || c.SetPreset?) && r.calls == q.calls + [c];
      OneMoreTold(q.calls, c);
    }
  }

  lemma RungAdds(q: Controller, rung: int, m: Moment)
    ensures Adds(q, WithRung(q, rung, m), [], [])
  {
    hide SizeForRung, Clamp;
    SizeAdds(q, WithRung(q, rung, m));
  }

  lemma ViewportAdds(q: Controller, viewport: Size, m: Moment)
    ensures Adds(q, WithViewport(q, viewport, m), [], [])
  {
    hide RoundTo16, MinInt;
    SizeAdds(q, WithViewport(q, viewport, m));
  }

  lemma PolicyAdds(q: Controller, m: Moment)
    ensures Adds(q, WithPolicy(q, m), [], [])
  {
    hide RoundTo16;
    SizeAdds(q, WithPolicy(q, m));
  }

  // The ladder and the frame rate leave the bitrate alone.
  lemma AdaptAdds(q: Controller, target: int, m: Moment) returns (rates: seq<int>)
    ensures Adds(q, Adapt(q, target, m), [], rates)
  {
    hide WithFPS, WithRung, BitratesTold, RatesTold, LowFor, HighFor;
    var r := Adapt(q, target, m);
    var down, up := 30, q.maxFPS;
    var low := q.(highSince := None, lowSince := Some(Since(q.lowSince, m.now)));
    var high := q.(lowSince := None, highSince := Some(Since(q.highSince, m.now)));
    RateAdds(low, 30);
    RateAdds(low, MaxInt(MIN_USABLE_FPS, Quotient(q.fps, 2)));
    RateAdds(high, q.maxFPS);
    RungAdds(low, q.rung + 1, m);
    RungAdds(high, q.rung - 1, m);
    rates := if r.fps == q.fps then [] else [r.fps];
  }

  // The first half of an update: the viewport and the bitrate.
  function Tracked(q: Controller, t: Tick): Controller {
    var p := Seen(q, t);
    if p.adaptive && t.estimate > 0 then TrackBitrate(p, Target(p, t.estimate)) else p
  }

  lemma SeenAdds(q: Controller, t: Tick)
    ensures var p := Seen(q, t);
      && Adds(q, p, [], []) && p.adaptive == q.adaptive
      && p.minBitrate == q.minBitrate && p.maxBitrate == q.maxBitrate
  {
    hide Adds, RoundTo16, MinInt;
    NothingAdded(q, q);
    if t.viewport.Some? {
      ViewportAdds(q, t.viewport.value, t.moment);
    }
  }

  lemma TrackedAdds(q: Controller, t: Tick) returns (bitrates: seq<int>)
    ensures Adds(q, Tracked(q, t), bitrates, [])
    ensures var target := Within(t.estimate, q.minBitrate, q.maxBitrate);
      0 <= q.bitrate ==>
        bitrates == if q.adaptive && t.estimate > 0 && Far(target, q.bitrate) then [target] else []
  {
    SeenAdds(q, t);
    hide Seen, BitratesTold, RatesTold;
    var p := Seen(q, t);
    var target := Target(p, t.estimate);
    OneMoreTold(p.calls, SetBitrate(target));
    bitrates := if Tracked(q, t).calls == p.calls then [] else [target];
    if 0 <= q.bitrate {
      TwentiethsAreExact(target, q.bitrate);
    }
  }

  lemma TickAdds(q: Controller, t: Tick) returns (bitrates: seq<int>, rates: seq<int>)
    ensures Adds(q, Ticked(q, t), bitrates, rates)
    ensures var target := Within(t.estimate, q.minBitrate, q.maxBitrate);
      0 <= q.bitrate ==>
        bitrates == if q.adaptive && t.estimate > 0 && Far(target, q.bitrate) then [target] else []
  {
    bitrates := TrackedAdds(q, t);
    rates := [];
    var p := Tracked(q, t);
    hide Adapt, TrackBitrate, WithViewport, Adds, Far, Target;
    if p != Ticked(q, t) {
      rates := AdaptAdds(p, Target(Seen(q, t), t.estimate), t.moment);
      AddsTwice(q, p, Ticked(q, t), bitrates, [], [], rates);
      assert bitrates + [] == bitrates && [] + rates == rates;
    }
  }

  // An update sets the bitrate to the estimate, held within the bounds, exactly if that is more
  // than a twentieth away, and tells the source just then; afterwards it is no further away.
  lemma BitrateFollows(q: Controller, t: Tick)
    requires 0 <= q.bitrate
    ensures var r := Ticked(q, t); var target := Within(t.estimate, q.minBitrate, q.maxBitrate);
      var follows := q.adaptive && t.estimate > 0 && Far(target, q.bitrate);
      && r.bitrate == (if follows then target else q.bitrate)
      && BitratesTold(r.calls) == BitratesTold(q.calls) + (if follows then [target] else [])
      && (q.adaptive && t.estimate > 0 && 0 <= target ==> !Far(target, r.bitrate))
  {
    hide Ticked, BitratesTold, RatesTold, Within;
    var bitrates, rates := TickAdds(q, t);
  }

  // ------------------------------------------------------------------ whole sessions

  // Updates and settings requests in any order.
  datatype Turn = AnUpdate(tick: Tick) | ARequest(request: Request, moment: Moment)

  function Turned(q: Controller, run: seq<Turn>): Controller {
    if run == [] then q
    else
      var p := Turned(q, run[..|run| - 1]);
      match run[|run| - 1]
      case AnUpdate(t) => Ticked(p, t)
      case ARequest(r, m) => Apply(p, r, m)
  }

  lemma RequestedAdds(q: Controller, r: Request)
    ensures Adds(q, Requested(q, r), [], [])
  {
    hide WithLimits, Adds, BitratesTold, RatesTold;
    var a := WithPreset(q, r.preset);
    SizeAdds(q, a);
    var b := Requested(q, r);
    LimitsOnly(a.(policy := if r.policy.Some? then r.policy.value else a.policy,
                  fixedSize := r.size, adaptive := r.adaptive), r);
    NothingAdded(a, b);
    AddsTwice(q, a, b, [], [], [], []);
  }

  lemma LimitsOnly(q: Controller, r: Request)
    ensures var z := WithLimits(q, r);
      z == q.(maxFPS := z.maxFPS, maxBitrate := z.maxBitrate, minBitrate := z.minBitrate)
  {
  }

  lemma RequestAdds(q: Controller, r: Request, m: Moment) returns (rates: seq<int>)
    ensures Adds(q, Apply(q, r, m), [], rates)
  {
    hide Requested, WithFPS, WithRung, WithPolicy, Adds;
    var a := Requested(q, r);
    RequestedAdds(q, r);
    var b := a;
    rates := [];
    if a.preset.Gaming? {
      b := WithFPS(a, a.maxFPS);
      RateAdds(a, a.maxFPS);
      rates := if b.fps == a.fps then [] else [b.fps];
    } else if a.preset.Desktop? {
      var c := WithFPS(a, MinInt(a.maxFPS, 60));
      RateAdds(a, MinInt(a.maxFPS, 60));
      rates := if c.fps == a.fps then [] else [c.fps];
      b := WithRung(c, 0, m);
      RungAdds(c, 0, m);
      AddsTwice(a, c, b, [], rates, [], []);
      assert rates + [] == rates;
    } else {
      NothingAdded(a, b);
    }
    PolicyAdds(b, m);
    AddsTwice(q, a, b, [], [], [], rates);
    AddsTwice(q, b, Apply(q, r, m), [], rates, [], []);
    assert [] + rates == rates && rates + [] == rates;
  }

  lemma {:induction false} TurnsAdd(q: Controller, run: seq<Turn>) returns (bitrates: seq<int>, rates: seq<int>)
    ensures Adds(q, Turned(q, run), bitrates, rates)
  {
    hide Ticked, Apply, Adds;
    if run == [] {
      NothingAdded(q, q);
      bitrates, rates := [], [];
    } else {
      var p := Turned(q, run[..|run| - 1]);
      var b, f := TurnsAdd(q, run[..|run| - 1]);
      var c, g := [], [];
      match run[|run| - 1] {
        case AnUpdate(t) => c, g := TickAdds(p, t);
        case ARequest(r, m) => g := RequestAdds(p, r, m);
      }
      AddsTwice(q, p, Turned(q, run), b, f, c, g);
      bitrates, rates := b + c, f + g;
    }
  }

  // The value kept after the source was told `told`, and the value `was` before `before` of it.
  predicate IsLast(kept: int, told: seq<int>, before: seq<int>, was: int) {
    before <= told && kept == if told == before then was else told[|told| - 1]
  }

  // Whatever updates and requests come, the bitrate and the frame rate the controller keeps are
  // the last ones its source was told, if it was told any.
  lemma KeepsWhatItTold(q: Controller, run: seq<Turn>)
    ensures var r := Turned(q, run);
      && IsLast(r.bitrate, BitratesTold(r.calls), BitratesTold(q.calls), q.bitrate)
      && IsLast(r.fps, RatesTold(r.calls), RatesTold(q.calls), q.fps)
  {
    hide Turned, BitratesTold, RatesTold;
    var bitrates, rates := TurnsAdd(q, run);
    var a, b := BitratesTold(q.calls), RatesTold(q.calls);
    assert bitrates == [] ==> a + bitrates == a;
    assert rates == [] ==> b + rates == b;
  }

  // ------------------------------------------------------------------- what is asked for

  // `side` is the multiple of sixteen nearest to `n`, of two the greater.
  predicate Nearest16(side: int, n: int) { side % 16 == 0 && n - 8 < side <= n + 8 }

  lemma RoundsToNearest(n: int)
    requires n >= 0
    ensures Nearest16(RoundTo16(n), n)
  {
  }

  // A size request: the call, and whether the source took it.
  predicate AsksFor(c: SourceCall, width: int, height: int, accepted: bool) {
    c.SetResolution? && Nearest16(c.size.width, width) && Nearest16(c.size.height, height) && c.accepted == accepted
  }

  // The settings of a controller: everything that steps and policies leave alone.
  predicate SameButSteps(q: Controller, r: Controller) {
    && r.preset == q.preset && r.policy == q.policy && r.fixedSize == q.fixedSize && r.adaptive == q.adaptive
    && r.native == q.native && r.bitrate == q.bitrate && r.maxFPS == q.maxFPS
    && r.maxBitrate == q.maxBitrate && r.minBitrate == q.minBitrate
  }

  lemma StepsKeepSettings(q: Controller, fps: int, m: Moment)
    ensures SameButSteps(q, WithFPS(q, fps)) && WithFPS(q, fps).rung == q.rung
    ensures SameButSteps(q, WithRung(q, 0, m)) && SameButSteps(q, WithPolicy(q, m))
  {
    hide Clamp, SizeForRung, RoundTo16;
  }

  // A request up to its policy.
  function Stepped(a: Controller, m: Moment): Controller {
    if a.preset.Gaming? then WithFPS(a, a.maxFPS)
    else if a.preset.Desktop? then WithRung(WithFPS(a, MinInt(a.maxFPS, 60)), 0, m)
    else a
  }

  lemma ApplyIsStepped(q: Controller, r: Request, m: Moment)
    ensures Apply(q, r, m) == WithPolicy(Stepped(Requested(q, r), m), m)
    ensures SameButSteps(Requested(q, r), Stepped(Requested(q, r), m))
    ensures SameButSteps(Requested(q, r), Apply(q, r, m))
  {
    hide Requested, WithFPS, WithRung, WithPolicy;
    var a := Requested(q, r);
    StepsKeepSettings(a, a.maxFPS, m);
    StepsKeepSettings(a, MinInt(a.maxFPS, 60), m);
    StepsKeepSettings(WithFPS(a, MinInt(a.maxFPS, 60)), 60, m);
    StepsKeepSettings(Stepped(a, m), 60, m);
  }

  // What a settings request leaves of the settings: what it names, held within what makes sense,
  // and the rest as it was.
  lemma RequestTakesOver(q: Controller, r: Request, m: Moment)
    ensures var z := Apply(q, r, m);
      && z.preset == (if r.preset.Some? then r.preset.value else q.preset)
      && z.policy == (if r.policy.Some? then r.policy.value else q.policy)
      && z.fixedSize == r.size && z.adaptive == r.adaptive && z.native == q.native && z.bitrate == q.bitrate
      && z.maxFPS == (if r.maxFPS > 0 then Within(r.maxFPS, 15, 240) else q.maxFPS)
      && z.maxBitrate == (if r.maxKbps > 0 then Within(1000 * r.maxKbps, 300_000, 200_000_000) else q.maxBitrate)
      && z.minBitrate == (if r.minKbps > 0 then Within(1000 * r.minKbps, 100_000, z.maxBitrate) else q.minBitrate)
  {
    ApplyIsStepped(q, r, m);
    hide Apply, Stepped;
  }

  lemma RateAsks(q: Controller, fps: int)
    ensures SizesAsked(WithFPS(q, fps).calls) == SizesAsked(q.calls)
  {
    hide Clamp;
    OneMoreTold(q.calls, SetFrameRate(Clamp(fps, MIN_USABLE_FPS, MAX_FPS)));
  }

  // Only a desktop off the top rung asks for a size before its policy does.
  lemma SteppedAsks(a: Controller, m: Moment)
    ensures SizesAsked(Stepped(a, m).calls) == SizesAsked(a.calls) +
      if a.preset.Desktop? && a.rung != 0 && !a.policy.Native? && !a.policy.Fixed?
      then [SetResolution(SizeForRung(a, 0), m.acceptsRung)] else []
  {
    hide SizeForRung, SizesAsked;
    RateAsks(a, a.maxFPS);
    RateAsks(a, MinInt(a.maxFPS, 60));
    var c := WithFPS(a, MinInt(a.maxFPS, 60));
    StepsKeepSettings(a, MinInt(a.maxFPS, 60), m);
    hide WithFPS;
    OneMoreTold(c.calls, SetResolution(SizeForRung(c, 0), m.acceptsRung));
    assert SizeForRung(c, 0) == SizeForRung(a, 0) by { OnlyNative(c, a); }
  }

  lemma OnlyNative(q: Controller, r: Controller)
    requires q.native == r.native
    ensures SizeForRung(q, 0) == SizeForRung(r, 0)
  {
  }

  lemma RequestedAsks(q: Controller, r: Request)
    ensures var a := Requested(q, r); SizesAsked(a.calls) == SizesAsked(q.calls) && a.rung == q.rung
  {
    hide Clamp;
    if r.preset.Some? {
      OneMoreTold(q.calls, SetPreset(r.preset.value));
    }
  }

  // What a request asks of the source: under the fixed policy the size it names, if it names one,
  // under the native policy the screen's own, and else nothing but the top rung for a desktop.
  lemma RequestAsksExactly(q: Controller, r: Request, m: Moment)
    ensures var z := Apply(q, r, m); var n := |SizesAsked(q.calls)|; var asked := SizesAsked(z.calls);
      && SizesAsked(q.calls) <= asked
      && (z.policy.Native? ==> asked[n..] == [SetResolution(q.native, m.acceptsSize)])
      && (z.policy.Fixed? && r.size.width > 0 && r.size.height > 0 ==>
            |asked| == n + 1 && AsksFor(asked[n], r.size.width, r.size.height, m.acceptsSize))
      && (z.policy.Fixed? && !(r.size.width > 0 && r.size.height > 0) ==> |asked| == n)
      && (z.policy.Auto? || z.policy.Fit? ==>
            asked[n..] == if z.preset.Desktop? && q.rung != 0
                          then [SetResolution(SizeForRung(q, 0), m.acceptsRung)] else [])
  {
    RequestTakesOver(q, r, m);
    ApplyIsStepped(q, r, m);
    var a := Requested(q, r);
    var b := Stepped(a, m);
    RequestedAsks(q, r);
    SteppedAsks(a, m);
    OnlyNative(a, q);
    OneMoreTold(b.calls, SetResolution(b.native, m.acceptsSize));
    var fixed := Size(RoundTo16(b.fixedSize.width), RoundTo16(b.fixedSize.height));
    OneMoreTold(b.calls, SetResolution(fixed, m.acceptsSize));
    if r.size.width > 0 && r.size.height > 0 {
      RoundsToNearest(r.size.width);
      RoundsToNearest(r.size.height);
    }
    hide Apply, Stepped, Requested, SizeForRung, RoundTo16, SizesAsked;
  }

  lemma OneMoreIsNoPreset(q: Controller, r: Controller)
    requires r.calls == q.calls || exists c: SourceCall :: !c.SetPreset? && r.calls == q.calls + [c]
    ensures PresetsTold(r.calls) == PresetsTold(q.calls)
  {
    if r.calls != q.calls {
      var c: SourceCall :| !c.SetPreset? && r.calls == q.calls + [c];
      OneMoreTold(q.calls, c);
    }
  }

  lemma StepsTellNoPreset(q: Controller, fps: int, m: Moment)
    ensures PresetsTold(WithFPS(q, fps).calls) == PresetsTold(q.calls)
    ensures PresetsTold(WithRung(q, 0, m).calls) == PresetsTold(q.calls)
    ensures PresetsTold(WithPolicy(q, m).calls) == PresetsTold(q.calls)
  {
    hide Clamp, SizeForRung, RoundTo16, PresetsTold;
    OneMoreIsNoPreset(q, WithFPS(q, fps));
    OneMoreIsNoPreset(q, WithRung(q, 0, m));
    OneMoreIsNoPreset(q, WithPolicy(q, m));
  }

  // A request that names a preset tells it to the source, once; no other does.
  lemma RequestTellsPreset(q: Controller, r: Request, m: Moment)
    ensures PresetsTold(Apply(q, r, m).calls) ==
      PresetsTold(q.calls) + if r.preset.Some? then [r.preset.value] else []
  {
    ApplyIsStepped(q, r, m);
    if r.preset.Some? {
      OneMoreTold(q.calls, SetPreset(r.preset.value));
    }
    var a := Requested(q, r);
    assert PresetsTold(a.calls) == PresetsTold(q.calls) + if r.preset.Some? then [r.preset.value] else [];
    hide Requested, Apply, WithFPS, WithRung, WithPolicy, PresetsTold;
    StepsTellNoPreset(a, a.maxFPS, m);
    StepsTellNoPreset(a, MinInt(a.maxFPS, 60), m);
    StepsTellNoPreset(WithFPS(a, MinInt(a.maxFPS, 60)), 60, m);
    StepsTellNoPreset(Stepped(a, m), 60, m);
  }

  // The smaller of a viewport's side and the screen's.
  function Shown(side: int, native: int): int { if side < native then side else native }

  // The viewport is to be matched: the policy says so, it has a size, that is not the size there
  // is, and four seconds have passed since the last change.
  predicate Matches(q: Controller, t: Tick) {
    && q.policy.Fit? && t.viewport.Some? && t.viewport.value.width > 0 && t.viewport.value.height > 0
    && t.moment.now - q.lastChange >= 4.0
    && !(&& Nearest16(t.moment.reported.width, Shown(t.viewport.value.width, q.native.width))
         && Nearest16(t.moment.reported.height, Shown(t.viewport.value.height, q.native.height)))
  }

  // Then, and only then, an update asks first of all for the size of the viewport, no larger than
  // the screen; if the source takes it the ladder waits.
  lemma ViewportAsksExactly(q: Controller, t: Tick)
    requires q.native.width > 0 && q.native.height > 0
    ensures var r := Ticked(q, t); var n := |q.calls|;
      if Matches(q, t) then
        && n < |r.calls| && q.calls <= r.calls
        && AsksFor(r.calls[n], Shown(t.viewport.value.width, q.native.width),
                   Shown(t.viewport.value.height, q.native.height), t.moment.acceptsSize)
        && (t.moment.acceptsSize ==> r.lastChange == t.moment.now && r.rung == q.rung && r.fps == q.fps)
      else r == Ticked(q, t.(viewport := None))
  {
    if t.viewport.Some? && t.viewport.value.width > 0 && t.viewport.value.height > 0 {
      RoundsToNearest(Shown(t.viewport.value.width, q.native.width));
      RoundsToNearest(Shown(t.viewport.value.height, q.native.height));
      OnlyOneNearest(t.moment.reported.width, Shown(t.viewport.value.width, q.native.width));
      OnlyOneNearest(t.moment.reported.height, Shown(t.viewport.value.height, q.native.height));
    }
    hide RoundTo16, Adapt, TrackBitrate, Target;
    var p := Seen(q, t);
    if p.adaptive && t.estimate > 0 {
      AfterViewport(p, Target(p, t.estimate), t.moment);
    }
  }

  lemma OnlyOneNearest(side: int, n: int)
    requires n >= 0
    ensures Nearest16(side, n) <==> side == RoundTo16(n)
  {
  }

  lemma AfterViewport(p: Controller, target: int, m: Moment)
    ensures var r := Adapt(TrackBitrate(p, target), target, m);
      && p.calls <= r.calls
      && (p.lastChange == m.now ==> r.lastChange == m.now && r.rung == p.rung && r.fps == p.fps)
  {
    hide SizeForRung, Clamp, Quotient, MinBitrate;
  }

  // One side of the size of a rung: the share of the screen's, to the nearest multiple of
  // sixteen, but no less than the least.
  predicate SideOf(side: int, native: int, rung: nat, least: int)
    requires rung < 6
  {
    var whole := (native as real * [1.0, 0.75, 0.60, 0.50, 0.375, 0.30][rung]).Floor;
    if (whole + 8) / 16 * 16 > least then Nearest16(side, whole) else side == least
  }

  lemma SidesAreShares(native: int, rung: nat, least: int)
    requires native > 0 && rung < 6
    ensures SideOf(Side(native, rung, least), native, rung, least)
  {
    hide Scale, RoundTo16, Nearest16;
    SharesAreScales(rung);
    PositiveShare(native, Scale(rung));
    var whole := (native as real * Scale(rung)).Floor;
    RoundsToNearest(whole);
    RoundedIs(whole);
  }

  lemma SharesAreScales(rung: nat)
    requires rung < 6
    ensures Scale(rung) == [1.0, 0.75, 0.60, 0.50, 0.375, 0.30][rung] && Scale(rung) > 0.0
  {
  }

  lemma RoundedIs(n: int)
    requires n >= 0
    ensures RoundTo16(n) == (n + 8) / 16 * 16
  {
  }

  lemma PositiveShare(native: int, share: real)
    requires native > 0 && share > 0.0
    ensures native as real * share >= 0.0
  {
  }

  // A step that moved the frame rate told it last, and one that moved the rung asked last for the
  // size of the new one.
  lemma MoveIsTold(q: Controller, t: Tick)
    requires Steady(q) && q.native.width > 0 && q.native.height > 0
    ensures var r := Ticked(q, t); var n := |r.calls|;
      && (r.fps != q.fps ==> n > 0 && r.calls[n - 1] == SetFrameRate(r.fps) && r.rung == q.rung)
      && (r.rung != q.rung ==>
            && r.rung < 6 && n > 0 && r.calls[n - 1].SetResolution? && r.calls[n - 1].accepted == t.moment.acceptsRung
            && SideOf(r.calls[n - 1].size.width, q.native.width, r.rung, 320)
            && SideOf(r.calls[n - 1].size.height, q.native.height, r.rung, 180))
  {
    var p := Tracked(q, t);
    var r := Ticked(q, t);
    TrackedKeeps(q, t);
    hide SideOf, Side, Seen, Tracked, TrackBitrate, WithViewport;
    UpdateIsSound(q, t);
    if p != r {
      assert r == Adapt(p, Target(Seen(q, t), t.estimate), t.moment) by { TickIsAdapt(q, t); }
      hide Ticked;
      AdaptTells(p, Target(Seen(q, t), t.estimate), t.moment);
      if r.rung != q.rung {
        SidesAreShares(q.native.width, r.rung, 320);
        SidesAreShares(q.native.height, r.rung, 180);
      }
    }
  }

  lemma TickIsAdapt(q: Controller, t: Tick)
    ensures
      || Ticked(q, t) == Tracked(q, t)
      || Ticked(q, t) == Adapt(Tracked(q, t), Target(Seen(q, t), t.estimate), t.moment)
  {
    hide Adapt, TrackBitrate, WithViewport;
  }

  lemma TrackedKeeps(q: Controller, t: Tick)
    ensures var p := Tracked(q, t); p.rung == q.rung && p.fps == q.fps && p.native == q.native
  {
    hide RoundTo16, Quotient;
  }

  lemma AdaptTells(q: Controller, target: int, m: Moment)
    ensures var r := Adapt(q, target, m); var n := |r.calls|;
      && (r.fps != q.fps ==> n > 0 && r.calls[n - 1] == SetFrameRate(r.fps) && r.rung == q.rung)
      && (r.rung != q.rung ==>
            n > 0 && r.calls[n - 1] == SetResolution(Size(Side(q.native.width, r.rung, 320),
                                                          Side(q.native.height, r.rung, 180)), m.acceptsRung))
  {
    hide Side, Clamp, Quotient, MinBitrate;
  }

  // ------------------------------------------------------------------------ the timers

  // The mark of a branch that is taken once more: where it was, or now.
  function Marked(was: Option<real>, now: real): Option<real> {
    if was.Some? then was else Some(now)
  }

  // What a step leaves of the marks: the one of its own branch is dropped if it moved the frame
  // rate, or the rung with the source's consent, and kept if the source refused; that of the other
  // branch is dropped in any case. Only a move restarts the clock.
  lemma MarksExactly(q: Controller, t: Tick)
    requires Steady(q) && 0 < t.estimate && Undisturbed(q, t)
    ensures var r := Ticked(q, t); var target := Within(t.estimate, q.minBitrate, q.maxBitrate);
      var spent := r.fps != q.fps || (r.rung != q.rung && t.moment.acceptsRung);
      && r.lowSince == (if LowFor(q, target) && !spent then Marked(q.lowSince, t.moment.now) else None)
      && r.highSince == (if !LowFor(q, target) && HighFor(q, target) && !spent
                         then Marked(q.highSince, t.moment.now) else None)
      && (r.fps != q.fps || r.rung != q.rung ==> r.lastChange == t.moment.now)
  {
    var target := Target(q, t.estimate);
    assert target == Within(t.estimate, q.minBitrate, q.maxBitrate);
    var p := TrackBitrate(q, target);
    assert Ticked(q, t) == Adapt(p, target, t.moment);
    assert p == q.(bitrate := p.bitrate, calls := p.calls);
    hide Ticked, TrackBitrate, Target;
    AdaptMarks(p, target, t.moment);
  }

  lemma AdaptMarks(q: Controller, target: int, m: Moment)
    requires Sound(q)
    ensures var r := Adapt(q, target, m); var spent := r.fps != q.fps || (r.rung != q.rung && m.acceptsRung);
      && r.lowSince == (if LowFor(q, target) && !spent then Marked(q.lowSince, m.now) else None)
      && r.highSince == (if !LowFor(q, target) && HighFor(q, target) && !spent
                         then Marked(q.highSince, m.now) else None)
      && (r.fps != q.fps || r.rung != q.rung ==> r.lastChange == m.now)
  {
    hide SizeForRung, LowFor, HighFor;
  }
}
