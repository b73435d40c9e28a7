/** The adaptive quality controller: a timed hysteresis loop over a six-rung ladder of
    stream sizes and a frame rate.

    `Controller` is the value of all its fields; the functions say what one call does to
    that value, and the class below performs the same calls on mutable fields.  Instants
    are seconds on a real line, and one `Update` or `Apply` happens at one instant. */
module QualityController {
  import opened Basics

  datatype Preset = Gaming | Desktop | Balanced | Custom
  datatype Policy = Native | Fit | Fixed | Auto
  datatype Size = Size(width: int, height: int)

  // What the controller told the capture source, with the source's answer to a resize.
  datatype SourceCall =
    | SetBitrate(bps: int)
    | SetFrameRate(fps: int)
    | SetResolution(size: Size, accepted: bool)
    | SetPreset(preset: Preset)

  // What the world contributes to one call: the instant, the size the source reports,
  // and whether it would accept a size for the viewport or policy, and one for a rung.
  datatype Moment = Moment(now: real, reported: Size, acceptsSize: bool, acceptsRung: bool)

  datatype Request = Request(preset: Option<Preset>, policy: Option<Policy>, size: Size,
                             maxFPS: int, maxKbps: int, minKbps: int, adaptive: bool)

  datatype Controller = Controller(
    preset: Preset, policy: Policy, adaptive: bool,
    maxFPS: int, maxBitrate: int, minBitrate: int,
    fixedSize: Size, native: Size,
    bitrate: int, fps: int, rung: nat,
    lastChange: real, lowSince: Option<real>, highSince: Option<real>,
    calls: seq<SourceCall>)

  const RUNG_DWELL: real := 4.0
  const DOWNGRADE_AFTER: real := 1.5
  const UPGRADE_AFTER: real := 6.0
  const UPGRADE_MARGIN: real := 1.35
  const MIN_USABLE_FPS: int := 15
  const MAX_FPS: int := 240
  const LOWEST_RUNG: nat := 5

  // ------------------------------------------------------------------ the ladder

  function MinBitrate(rung: nat): int {
    if rung == 0 then 12_000_000
    else if rung == 1 then 6_000_000
    else if rung == 2 then 3_500_000
    else if rung == 3 then 2_000_000
    else if rung == 4 then 1_000_000
    else 500_000
  }

  function Scale(rung: nat): real {
    if rung == 0 then 1.0
    else if rung == 1 then 0.75
    else if rung == 2 then 0.60
    else if rung == 3 then 0.50
    else if rung == 4 then 0.375
    else 0.30
  }

  // ------------------------------------------------------------------ arithmetic

  function Clamp(value: int, low: int, high: int): int {
    if value < low then low else if value > high then high else value
  }

  function MinInt(a: int, b: int): int { if a < b then a else b }

  function MaxInt(a: int, b: int): int { if a > b then a else b }

  function Abs(v: int): int { if v < 0 then -v else v }

  // Integer division that truncates toward zero.
  function Quotient(a: int, b: int): int
    requires b > 0
  {
    if a >= 0 then a / b else -((-a) / b)
  }

  function Truncate(x: real): int {
    if x >= 0.0 then x.Floor else -(-x).Floor
  }

  function RoundTo16(value: int): int {
    Quotient(value + 8, 16) * 16
  }

  // -------------------------------------------------------------- what calls do

  predicate LowFor(q: Controller, target: int) {
    target < MinBitrate(q.rung)
  }

  predicate HighFor(q: Controller, target: int) {
    q.rung > 0 && target as real > MinBitrate(q.rung - 1) as real * UPGRADE_MARGIN
  }

  function Target(q: Controller, estimate: int): int {
    Clamp(estimate, q.minBitrate, q.maxBitrate)
  }

  function WithFPS(q: Controller, fps: int): Controller {
    var f := Clamp(fps, MIN_USABLE_FPS, MAX_FPS);
    if f == q.fps then q else q.(fps := f, calls := q.calls + [SetFrameRate(f)])
  }

  function Side(native: int, rung: nat, least: int): int {
    MaxInt(RoundTo16(Truncate(native as real * Scale(rung))), least)
  }

  function SizeForRung(q: Controller, rung: nat): Size {
    Size(Side(q.native.width, rung, 320), Side(q.native.height, rung, 180))
  }

  function WithRung(q: Controller, rung: int, m: Moment): Controller {
    var r := Clamp(rung, 0, LOWEST_RUNG);
    if r == q.rung || q.policy.Native? || q.policy.Fixed? then q
    else
      var moved := q.(rung := r, lastChange := m.now,
                      calls := q.calls + [SetResolution(SizeForRung(q, r), m.acceptsRung)]);
      if m.acceptsRung then moved.(lowSince := None, highSince := None) else moved
  }

  function StepDown(q: Controller, m: Moment): Controller {
    if q.preset.Desktop? && q.fps > 30 then
      WithFPS(q, 30).(lastChange := m.now, lowSince := None)
    else if q.rung < LOWEST_RUNG then
      WithRung(q, q.rung + 1, m)
    else if q.fps > MIN_USABLE_FPS then
      WithFPS(q, MaxInt(MIN_USABLE_FPS, Quotient(q.fps, 2))).(lastChange := m.now, lowSince := None)
    else q
  }

  function StepUp(q: Controller, m: Moment): Controller {
    if q.fps < q.maxFPS then
      WithFPS(q, q.maxFPS).(lastChange := m.now, highSince := None)
    else if q.rung > 0 then
      WithRung(q, q.rung - 1, m)
    else q
  }

  function WithViewport(q: Controller, viewport: Size, m: Moment): Controller {
    var size := Size(RoundTo16(MinInt(viewport.width, q.native.width)),
                     RoundTo16(MinInt(viewport.height, q.native.height)));
    if !q.policy.Fit? || viewport.width <= 0 || viewport.height <= 0 then q
    else if m.reported == size || m.now - q.lastChange < RUNG_DWELL then q
    else
      var asked := q.(calls := q.calls + [SetResolution(size, m.acceptsSize)]);
      if m.acceptsSize then asked.(lastChange := m.now) else asked
  }

  function TrackBitrate(q: Controller, target: int): Controller {
    if Abs(target - q.bitrate) > Quotient(q.bitrate, 20) then
      q.(bitrate := target, calls := q.calls + [SetBitrate(target)])
    else q
  }

  // The instant a condition has held since, now that it holds again.
  function Since(mark: Option<real>, now: real): real {
    if mark.None? then now else mark.value
  }

  function Adapt(q: Controller, target: int, m: Moment): Controller {
    if LowFor(q, target) then
      var since := Since(q.lowSince, m.now);
      var noted := q.(highSince := None, lowSince := Some(since));
      if m.now - since >= DOWNGRADE_AFTER && m.now - q.lastChange >= RUNG_DWELL
      then StepDown(noted, m) else noted
    else if HighFor(q, target) then
      var since := Since(q.highSince, m.now);
      var noted := q.(lowSince := None, highSince := Some(since));
      if m.now - since >= UPGRADE_AFTER && m.now - q.lastChange >= RUNG_DWELL
      then StepUp(noted, m) else noted
    else
      q.(lowSince := None, highSince := None)
  }

  function Update(q: Controller, estimate: int, viewport: Option<Size>, m: Moment): Controller {
    var seen := if viewport.Some? then WithViewport(q, viewport.value, m) else q;
    if !seen.adaptive || estimate <= 0 then seen
    else
      var target := Target(seen, estimate);
      Adapt(TrackBitrate(seen, target), target, m)
  }

  function WithPolicy(q: Controller, m: Moment): Controller {
    if q.policy.Native? then
      var asked := q.(calls := q.calls + [SetResolution(q.native, m.acceptsSize)]);
      if m.acceptsSize then asked.(rung := 0) else asked
    else if q.policy.Fixed? && q.fixedSize.width > 0 && q.fixedSize.height > 0 then
      var size := Size(RoundTo16(q.fixedSize.width), RoundTo16(q.fixedSize.height));
      q.(calls := q.calls + [SetResolution(size, m.acceptsSize)])
    else q
  }

  function WithPreset(q: Controller, preset: Option<Preset>): Controller {
    if preset.None? then q
    else q.(preset := preset.value, calls := q.calls + [SetPreset(preset.value)])
  }

  function WithLimits(q: Controller, r: Request): Controller {
    var fps := if r.maxFPS > 0 then Clamp(r.maxFPS, MIN_USABLE_FPS, MAX_FPS) else q.maxFPS;
    var top := if r.maxKbps > 0 then Clamp(r.maxKbps * 1000, 300_000, 200_000_000) else q.maxBitrate;
    var floor := if r.minKbps > 0 then Clamp(r.minKbps * 1000, 100_000, top) else q.minBitrate;
    q.(maxFPS := fps, maxBitrate := top, minBitrate := floor)
  }

  function Requested(q: Controller, r: Request): Controller {
    var a := WithPreset(q, r.preset);
    var b := a.(policy := if r.policy.Some? then r.policy.value else a.policy,
                fixedSize := r.size, adaptive := r.adaptive);
    WithLimits(b, r)
  }

  function Apply(q: Controller, r: Request, m: Moment): Controller {
    var a := Requested(q, r);
    var b := if a.preset.Gaming? then WithFPS(a, a.maxFPS)
             else if a.preset.Desktop? then WithRung(WithFPS(a, MinInt(a.maxFPS, 60)), 0, m)
             else a;
    WithPolicy(b, m)
  }

  // ------------------------------------------------------------ the mutable object

  // Holds of every controller a configured session can reach: the ladder is never left,
  // and frame rates stay within what the source accepts.
  ghost predicate Sound(q: Controller) {
    q.rung <= LOWEST_RUNG && 0 < q.maxFPS <= MAX_FPS && q.fps <= MAX_FPS && 0 <= q.maxBitrate
  }

  class Quality {
    var preset: Preset
    var policy: Policy
    var adaptive: bool
    var maxFPS: int
    var maxBitrate: int
    var minBitrate: int
    var fixedSize: Size
    const native: Size
    var bitrate: int
    var fps: int
    var rung: nat
    var lastChange: real
    var lowSince: Option<real>
    var highSince: Option<real>
    var calls: seq<SourceCall>

    function State(): Controller
      reads this
    {
      Controller(preset, policy, adaptive, maxFPS, maxBitrate, minBitrate, fixedSize, native,
                 bitrate, fps, rung, lastChange, lowSince, highSince, calls)
    }

    constructor (preset: Preset, maxFPS: int, maxBitrate: int, minBitrate: int, startBitrate: int,
                 native: Size, now: real)
      ensures State() == Controller(preset, Auto, true, if maxFPS <= 0 then 60 else maxFPS,
                                    maxBitrate, minBitrate, Size(0, 0), native, startBitrate, maxFPS, 0,
                                    now, None, None, [])
      ensures maxFPS <= MAX_FPS && 0 <= maxBitrate ==> Sound(State())
    {
      this.preset, policy, adaptive := preset, Auto, true;
      this.maxFPS, this.maxBitrate, this.minBitrate := maxFPS, maxBitrate, minBitrate;
      fixedSize, this.native := Size(0, 0), native;
      bitrate, fps, rung := startBitrate, maxFPS, 0;
      lastChange, lowSince, highSince, calls := now, None, None, [];
      new;
      if this.maxFPS <= 0 {
        this.maxFPS := 60;
      }
    }

    method SetFPS(value: int)
      modifies this
      ensures State() == WithFPS(old(State()), value)
    {
      var f := Clamp(value, MIN_USABLE_FPS, MAX_FPS);
      if f == fps {
        return;
      }
      fps := f;
      calls := calls + [SetFrameRate(f)];
    }

    method ApplyRung(value: int, m: Moment)
      modifies this
      ensures State() == WithRung(old(State()), value, m)
    {
      var r := Clamp(value, 0, LOWEST_RUNG);
      if r == rung {
        return;
      }
      if policy.Native? || policy.Fixed? {
        return;
      }
      calls := calls + [SetResolution(SizeForRung(State(), r), m.acceptsRung)];
      if !m.acceptsRung {
        rung := r;
        lastChange := m.now;
        return;
      }
      rung := r;
      lastChange := m.now;
      lowSince := None;
      highSince := None;
    }

    method LowerQuality(m: Moment)
      modifies this
      ensures State() == StepDown(old(State()), m)
    {
      if preset.Desktop? && fps > 30 {
        SetFPS(30);
        lastChange := m.now;
        lowSince := None;
        return;
      }
      if rung < LOWEST_RUNG {
        ApplyRung(rung + 1, m);
        return;
      }
      if fps > MIN_USABLE_FPS {
        SetFPS(MaxInt(MIN_USABLE_FPS, Quotient(fps, 2)));
        lastChange := m.now;
        lowSince := None;
      }
    }

    method RaiseQuality(m: Moment)
      modifies this
      ensures State() == StepUp(old(State()), m)
    {
      if fps < maxFPS {
        SetFPS(maxFPS);
        lastChange := m.now;
        highSince := None;
        return;
      }
      if rung > 0 {
        ApplyRung(rung - 1, m);
      }
    }

    method ConsiderViewport(viewport: Size, m: Moment)
      modifies this
      ensures State() == WithViewport(old(State()), viewport, m)
    {
      if !policy.Fit? || viewport.width <= 0 || viewport.height <= 0 {
        return;
      }
      var size := Size(RoundTo16(MinInt(viewport.width, native.width)),
                       RoundTo16(MinInt(viewport.height, native.height)));
      if m.reported == size {
        return;
      }
      if m.now - lastChange < RUNG_DWELL {
        return;
      }
      calls := calls + [SetResolution(size, m.acceptsSize)];
      if m.acceptsSize {
        lastChange := m.now;
      }
    }

    method Tick(estimate: int, viewport: Option<Size>, m: Moment)
      modifies this
      ensures State() == Update(old(State()), estimate, viewport, m)
    {
      hide WithViewport, Adapt;
      if viewport.Some? {
        ConsiderViewport(viewport.value, m);
      }
      if !adaptive || estimate <= 0 {
        return;
      }
      var target := Clamp(estimate, minBitrate, maxBitrate);
      if Abs(target - bitrate) > Quotient(bitrate, 20) {
        bitrate := target;
        calls := calls + [SetBitrate(target)];
      }
      Adjust(target, m);
    }

    // The second half of an update: which way the target points, and for how long.
    method Adjust(target: int, m: Moment)
      modifies this
      ensures State() == Adapt(old(State()), target, m)
    {
      hide StepDown, StepUp;
      if target < MinBitrate(rung) {
        highSince := None;
        if lowSince.None? {
          lowSince := Some(m.now);
        }
        if m.now - lowSince.value >= DOWNGRADE_AFTER && m.now - lastChange >= RUNG_DWELL {
          LowerQuality(m);
        }
      } else if rung > 0 && target as real > MinBitrate(rung - 1) as real * UPGRADE_MARGIN {
        lowSince := None;
        if highSince.None? {
          highSince := Some(m.now);
        }
        if m.now - highSince.value >= UPGRADE_AFTER && m.now - lastChange >= RUNG_DWELL {
          RaiseQuality(m);
        }
      } else {
        lowSince := None;
        highSince := None;
      }
    }

    method ApplyRequest(r: Request, m: Moment)
      modifies this
      ensures State() == Apply(old(State()), r, m)
    {
      hide WithPolicy, WithRung;
      TakeRequest(r);
      if preset.Gaming? {
        SetFPS(maxFPS);
      } else if preset.Desktop? {
        SetFPS(MinInt(maxFPS, 60));
        ApplyRung(0, m);
      }
      ApplyPolicy(m);
    }

    // The first half of a request: the fields it overwrites.
    method TakeRequest(r: Request)
      modifies this
      ensures State() == Requested(old(State()), r)
    {
      hide WithLimits;
      if r.preset.Some? {
        preset := r.preset.value;
        calls := calls + [SetPreset(preset)];
      }
      if r.policy.Some? {
        policy := r.policy.value;
      }
      fixedSize, adaptive := r.size, r.adaptive;
      TakeLimits(r);
    }

    method TakeLimits(r: Request)
      modifies this
      ensures State() == WithLimits(old(State()), r)
    {
      hide Clamp;
      if r.maxFPS > 0 {
        maxFPS := Clamp(r.maxFPS, MIN_USABLE_FPS, MAX_FPS);
      }
      if r.maxKbps > 0 {
        maxBitrate := Clamp(r.maxKbps * 1000, 300_000, 200_000_000);
      }
      if r.minKbps > 0 {
        minBitrate := Clamp(r.minKbps * 1000, 100_000, maxBitrate);
      }
    }

    method ApplyPolicy(m: Moment)
      modifies this
      ensures State() == WithPolicy(old(State()), m)
    {
      if policy.Native? {
        calls := calls + [SetResolution(native, m.acceptsSize)];
        if m.acceptsSize {
          rung := 0;
        }
      } else if policy.Fixed? && fixedSize.width > 0 && fixedSize.height > 0 {
        var size := Size(RoundTo16(fixedSize.width), RoundTo16(fixedSize.height));
        calls := calls + [SetResolution(size, m.acceptsSize)];
      }
    }
  }
}
