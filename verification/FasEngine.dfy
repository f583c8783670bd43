/**
 * The FAS controller: frame intervals are averaged over windows, a calibration phase fixes the base
 * interval of a game, and from then on the engine moves between stable and degraded. Clock readings
 * are parameters in milliseconds, and floating point is modelled by reals.
 */
module FasEngine {
  import opened Numbers

  const FRAME_HISTORY_MAX: nat := 1440
  const FRESH_FRAME_MAX_AGE_MS: int := 250
  const USABLE_WARMUP_MS: int := 1000
  const CALIB_MS: int := 2500
  const CALIB_MIN_INTERVAL_MS: real := 50.0
  const CALIB_MAX_WAIT_MS: int := 20000
  const UNUSABLE_RESET_MS: int := 2000
  const CALIB_MIN_FRAMES: nat := 20
  const CALIB_MAX_SAMPLES: nat := 256
  const FPS_TOLERANCE: real := 1.2
  const DEGRADE_HOLD_MS: int := 150
  const SLOW_DROP_INTERVAL_MS: int := 200
  const SLOW_DROP_SCALE: real := 0.92
  const RAISE_MARGIN: real := 1.04
  const UPSHIFT_DETECT_FPS: int := 2
  const UPSHIFT_HOLD_MS: int := 500
  const SCENE_HEAVY_HOLD_MS: int := 3000
  const OCCUPANCY_RAISE_SCALE: real := 1.15

  datatype Phase = Unknown | Calibrating | Stable | Degraded

  datatype Config = Config(quickDrop: bool, conservative: int, reportThreadState: bool, upscaleOccupancy: int)

  datatype Engine = Engine(
    config: Config,
    frames: seq<real>,
    lastUpdateMs: int,
    package: string,
    usable: bool,
    usableSinceMs: int,
    phase: Phase,
    phaseSinceMs: int,
    calib: seq<real>,
    calibSinceMs: int,
    base: real,
    stableFps: int,
    degradeSinceMs: int,
    upshiftSinceMs: int,
    upshiftFps: int,
    lastDropMs: int,
    unusableSinceMs: int,
    busy: int)

  /** The part of FasOutput that the executor acts on. */
  datatype Output = Output(
    phase: Phase,
    usable: bool,
    freqScale: real,
    dropToFloor: bool,
    holdSweetspot: bool,
    occRaise: bool,
    stableFps: int,
    currentFps: int)

  function Quiet(): Output {
    Output(Unknown, false, 1.0, false, false, false, 0, 0)
  }

  /** fas_engine_init with a loaded configuration. */
  function Init(config: Config): Engine {
    Engine(config, [], 0, "", false, 0, Unknown, 0, [], 0, 0.0, 0, 0, 0, 0, 0, 0, -1)
  }

  // ---- Numbers ----

  function FpsFromInterval(ms: real): int {
    if ms <= 0.01 then 0
    else
      var fps := 1000.0 / ms;
      var low := if fps < 1.0 then 1.0 else fps;
      ((if low > 1000.0 then 1000.0 else low) + 0.5).Floor
  }

  function CalcFps(avg: real): int {
    if avg <= 0.0 then 0 else (1000.0 / avg + 0.5).Floor
  }

  function Sum(s: seq<real>): real {
    if s == [] then 0.0 else Sum(s[..|s| - 1]) + s[|s| - 1]
  }

  /** The mean of the newest n frames. */
  function Average(frames: seq<real>, n: int): real
    requires 0 < n <= |frames|
  {
    Sum(frames[|frames| - n..]) / n as real
  }

  predicate Ascending(s: seq<real>) {
    forall i, j :: 0 <= i < j < |s| ==> s[i] <= s[j]
  }

  /** x put where it belongs in an ascending sequence. */
  function Insert(s: seq<real>, x: real): (r: seq<real>)
    ensures multiset(r) == multiset(s) + multiset{x} && |r| == |s| + 1
  {
    if s == [] || s[|s| - 1] <= x then s + [x]
    else
      var n := |s| - 1;
      assert s == s[..n] + [s[n]];
      Insert(s[..n], x) + [s[n]]
  }

  function Sort(s: seq<real>): (r: seq<real>)
    ensures multiset(r) == multiset(s) && |r| == |s|
  {
    if s == [] then []
    else
      assert s == s[..|s| - 1] + [s[|s| - 1]];
      Insert(Sort(s[..|s| - 1]), s[|s| - 1])
  }

  /** The middle of the sorted values, or the mean of the two middle ones; zero when there are none. */
  function Median(values: seq<real>): real {
    var n := |values|;
    if n == 0 then 0.0
    else if n % 2 == 1 then Sort(values)[n / 2]
    else (Sort(values)[n / 2 - 1] + Sort(values)[n / 2]) * 0.5
  }

  // ---- The frame buffer ----

  predicate ValidInterval(ms: real) {
    1.0 <= ms <= 500.0
  }

  function BufferPush(frames: seq<real>, ms: real): seq<real> {
    if !ValidInterval(ms) then frames
    else if |frames| < FRAME_HISTORY_MAX then frames + [ms]
    else frames[1..] + [ms]
  }

  function Trim(frames: seq<real>, fps: int): seq<real> {
    var want := (if fps > 0 then fps else 144) * 5;
    var keep := if want > FRAME_HISTORY_MAX then FRAME_HISTORY_MAX else want;
    if |frames| <= keep then frames else frames[|frames| - keep..]
  }

  /** fas_engine_push_frame. */
  function PushFrame(e: Engine, intervalNs: int, now: int): Engine {
    var ms := intervalNs as real / 1_000_000.0;
    e.(frames := Trim(BufferPush(e.frames, ms), if e.stableFps > 0 then e.stableFps else 120), lastUpdateMs := now)
  }

  function SetThreadUsage(e: Engine, busy: int): Engine {
    e.(busy := if busy < 0 then -1 else if busy > 100 then 100 else busy)
  }

  /** fas_engine_on_app_change. */
  function AppChange(e: Engine, package: string, now: int): Engine {
    Init(e.config).(package := package, usableSinceMs := now)
  }

  // ---- The snapshot ----

  datatype Snapshot = Snapshot(avgShort: real, fpsLong: int, usable: bool)

  function ShortCount(fps: int): int {
    var n := if fps > 0 then fps / 10 else 12;
    if fps <= 0 then 12 else if n < 8 then 8 else if n > 18 then 18 else n
  }

  predicate Fresh(e: Engine, now: int) {
    (if e.lastUpdateMs > 0 then now - e.lastUpdateMs else 0) <= FRESH_FRAME_MAX_AGE_MS
  }

  predicate WarmedUp(e: Engine, now: int) {
    e.usable || (if e.usableSinceMs > 0 then now - e.usableSinceMs else 0) >= USABLE_WARMUP_MS
  }

  function TakeSnapshot(e: Engine, now: int): Snapshot
    requires e.frames != []
  {
    var n := |e.frames|;
    var avgShort := Average(e.frames, Min(ShortCount(if e.stableFps > 0 then e.stableFps else 120), n));
    var avgLong := Average(e.frames, Min(n, 60));
    Snapshot(avgShort, CalcFps(avgLong), n >= 6 && avgLong > 0.0 && Fresh(e, now) && WarmedUp(e, now))
  }

  // ---- The phases ----

  function EnterPhase(e: Engine, phase: Phase, now: int): Engine {
    var e' := e.(phase := phase, phaseSinceMs := now);
    if phase == Stable then e'.(degradeSinceMs := 0, upshiftSinceMs := 0, lastDropMs := now) else e'
  }

  function Calibrate(e: Engine, avgShort: real, now: int): Engine {
    var since := if e.calibSinceMs <= 0 then now else e.calibSinceMs;
    var calib := if |e.calib| < CALIB_MAX_SAMPLES then e.calib + [avgShort] else e.calib;
    var e' := e.(calibSinceMs := since, calib := calib);
    if now - since < CALIB_MS || |calib| < CALIB_MIN_FRAMES then e'
    else
      var med := Median(calib);
      if med > CALIB_MIN_INTERVAL_MS && now - since < CALIB_MAX_WAIT_MS then e'.(calibSinceMs := now, calib := [])
      else if med > 0.5 then EnterPhase(e'.(base := med, stableFps := FpsFromInterval(med)), Stable, now)
      else e'.(calibSinceMs := now, calib := [])
  }

  /** A frame rate more than the tolerance below the base. */
  predicate Under(e: Engine, fps: int) {
    (fps as real) < e.stableFps as real - FPS_TOLERANCE
  }

  function DegradeHold(config: Config): int {
    DEGRADE_HOLD_MS * (if config.conservative > 1 then config.conservative else 1)
  }

  /** The stable phase looks for a fallen or a raised frame rate. */
  function WatchStable(e: Engine, s: Snapshot, now: int): Engine {
    if Under(e, s.fpsLong) then
      var since := if e.degradeSinceMs <= 0 then now else e.degradeSinceMs;
      var e' := e.(degradeSinceMs := since);
      if now - since >= DegradeHold(e.config) then EnterPhase(e', Degraded, now).(degradeSinceMs := 0) else e'
    else
      var e' := e.(degradeSinceMs := 0);
      if s.fpsLong < e.stableFps + UPSHIFT_DETECT_FPS then e'.(upshiftSinceMs := 0, upshiftFps := 0)
      else if e.upshiftSinceMs <= 0 || e.upshiftFps != s.fpsLong then
        e'.(upshiftSinceMs := now, upshiftFps := s.fpsLong)
      else if now - e.upshiftSinceMs < UPSHIFT_HOLD_MS then e'
      else
        var med := Median(e.calib);
        var newMed := if med <= 0.5 || s.avgShort < med then s.avgShort else med;
        var e'' := e'.(upshiftSinceMs := 0, upshiftFps := 0);
        if FpsFromInterval(newMed) > e.stableFps then
          e''.(base := newMed, stableFps := FpsFromInterval(newMed), calib := [])
        else e''
  }

  predicate OccTrigger(e: Engine) {
    e.config.reportThreadState && e.config.upscaleOccupancy > 0 && e.busy >= 0 && e.busy >= e.config.upscaleOccupancy
  }

  predicate SlowDropDue(e: Engine, now: int) {
    !e.config.quickDrop && now - e.lastDropMs >= SLOW_DROP_INTERVAL_MS
  }

  /** What a stable engine puts out: straight to the floor, or a slow step down when one is due. */
  function StableOutput(e: Engine, fps: int, now: int): (Engine, Output) {
    var drop := SlowDropDue(e, now);
    var scale := if drop then SLOW_DROP_SCALE else 1.0;
    var raised := if OccTrigger(e) && scale < OCCUPANCY_RAISE_SCALE then OCCUPANCY_RAISE_SCALE else scale;
    (if drop then e.(lastDropMs := now) else e,
     Output(Stable, true, raised, e.config.quickDrop, false, OccTrigger(e), e.stableFps, fps))
  }

  function RaiseScale(avgShort: real, base: real): real
    requires base != 0.0
  {
    var scale := avgShort / base;
    (if scale < 1.0 then 1.0 else if scale > 4.0 then 4.0 else scale) * RAISE_MARGIN
  }

  /** The degraded phase recovers, accepts a slower scene after three seconds, or raises in proportion. */
  function DegradedTick(e: Engine, s: Snapshot, now: int): (Engine, Output)
    requires e.base != 0.0
  {
    var out := Output(Stable, true, 1.0, false, false, false, e.stableFps, s.fpsLong);
    if s.fpsLong as real >= e.stableFps as real - FPS_TOLERANCE * 0.5 then (EnterPhase(e, Stable, now), out)
    else if now - e.phaseSinceMs >= SCENE_HEAVY_HOLD_MS then
      (EnterPhase(e.(base := s.avgShort, stableFps := FpsFromInterval(s.avgShort), calib := []), Stable, now), out)
    else (e, out.(phase := Degraded, freqScale := RaiseScale(s.avgShort, e.base)))
  }

  /** The baseline is missing outside calibration. */
  predicate LostBase(e: Engine) {
    e.stableFps <= 0 || e.base <= 0.0
  }

  /** A tick on which frames are usable. */
  function UsableTick(e: Engine, s: Snapshot, now: int): (Engine, Output) {
    var e0 := if e.phase == Unknown then EnterPhase(e, Calibrating, now).(calib := [], calibSinceMs := now) else e;
    if e0.phase == Calibrating then
      (Calibrate(e0, s.avgShort, now),
        Quiet().(phase := Calibrating, usable := true, holdSweetspot := true, currentFps := s.fpsLong))
    else if LostBase(e0) then
      (EnterPhase(e0, Calibrating, now).(calib := [], calibSinceMs := now),
       Quiet().(phase := Calibrating, usable := true, holdSweetspot := true, currentFps := s.fpsLong))
    else
      var e1 := if e0.phase == Stable then WatchStable(e0, s, now) else e0;
      if e1.phase == Stable then StableOutput(e1, s.fpsLong, now) else DegradedTick(e1, s, now)
  }

  /** A tick without usable frames: the baseline survives two seconds of it. */
  function UnusableTick(e: Engine, now: int): Engine {
    var since := if e.unusableSinceMs <= 0 then now else e.unusableSinceMs;
    var e' := e.(unusableSinceMs := since);
    if e.phase != Unknown && now - since >= UNUSABLE_RESET_MS then
      e'.(phase := Unknown, calib := [], base := 0.0, stableFps := 0)
    else e'
  }

  predicate HasFrames(e: Engine) {
    e.package != "" && e.frames != []
  }

  /** The engine as the phases see it: the usable state is refreshed first. */
  function Refresh(e: Engine, usable: bool, now: int): Engine {
    if e.usable != usable then e.(usable := usable, usableSinceMs := now) else e
  }

  /** fas_engine_tick. */
  function Tick(e: Engine, now: int): (Engine, Output) {
    if !HasFrames(e) then (e, Quiet())
    else
      var s := TakeSnapshot(e, now);
      var e' := Refresh(e, s.usable, now);
      if s.usable then UsableTick(e'.(unusableSinceMs := 0), s, now)
      else (UnusableTick(e', now), Quiet())
  }

  // ---- The baseline ----

  predicate Intervals(s: seq<real>) {
    forall x :: x in s ==> ValidInterval(x)
  }

  /** What every engine keeps: a baseline exactly in the stable and degraded phases, and a sane one. */
  predicate EngineOk(e: Engine) {
    && Intervals(e.frames) && |e.frames| <= FRAME_HISTORY_MAX
    && Intervals(e.calib) && |e.calib| <= CALIB_MAX_SAMPLES
    && (e.phase in {Stable, Degraded} ==> ValidInterval(e.base) && e.stableFps == FpsFromInterval(e.base))
    && (e.phase in {Unknown, Calibrating} ==> e.base == 0.0 && e.stableFps == 0)
  }

  lemma DivBounds(x: real, n: int, lo: real, hi: real)
    requires n > 0 && lo * n as real <= x <= hi * n as real
    ensures lo <= x / n as real <= hi
  {
    var q := x / n as real;
    assert q * n as real == x;
    if q < lo {
      MulLess(q, lo, n as real);
    }
    if q > hi {
      MulLess(hi, q, n as real);
    }
  }

  lemma MulLess(a: real, b: real, c: real)
    requires a < b && c > 0.0
    ensures a * c < b * c
  {
  }

  lemma {:induction false} SumBounds(s: seq<real>)
    requires Intervals(s)
    ensures |s| as real <= Sum(s) <= 500.0 * |s| as real
  {
    if s != [] {
      var n := |s| - 1;
      SumBounds(s[..n]);
      assert s[n] in s;
    }
  }

  lemma AverageBounds(frames: seq<real>, n: int)
    requires Intervals(frames) && 0 < n <= |frames|
    ensures ValidInterval(Average(frames, n))
  {
    SumBounds(frames[|frames| - n..]);
    DivBounds(Sum(frames[|frames| - n..]), n, 1.0, 500.0);
  }

  lemma AppendAscends(s: seq<real>, x: real)
    requires Ascending(s) && forall v :: v in s ==> v <= x
    ensures Ascending(s + [x])
  {
    forall i | 0 <= i < |s| ensures s[i] <= x {
      assert s[i] in s;
    }
  }

  lemma {:induction false} InsertAscends(s: seq<real>, x: real)
    requires Ascending(s)
    ensures Ascending(Insert(s, x))
  {
    if s == [] || s[|s| - 1] <= x {
      forall v | v in s ensures v <= x {
        assert v <= s[|s| - 1];
      }
      AppendAscends(s, x);
    } else {
      var n := |s| - 1;
      InsertAscends(s[..n], x);
      forall v | v in Insert(s[..n], x) ensures v <= s[n] {
        assert v in multiset(s[..n]) + multiset{x};
      }
      AppendAscends(Insert(s[..n], x), s[n]);
    }
  }

  /** Sorting sorts; that it permutes is in its own contract. */
  lemma {:induction false} SortAscends(s: seq<real>)
    ensures Ascending(Sort(s))
  {
    if s != [] {
      SortAscends(s[..|s| - 1]);
      InsertAscends(Sort(s[..|s| - 1]), s[|s| - 1]);
    }
  }

  /** How many values are at most x. */
  function AtMost(s: seq<real>, x: real): nat {
    if s == [] then 0 else AtMost(s[..|s| - 1], x) + (if s[|s| - 1] <= x then 1 else 0)
  }

  /** How many values are at least x. */
  function AtLeast(s: seq<real>, x: real): nat {
    if s == [] then 0 else AtLeast(s[..|s| - 1], x) + (if s[|s| - 1] >= x then 1 else 0)
  }

  lemma CountsSnoc(s: seq<real>, y: real, x: real)
    ensures AtMost(s + [y], x) == AtMost(s, x) + (if y <= x then 1 else 0)
    ensures AtLeast(s + [y], x) == AtLeast(s, x) + (if y >= x then 1 else 0)
  {
    assert (s + [y])[..|s|] == s;
  }

  lemma {:induction false} InsertCounts(s: seq<real>, y: real, x: real)
    ensures AtMost(Insert(s, y), x) == AtMost(s, x) + (if y <= x then 1 else 0)
    ensures AtLeast(Insert(s, y), x) == AtLeast(s, x) + (if y >= x then 1 else 0)
  {
    hide AtMost, AtLeast;
    if s == [] || s[|s| - 1] <= y {
      CountsSnoc(s, y, x);
    } else {
      var n := |s| - 1;
      InsertCounts(s[..n], y, x);
      CountsSnoc(Insert(s[..n], y), s[n], x);
      CountsSnoc(s[..n], s[n], x);
      assert s == s[..n] + [s[n]];
    }
  }

  lemma {:induction false} SortCounts(s: seq<real>, x: real)
    ensures AtMost(Sort(s), x) == AtMost(s, x) && AtLeast(Sort(s), x) == AtLeast(s, x)
  {
    if s != [] {
      SortCounts(s[..|s| - 1], x);
      InsertCounts(Sort(s[..|s| - 1]), s[|s| - 1], x);
    }
  }

  lemma {:induction false} AscendingCounts(s: seq<real>, k: nat, x: real)
    requires Ascending(s) && k < |s|
    ensures s[k] <= x ==> AtMost(s, x) >= k + 1
    ensures s[k] >= x ==> AtLeast(s, x) >= |s| - k
  {
    var n := |s| - 1;
    if k < n {
      AscendingCounts(s[..n], k, x);
    } else if n > 0 {
      AscendingCounts(s[..n], n - 1, x);
    }
  }

  /** At least half of the values are at most the median, and at least half are at least it. */
  lemma MedianSplits(values: seq<real>)
    requires values != []
    ensures 2 * AtMost(values, Median(values)) >= |values| && 2 * AtLeast(values, Median(values)) >= |values|
  {
    var n, med, sorted := |values|, Median(values), Sort(values);
    SortAscends(values);
    SortCounts(values, med);
    hide Sort, Insert, AtMost, AtLeast;
    if n % 2 == 1 {
      AscendingCounts(sorted, n / 2, med);
    } else {
      assert sorted[n / 2 - 1] <= sorted[n / 2];
      assert sorted[n / 2 - 1] <= med <= sorted[n / 2];
      AscendingCounts(sorted, n / 2 - 1, med);
      AscendingCounts(sorted, n / 2, med);
    }
  }

  lemma MedianBounds(values: seq<real>)
    requires Intervals(values) && values != []
    ensures ValidInterval(Median(values))
  {
    var sorted := Sort(values);
    forall i | 0 <= i < |sorted| ensures ValidInterval(sorted[i]) {
      assert sorted[i] in multiset(sorted);
      assert sorted[i] in values;
    }
  }

  lemma FpsBounds(ms: real)
    requires ValidInterval(ms)
    ensures 2 <= FpsFromInterval(ms) <= 1000
  {
    var fps := 1000.0 / ms;
    assert fps * ms == 1000.0;
    if fps < 2.0 {
      MulLess(fps, 2.0, ms);
    }
    if fps > 1000.0 {
      MulLess(1000.0, fps, ms);
    }
  }

  lemma SnapshotBounds(e: Engine, now: int)
    requires Intervals(e.frames) && e.frames != []
    ensures ValidInterval(TakeSnapshot(e, now).avgShort)
  {
    var n := |e.frames|;
    AverageBounds(e.frames, Min(ShortCount(if e.stableFps > 0 then e.stableFps else 120), n));
  }

  lemma PushKeeps(e: Engine, intervalNs: int, now: int)
    requires EngineOk(e)
    ensures EngineOk(PushFrame(e, intervalNs, now)) && PushFrame(e, intervalNs, now).config == e.config
  {
    var ms := intervalNs as real / 1_000_000.0;
    var pushed := BufferPush(e.frames, ms);
    assert Intervals(pushed) by {
      forall x | x in pushed ensures ValidInterval(x) {
        assert x in e.frames || x == ms;
      }
    }
  }

  lemma CalibrateKeeps(e: Engine, avgShort: real, now: int)
    requires EngineOk(e) && ValidInterval(avgShort) && e.phase == Calibrating
    ensures EngineOk(Calibrate(e, avgShort, now)) && Calibrate(e, avgShort, now).config == e.config
  {
    var calib := if |e.calib| < CALIB_MAX_SAMPLES then e.calib + [avgShort] else e.calib;
    assert Intervals(calib);
    MedianBounds(calib);
  }

  lemma WatchKeeps(e: Engine, s: Snapshot, now: int)
    requires EngineOk(e) && ValidInterval(s.avgShort) && e.phase == Stable
    ensures var e' := WatchStable(e, s, now);
            EngineOk(e') && e'.phase in {Stable, Degraded} && e'.config == e.config
              && (e'.phase == Degraded ==> e'.base == e.base)
  {
    if e.calib != [] {
      MedianBounds(e.calib);
    }
  }

  lemma TickKeeps(e: Engine, now: int)
    requires EngineOk(e)
    ensures EngineOk(Tick(e, now).0) && Tick(e, now).0.config == e.config
  {
    hide FpsFromInterval, Median, RaiseScale, Calibrate, WatchStable;
    if HasFrames(e) {
      var s := TakeSnapshot(e, now);
      SnapshotBounds(e, now);
      hide TakeSnapshot;
      if s.usable {
        var e1 := Refresh(e, true, now).(unusableSinceMs := 0);
        if e1.phase == Stable {
          WatchKeeps(e1, s, now);
          FpsBounds(e1.base);
        } else if e1.phase == Degraded {
          FpsBounds(e1.base);
        } else {
          var entered := EnterPhase(e1, Calibrating, now).(calib := [], calibSinceMs := now);
          var e2 := if e1.phase == Unknown then entered else e1;
          CalibrateKeeps(e2, s.avgShort, now);
        }
      }
    }
  }

  // ---- Runs ----

  datatype Event =
    | Frame(intervalNs: int, at: int)
    | App(package: string, at: int)
    | Usage(busy: int, at: int)
    | Clock(at: int)

  function Next(e: Engine, ev: Event): Engine {
    match ev
    case Frame(ns, at) => PushFrame(e, ns, at)
    case App(package, at) => AppChange(e, package, at)
    case Usage(busy, _) => SetThreadUsage(e, busy)
    case Clock(at) => Tick(e, at).0
  }

  /** A run under a positive clock that never goes back. */
  predicate Run(states: seq<Engine>, events: seq<Event>) {
    && |states| == |events| + 1
    && states[0] == Init(states[0].config)
    && (forall i :: 0 <= i < |events| ==> states[i + 1] == Next(states[i], events[i]) && events[i].at >= 1)
    && (forall i, j :: 0 <= i < j < |events| ==> events[i].at <= events[j].at)
  }

  lemma {:induction false} RunKeeps(states: seq<Engine>, events: seq<Event>, n: nat)
    requires Run(states, events) && n <= |events|
    ensures EngineOk(states[n]) && states[n].config == states[0].config
  {
    if n > 0 {
      hide Next, EngineOk;
      RunKeeps(states, events, n - 1);
      NextKeeps(states[n - 1], events[n - 1]);
      assert states[n - 1 + 1] == Next(states[n - 1], events[n - 1]);
    } else {
      assert EngineOk(Init(states[0].config));
    }
  }

  lemma NextKeeps(e: Engine, ev: Event)
    requires EngineOk(e)
    ensures EngineOk(Next(e, ev)) && Next(e, ev).config == e.config
  {
    hide Tick, PushFrame;
    match ev {
      case Frame(ns, at) => PushKeeps(e, ns, at);
      case Clock(at) => TickKeeps(e, at);
      case _ =>
    }
  }

  /** In every run a stable or degraded engine has a base interval of 1 to 500 ms and the frame rate of it. */
  lemma BaselineInvariant(states: seq<Engine>, events: seq<Event>, n: nat)
    requires Run(states, events) && n <= |events| && states[n].phase in {Stable, Degraded}
    ensures 1.0 <= states[n].base <= 500.0
    ensures states[n].stableFps == FpsFromInterval(states[n].base) && 2 <= states[n].stableFps <= 1000
  {
    RunKeeps(states, events, n);
    FpsBounds(states[n].base);
  }

  // ---- One tick, phase by phase ----

  predicate UsableAt(e: Engine, now: int) {
    HasFrames(e) && TakeSnapshot(e, now).usable
  }

  predicate UnderAt(e: Engine, now: int) {
    UsableAt(e, now) && Under(e, TakeSnapshot(e, now).fpsLong)
  }

  /** In whole frames per second the tolerance of 1.2 means two below the base. */
  lemma UnderMeans(e: Engine, fps: int)
    ensures Under(e, fps) <==> fps <= e.stableFps - 2
  {
  }

  /** The fields that only the phases change. */
  predicate SameEpisode(e: Engine, e': Engine) {
    e'.phase == e.phase && e'.phaseSinceMs == e.phaseSinceMs && e'.base == e.base && e'.stableFps == e.stableFps
  }

  lemma UnusableStep(e: Engine, now: int)
    requires !UsableAt(e, now)
    ensures var e' := Tick(e, now).0;
            e'.phase == Unknown
            || (SameEpisode(e, e') && e'.degradeSinceMs == e.degradeSinceMs && e'.lastDropMs == e.lastDropMs)
    ensures Tick(e, now).1 == Quiet()
  {
  }

  lemma StableStep(e: Engine, now: int)
    requires EngineOk(e) && e.phase == Stable && UsableAt(e, now)
    ensures var e' := Tick(e, now).0;
            var since := if e.degradeSinceMs <= 0 then now else e.degradeSinceMs;
            var under := UnderAt(e, now);
            && (under && now - since >= DegradeHold(e.config) ==>
                  e'.phase == Degraded && e'.phaseSinceMs == now && Tick(e, now).1.phase == Degraded
                  && e'.base == e.base && e'.stableFps == e.stableFps)
            && (under && now - since < DegradeHold(e.config) ==> SameEpisode(e, e') && e'.degradeSinceMs == since)
            && (!under ==> e'.phase == Stable && e'.phaseSinceMs == e.phaseSinceMs && e'.degradeSinceMs == 0
                           && e'.stableFps >= e.stableFps)
            && (e'.phase == Stable ==>
                  e'.lastDropMs == if SlowDropDue(e, now) then now else e.lastDropMs)
            && (e'.phase == Stable ==> Tick(e, now).1.phase == Stable)
  {
    hide TakeSnapshot, FpsFromInterval, Median, EngineOk;
    StableHasBase(e);
  }

  lemma StableHasBase(e: Engine)
    requires EngineOk(e) && e.phase in {Stable, Degraded}
    ensures !LostBase(e)
  {
    FpsBounds(e.base);
  }

  lemma DegradedStep(e: Engine, now: int)
    requires EngineOk(e) && e.phase == Degraded && UsableAt(e, now)
    ensures var e' := Tick(e, now).0;
            || (SameEpisode(e, e') && now - e.phaseSinceMs < SCENE_HEAVY_HOLD_MS && Tick(e, now).1.phase == Degraded)
            || (e'.phase == Stable && e'.phaseSinceMs == now == e'.lastDropMs && e'.degradeSinceMs == 0
                && Tick(e, now).1.phase == Stable)
  {
    hide TakeSnapshot, FpsFromInterval, EngineOk, RaiseScale;
    StableHasBase(e);
  }

  lemma CalibratingStep(e: Engine, now: int)
    requires EngineOk(e) && e.phase in {Unknown, Calibrating} && UsableAt(e, now)
    ensures var e' := Tick(e, now).0;
            e'.phase == Calibrating
            || (e'.phase == Stable && e'.phaseSinceMs == now == e'.lastDropMs && e'.degradeSinceMs == 0)
    ensures Tick(e, now).1.phase == Calibrating
  {
    hide TakeSnapshot, FpsFromInterval, Median, EngineOk;
  }

  lemma OtherSteps(e: Engine, ev: Event)
    requires !ev.Clock?
    ensures ev.App? ==> Next(e, ev).phase == Unknown
    ensures !ev.App? ==> SameEpisode(e, Next(e, ev)) && Next(e, ev).degradeSinceMs == e.degradeSinceMs
                         && Next(e, ev).lastDropMs == e.lastDropMs
  {
  }

  // ---- A switch to degraded ----

  /** Frame and usage events, unusable ticks and ticks under the base, all in one episode from m on. */
  predicate UnderFrom(states: seq<Engine>, events: seq<Event>, m: nat, n: nat) {
    && m < n <= |events| && |states| == |events| + 1
    && events[m].Clock? && UnderAt(states[m], events[m].at)
    && (forall j :: m <= j < n ==>
          && !events[j].App?
          && SameEpisode(states[m], states[j])
          && (events[j].Clock? && UsableAt(states[j], events[j].at) ==> UnderAt(states[j], events[j].at)))
  }

  /** The candidate time of a stable engine is where an unbroken run of under-ticks began. */
  ghost predicate Candidate(states: seq<Engine>, events: seq<Event>, n: nat)
    requires n < |states|
  {
    states[n].phase == Stable && states[n].degradeSinceMs > 0 ==>
      exists m: nat :: m < n && UnderFrom(states, events, m, n) && events[m].at == states[n].degradeSinceMs
                  && SameEpisode(states[m], states[n])
  }

  lemma UnderFromMore(states: seq<Engine>, events: seq<Event>, m: nat, n: nat)
    requires UnderFrom(states, events, m, n) && n < |events| && SameEpisode(states[m], states[n])
    requires !events[n].App?
    requires events[n].Clock? && UsableAt(states[n], events[n].at) ==> UnderAt(states[n], events[n].at)
    ensures UnderFrom(states, events, m, n + 1)
  {
  }

  lemma UnderFromHere(states: seq<Engine>, events: seq<Event>, n: nat)
    requires |states| == |events| + 1 && n < |events|
    requires events[n].Clock? && UnderAt(states[n], events[n].at)
    ensures UnderFrom(states, events, n, n + 1)
  {
  }

  lemma {:induction false} CandidateKept(states: seq<Engine>, events: seq<Event>, n: nat)
    requires Run(states, events) && n <= |events| && |states| == |events| + 1
    ensures Candidate(states, events, n)
  {
    hide Run, Next, Candidate;
    if n == 0 {
      NoCandidate(states, events);
    } else {
      CandidateKept(states, events, n - 1);
      CandidateStep(states, events, n - 1);
    }
  }

  lemma NoCandidate(states: seq<Engine>, events: seq<Event>)
    requires Run(states, events)
    ensures Candidate(states, events, 0)
  {
  }

  lemma CandidateStep(states: seq<Engine>, events: seq<Event>, n: nat)
    requires Run(states, events) && n < |events| && Candidate(states, events, n)
    ensures Candidate(states, events, n + 1)
  {
    hide Tick, PushFrame, AppChange, EngineOk, UsableAt, UnderAt, UnderFrom;
    var e, ev, e' := states[n], events[n], states[n + 1];
    RunKeeps(states, events, n);
    if e'.phase == Stable && e'.degradeSinceMs > 0 {
      StepIntoCandidate(e, ev);
      if e.degradeSinceMs > 0 {
        var m: nat :| m < n && UnderFrom(states, events, m, n) && events[m].at == e.degradeSinceMs
          && SameEpisode(states[m], e);
        UnderFromMore(states, events, m, n);
      } else {
        UnderFromHere(states, events, n);
      }
    }
  }

  /** The ways for a step to leave a stable engine with a candidate. */
  lemma StepIntoCandidate(e: Engine, ev: Event)
    requires EngineOk(e) && ev.at >= 1
    requires Next(e, ev).phase == Stable && Next(e, ev).degradeSinceMs > 0
    ensures e.phase == Stable && !ev.App? && SameEpisode(e, Next(e, ev))
    ensures ev.Clock? && UsableAt(e, ev.at) ==> UnderAt(e, ev.at)
    ensures if e.degradeSinceMs > 0 then Next(e, ev).degradeSinceMs == e.degradeSinceMs
            else ev.Clock? && UnderAt(e, ev.at) && Next(e, ev).degradeSinceMs == ev.at
  {
    hide Tick, EngineOk, UsableAt;
    if !ev.Clock? {
      OtherSteps(e, ev);
    } else if !UsableAt(e, ev.at) {
      UnusableStep(e, ev.at);
    } else if e.phase == Stable {
      StableStep(e, ev.at);
    } else if e.phase == Degraded {
      DegradedStep(e, ev.at);
    } else {
      CalibratingStep(e, ev.at);
    }
  }

  /**
   * A stable engine turns degraded only at the end of an unbroken run of usable ticks at least 2 fps
   * below an unchanged base, which spans the hold time.
   */
  lemma DegradeNeedsHold(states: seq<Engine>, events: seq<Event>, n: nat)
    requires Run(states, events) && n < |events|
    requires states[n].phase == Stable && states[n + 1].phase == Degraded
    ensures exists m: nat :: m <= n && UnderFrom(states, events, m, n + 1)
                        && events[n].at - events[m].at >= DegradeHold(states[0].config)
  {
    hide Tick, PushFrame, AppChange, EngineOk, UsableAt, UnderAt, UnderFrom;
    var e, ev := states[n], events[n];
    RunKeeps(states, events, n);
    CandidateKept(states, events, n);
    StepIntoDegraded(e, ev);
    if e.degradeSinceMs > 0 {
      var m: nat :| m < n && UnderFrom(states, events, m, n) && events[m].at == e.degradeSinceMs
        && SameEpisode(states[m], e);
      UnderFromMore(states, events, m, n);
    } else {
      UnderFromHere(states, events, n);
    }
  }

  lemma StepIntoDegraded(e: Engine, ev: Event)
    requires EngineOk(e) && e.phase == Stable && Next(e, ev).phase == Degraded
    ensures ev.Clock? && UnderAt(e, ev.at) && Next(e, ev).phaseSinceMs == ev.at
    ensures ev.at - (if e.degradeSinceMs <= 0 then ev.at else e.degradeSinceMs) >= DegradeHold(e.config)
  {
    hide Tick, EngineOk, UsableAt;
    if !ev.Clock? {
      OtherSteps(e, ev);
    } else if !UsableAt(e, ev.at) {
      UnusableStep(e, ev.at);
    } else {
      StableStep(e, ev.at);
    }
  }

  /** A step of a run of under-ticks keeps the candidate time, or sets it. */
  lemma UnderStep(e: Engine, ev: Event)
    requires EngineOk(e) && e.phase == Stable && !ev.App? && SameEpisode(e, Next(e, ev))
    requires ev.Clock? && UsableAt(e, ev.at) ==> UnderAt(e, ev.at)
    ensures Next(e, ev).degradeSinceMs
         == if ev.Clock? && UsableAt(e, ev.at) && e.degradeSinceMs <= 0 then ev.at else e.degradeSinceMs
  {
    hide Tick, EngineOk, UsableAt, UnderAt;
    if !ev.Clock? {
      OtherSteps(e, ev);
    } else if !UsableAt(e, ev.at) {
      UnusableStep(e, ev.at);
    } else {
      StableStep(e, ev.at);
    }
  }

  lemma UnderFromAt(states: seq<Engine>, events: seq<Event>, m: nat, n: nat, j: nat)
    requires UnderFrom(states, events, m, n) && m <= j < n
    ensures |states| == |events| + 1 && n <= |events| && events[m].Clock? && UsableAt(states[m], events[m].at)
    ensures !events[j].App? && SameEpisode(states[m], states[j])
    ensures events[j].Clock? && UsableAt(states[j], events[j].at) ==> UnderAt(states[j], events[j].at)
  {
    hide UsableAt;
  }

  /** From the tick that begins a run of under-ticks on, the candidate time is no later than that tick. */
  lemma {:induction false} CandidateSince(states: seq<Engine>, events: seq<Event>, m: nat, j: nat, n: nat)
    requires Run(states, events) && m < j < n && UnderFrom(states, events, m, n) && states[m].phase == Stable
    ensures |states| == |events| + 1 && n <= |events| && 0 < states[j].degradeSinceMs <= events[m].at
  {
    hide UnderFrom, Next, EngineOk, UsableAt, UnderAt;
    UnderFromAt(states, events, m, n, j - 1);
    UnderFromAt(states, events, m, n, j);
    RunKeeps(states, events, j - 1);
    RunStep(states, events, j - 1);
    assert events[m].at >= 1;
    hide Run;
    if m + 1 < j {
      CandidateSince(states, events, m, j - 1, n);
    } else {
      CandidateInPast(states, events, m);
    }
    UnderStep(states[j - 1], events[j - 1]);
  }

  lemma CandidateInPast(states: seq<Engine>, events: seq<Event>, m: nat)
    requires Run(states, events) && m < |events| && states[m].phase == Stable
    ensures states[m].degradeSinceMs <= events[m].at
  {
    hide UnderFrom, SameEpisode, Next;
    CandidateKept(states, events, m);
    if states[m].degradeSinceMs > 0 {
      var k: nat :| k < m && UnderFrom(states, events, k, m) && events[k].at == states[m].degradeSinceMs
                    && SameEpisode(states[k], states[m]);
    }
  }

  /** A usable tick of a stable engine switches exactly when such a run, spanning the hold time, ends there. */
  lemma DegradesIff(states: seq<Engine>, events: seq<Event>, n: nat)
    requires Run(states, events) && n < |events| && states[n].phase == Stable
    ensures states[n + 1].phase == Degraded
       <==> exists m: nat :: m <= n && UnderFrom(states, events, m, n + 1)
                        && events[n].Clock? && UsableAt(states[n], events[n].at)
                        && events[n].at - events[m].at >= DegradeHold(states[0].config)
  {
    hide Tick, PushFrame, AppChange, EngineOk, TakeSnapshot, UnderFrom, HasFrames, Next;
    if states[n + 1].phase == Degraded {
      DegradeNeedsHold(states, events, n);
      RunKeeps(states, events, n);
      assert states[n + 1] == Next(states[n], events[n]);
      StepIntoDegraded(states[n], events[n]);
    }
    if m: nat :| m <= n && UnderFrom(states, events, m, n + 1) && events[n].Clock? && UsableAt(states[n], events[n].at)
                 && events[n].at - events[m].at >= DegradeHold(states[0].config) {
      HeldDegrades(states, events, m, n);
    }
  }

  lemma HeldDegrades(states: seq<Engine>, events: seq<Event>, m: nat, n: nat)
    requires Run(states, events) && m <= n < |events| && states[n].phase == Stable
    requires UnderFrom(states, events, m, n + 1)
    requires events[n].Clock? && UsableAt(states[n], events[n].at)
    requires events[n].at - events[m].at >= DegradeHold(states[0].config)
    ensures states[n + 1].phase == Degraded
  {
    hide Tick, PushFrame, AppChange, EngineOk, UsableAt, UnderAt;
    RunKeeps(states, events, n);
    assert SameEpisode(states[m], states[n]);
    CandidateInPast(states, events, n);
    if m < n {
      CandidateSince(states, events, m, n, n + 1);
    }
    assert states[n + 1] == Next(states[n], events[n]);
    StableStep(states[n], events[n].at);
  }

  // ---- How long a degraded phase is reported ----

  /** States m + 1 to n are one degraded episode, entered by the tick at m. */
  predicate DegradedFrom(states: seq<Engine>, events: seq<Event>, m: nat, n: nat) {
    && m < n <= |events| && |states| == |events| + 1
    && events[m].Clock? && states[m].phase == Stable
    && forall j :: m < j <= n ==> states[j].phase == Degraded && states[j].phaseSinceMs == events[m].at
  }

  lemma DegradedFromMore(states: seq<Engine>, events: seq<Event>, m: nat, n: nat)
    requires DegradedFrom(states, events, m, n) && n < |events|
    requires states[n + 1].phase == Degraded && states[n + 1].phaseSinceMs == states[n].phaseSinceMs
    ensures DegradedFrom(states, events, m, n + 1)
  {
  }

  lemma StepDegraded(e: Engine, ev: Event)
    requires EngineOk(e) && Next(e, ev).phase == Degraded
    ensures e.phase in {Stable, Degraded}
    ensures e.phase == Stable ==> ev.Clock? && Next(e, ev).phaseSinceMs == ev.at
    ensures e.phase == Degraded ==> Next(e, ev).phaseSinceMs == e.phaseSinceMs
  {
    hide Tick, EngineOk, UsableAt;
    if !ev.Clock? {
      OtherSteps(e, ev);
    } else if !UsableAt(e, ev.at) {
      UnusableStep(e, ev.at);
    } else if e.phase == Stable {
      StableStep(e, ev.at);
    } else if e.phase == Degraded {
      DegradedStep(e, ev.at);
    } else {
      CalibratingStep(e, ev.at);
    }
  }

  lemma {:induction false} DegradedEntered(states: seq<Engine>, events: seq<Event>, n: nat)
    requires Run(states, events) && n <= |events| && states[n].phase == Degraded
    ensures exists m: nat :: m < n && DegradedFrom(states, events, m, n)
  {
    hide Next, EngineOk, DegradedFrom;
    assert n > 0;
    RunKeeps(states, events, n - 1);
    assert states[n - 1 + 1] == Next(states[n - 1], events[n - 1]);
    StepDegraded(states[n - 1], events[n - 1]);
    if states[n - 1].phase == Stable {
      DegradedFromHere(states, events, n - 1);
    } else {
      DegradedEntered(states, events, n - 1);
      var m: nat :| m < n - 1 && DegradedFrom(states, events, m, n - 1);
      DegradedFromMore(states, events, m, n - 1);
    }
  }

  lemma DegradedFromHere(states: seq<Engine>, events: seq<Event>, m: nat)
    requires |states| == |events| + 1 && m < |events| && events[m].Clock? && states[m].phase == Stable
    requires states[m + 1].phase == Degraded && states[m + 1].phaseSinceMs == events[m].at
    ensures DegradedFrom(states, events, m, m + 1)
  {
  }

  /** A tick that reports degraded comes less than three seconds after the tick that entered the phase. */
  lemma DegradedUnderThreeSeconds(states: seq<Engine>, events: seq<Event>, n: nat)
    requires Run(states, events) && n < |events| && events[n].Clock?
    requires Tick(states[n], events[n].at).1.phase == Degraded
    ensures exists m: nat :: m <= n && DegradedFrom(states, events, m, n + 1)
                             && events[n].at - events[m].at < SCENE_HEAVY_HOLD_MS
  {
    var e, now := states[n], events[n].at;
    RunKeeps(states, events, n);
    assert states[n + 1] == Next(e, events[n]);
    ReportsDegraded(e, now);
    DegradedEntered(states, events, n + 1);
    var m: nat :| m < n + 1 && DegradedFrom(states, events, m, n + 1);
  }

  lemma ReportsDegraded(e: Engine, now: int)
    requires EngineOk(e) && Tick(e, now).1.phase == Degraded
    ensures UsableAt(e, now) && Tick(e, now).0.phase == Degraded
    ensures now - Tick(e, now).0.phaseSinceMs < SCENE_HEAVY_HOLD_MS
  {
    hide Tick, EngineOk, UsableAt;
    if !UsableAt(e, now) {
      UnusableStep(e, now);
    } else if e.phase == Stable {
      StableStep(e, now);
    } else if e.phase == Degraded {
      DegradedStep(e, now);
    } else {
      CalibratingStep(e, now);
    }
  }

  // ---- A stable episode ----

  predicate StableFrom(states: seq<Engine>, m: nat, n: nat) {
    m <= n < |states| && forall j :: m <= j <= n ==> states[j].phase == Stable
  }

  predicate DropsAt(e: Engine, ev: Event) {
    ev.Clock? && UsableAt(e, ev.at) && SlowDropDue(e, ev.at)
  }

  /** How many slow drops the events m to n - 1 make. */
  function Drops(states: seq<Engine>, events: seq<Event>, m: nat, n: nat): nat
    requires m <= n <= |events| && |states| == |events| + 1
  {
    if m == n then 0 else Drops(states, events, m, n - 1) + (if DropsAt(states[n - 1], events[n - 1]) then 1 else 0)
  }

  lemma StableToStable(e: Engine, ev: Event)
    requires EngineOk(e) && e.phase == Stable && Next(e, ev).phase == Stable
    ensures Next(e, ev).stableFps >= e.stableFps && Next(e, ev).phaseSinceMs == e.phaseSinceMs
    ensures Next(e, ev).lastDropMs == if DropsAt(e, ev) then ev.at else e.lastDropMs
    ensures DropsAt(e, ev) ==> ev.at >= e.lastDropMs + SLOW_DROP_INTERVAL_MS
  {
    hide Tick, EngineOk, UsableAt;
    if !ev.Clock? {
      OtherSteps(e, ev);
    } else if !UsableAt(e, ev.at) {
      UnusableStep(e, ev.at);
    } else {
      StableStep(e, ev.at);
    }
  }

  lemma RunStep(states: seq<Engine>, events: seq<Event>, n: nat)
    requires Run(states, events) && n < |events|
    ensures |states| == |events| + 1 && states[n + 1] == Next(states[n], events[n])
  {
  }

  /** Within a stable episode the base frame rate never falls and drops come at least 200 ms apart. */
  lemma {:induction false} StableEpisode(states: seq<Engine>, events: seq<Event>, m: nat, n: nat)
    requires Run(states, events) && n <= |events| && StableFrom(states, m, n)
    ensures states[n].stableFps >= states[m].stableFps && states[n].phaseSinceMs == states[m].phaseSinceMs
    ensures states[n].lastDropMs >= states[m].lastDropMs + SLOW_DROP_INTERVAL_MS * Drops(states, events, m, n)
  {
    hide Next, EngineOk, Run, DropsAt;
    if m < n {
      StableEpisode(states, events, m, n - 1);
      RunKeeps(states, events, n - 1);
      RunStep(states, events, n - 1);
      StableToStable(states[n - 1], events[n - 1]);
    }
  }

  /** Entering the stable phase restarts the drop clock. */
  lemma StepIntoStable(e: Engine, ev: Event)
    requires EngineOk(e) && e.phase != Stable && Next(e, ev).phase == Stable
    ensures ev.Clock? && Next(e, ev).phaseSinceMs == ev.at == Next(e, ev).lastDropMs
  {
    hide Tick, EngineOk, UsableAt;
    if !ev.Clock? {
      OtherSteps(e, ev);
    } else if !UsableAt(e, ev.at) {
      UnusableStep(e, ev.at);
    } else if e.phase == Degraded {
      DegradedStep(e, ev.at);
    } else {
      CalibratingStep(e, ev.at);
    }
  }

  /**
   * When event m enters a stable episode that lasts to event n, and event n makes a slow drop, the
   * k-th of the episode, then it comes at least 200 k ms after the entry.
   */
  lemma KthSlowDrop(states: seq<Engine>, events: seq<Event>, m: nat, n: nat)
    requires Run(states, events) && m < n < |events|
    requires states[m].phase != Stable && StableFrom(states, m + 1, n) && DropsAt(states[n], events[n])
    ensures var k := Drops(states, events, m + 1, n) + 1;
            events[n].at >= events[m].at + SLOW_DROP_INTERVAL_MS * k
  {
    hide Next, EngineOk;
    RunKeeps(states, events, m);
    assert states[m + 1] == Next(states[m], events[m]);
    StepIntoStable(states[m], events[m]);
    StableEpisode(states, events, m + 1, n);
  }

  // ---- What a degraded engine asks for ----

  /** Every frequency factor put out lies between one slow drop and four times the base with its margin. */
  lemma FreqScaleBounds(e: Engine, now: int)
    requires EngineOk(e)
    ensures SLOW_DROP_SCALE <= Tick(e, now).1.freqScale <= 4.0 * RAISE_MARGIN
    ensures Tick(e, now).1.phase == Degraded ==> Tick(e, now).1.freqScale >= RAISE_MARGIN
    ensures Tick(e, now).1.freqScale < 1.0 ==> e.phase == Stable && DropsAt(e, Clock(now)) && !OccTrigger(e)
  {
    hide TakeSnapshot, FpsFromInterval, Median, EngineOk;
    if UsableAt(e, now) && e.phase in {Stable, Degraded} {
      StableHasBase(e);
    }
  }
}
