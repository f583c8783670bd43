/**
 * The FAS engine as the program holds it: fixed buffers with counts, and fields that each call
 * updates in place. Every method is the function of FasEngine it is named after.
 */
module FasController {
  import opened FasEngine
  import opened Numbers

  /** The sum of the newest n + 1 frames, from that of the newest n. */
  lemma SumOlder(frames: seq<real>, n: nat)
    requires n < |frames|
    ensures Sum(frames[|frames| - n - 1..]) == frames[|frames| - n - 1] + Sum(frames[|frames| - n..])
  {
    SumCons(frames[|frames| - n - 1], frames[|frames| - n..]);
    assert frames[|frames| - n - 1..] == [frames[|frames| - n - 1]] + frames[|frames| - n..];
  }

  lemma {:induction false} SumCons(x: real, s: seq<real>)
    ensures Sum([x] + s) == x + Sum(s)
  {
    var all := [x] + s;
    if s == [] {
      assert all[..0] == [];
    } else {
      SumCons(x, s[..|s| - 1]);
      assert all[..|s|] == [x] + s[..|s| - 1];
    }
  }

  /** fas_compute_windows, for the two windows the engine uses. */
  method ComputeWindows(frames: seq<real>, shortCount: int, longCount: int) returns (avgShort: real, avgLong: real)
    requires frames != [] && shortCount > 0 && longCount > 0
    ensures avgShort == Average(frames, Min(shortCount, |frames|))
    ensures avgLong == Average(frames, Min(longCount, |frames|))
  {
    var n := |frames|;
    var shortN, longN := Min(shortCount, n), Min(longCount, n);
    var sumShort, sumLong := 0.0, 0.0;
    var i := 0;
    while i < n
      invariant 0 <= i <= n
      invariant sumShort == Sum(frames[n - Min(i, shortN)..])
      invariant sumLong == Sum(frames[n - Min(i, longN)..])
    {
      var v := frames[n - 1 - i];
      SumOlder(frames, i);
      if i < shortN {
        sumShort := sumShort + v;
      }
      if i < longN {
        sumLong := sumLong + v;
      }
      i := i + 1;
    }
    avgShort := sumShort / shortN as real;
    avgLong := sumLong / longN as real;
  }

  lemma MoveOne(before: seq<real>, k: nat, i: nat)
    requires i + k < |before|
    ensures (before[k..k + i] + before[i..])[i := (before[k..k + i] + before[i..])[i + k]]
         == before[k..k + i + 1] + before[i + 1..]
  {
  }

  class Controller {
    const config: Config
    const frameTimes: array<real>
    var frameCount: nat
    var lastUpdateMs: int
    var package: string
    var usable: bool
    var usableSinceMs: int
    var phase: Phase
    var phaseSinceMs: int
    const calibSamples: array<real>
    var calibCount: nat
    var calibSinceMs: int
    var base: real
    var stableFps: int
    var degradeSinceMs: int
    var upshiftSinceMs: int
    var upshiftFps: int
    var lastDropMs: int
    var unusableSinceMs: int
    var busy: int

    constructor (config: Config)
      ensures Valid() && fresh(frameTimes) && fresh(calibSamples) && State() == Init(config)
    {
      this.config := config;
      frameTimes := new real[FRAME_HISTORY_MAX](_ => 0.0);
      calibSamples := new real[CALIB_MAX_SAMPLES](_ => 0.0);
      frameCount, lastUpdateMs, package, usable, usableSinceMs := 0, 0, "", false, 0;
      phase, phaseSinceMs, calibCount, calibSinceMs, base, stableFps := Unknown, 0, 0, 0, 0.0, 0;
      degradeSinceMs, upshiftSinceMs, upshiftFps, lastDropMs, unusableSinceMs, busy := 0, 0, 0, 0, 0, -1;
    }

    predicate Valid()
      reads this
    {
      && frameTimes != calibSamples
      && frameTimes.Length == FRAME_HISTORY_MAX && frameCount <= FRAME_HISTORY_MAX
      && calibSamples.Length == CALIB_MAX_SAMPLES && calibCount <= CALIB_MAX_SAMPLES
    }

    ghost function State(): Engine
      requires Valid()
      reads this, frameTimes, calibSamples
    {
      Engine(config, frameTimes[..frameCount], lastUpdateMs, package, usable, usableSinceMs, phase, phaseSinceMs,
             calibSamples[..calibCount], calibSinceMs, base, stableFps, degradeSinceMs, upshiftSinceMs, upshiftFps,
             lastDropMs, unusableSinceMs, busy)
    }

    /** memmove: the frames from index k on move to the front. */
    method MoveDown(k: nat)
      requires Valid() && k <= frameCount
      modifies frameTimes
      ensures frameTimes[..frameCount - k] == old(frameTimes[k..frameCount])
    {
      ghost var before := frameTimes[..];
      var i := 0;
      assert frameCount <= frameTimes.Length;
      assert frameTimes[..] == before[k..k] + before[0..];
      hide Valid;
      while i < frameCount - k
        invariant 0 <= i <= frameCount - k
        invariant frameTimes[..] == before[k..k + i] + before[i..]
      {
        frameTimes[i] := frameTimes[i + k];
        MoveOne(before, k, i);
        i := i + 1;
      }
      assert frameTimes[..frameCount - k] == frameTimes[..][..frameCount - k];
    }

    /** fas_buffer_push. */
    method PushToBuffer(ms: real)
      requires Valid()
      modifies this`frameCount, frameTimes
      ensures Valid() && State() == old(State()).(frames := BufferPush(old(State()).frames, ms))
    {
      if ms < 1.0 || ms > 500.0 {
        return;
      }
      ghost var frames := frameTimes[..frameCount];
      if frameCount < FRAME_HISTORY_MAX {
        frameTimes[frameCount] := ms;
        frameCount := frameCount + 1;
        assert frameTimes[..frameCount] == frames + [ms];
      } else {
        MoveDown(1);
        frameTimes[FRAME_HISTORY_MAX - 1] := ms;
        assert frameTimes[..frameCount] == frames[1..] + [ms];
      }
    }

    /** trim_frame_history. */
    method TrimFrameHistory(fps: int)
      requires Valid()
      modifies this`frameCount, frameTimes
      ensures Valid() && State() == old(State()).(frames := Trim(old(State()).frames, fps))
    {
      var keep := (if fps > 0 then fps else 144) * 5;
      if keep > FRAME_HISTORY_MAX {
        keep := FRAME_HISTORY_MAX;
      }
      if frameCount <= keep {
        return;
      }
      ghost var frames := frameTimes[..frameCount];
      MoveDown(frameCount - keep);
      frameCount := keep;
      assert frameTimes[..frameCount] == frames[|frames| - keep..];
    }

    /** fas_engine_push_frame. */
    method PushFrame(intervalNs: int, now: int)
      requires Valid()
      modifies this, frameTimes
      ensures Valid() && State() == FasEngine.PushFrame(old(State()), intervalNs, now)
    {
      hide BufferPush, Trim;
      PushToBuffer(intervalNs as real / 1_000_000.0);
      ghost var pushed := State();
      lastUpdateMs := now;
      assert State() == pushed.(lastUpdateMs := now);
      TrimFrameHistory(if stableFps > 0 then stableFps else 120);
    }

    method SetThreadUsage(busyPct: int)
      requires Valid()
      modifies this`busy
      ensures Valid() && State() == FasEngine.SetThreadUsage(old(State()), busyPct)
    {
      busy := if busyPct < 0 then -1 else if busyPct > 100 then 100 else busyPct;
    }

    /** The frame buffer and its state, as for a new app. */
    method ClearBuffer(newPackage: string, now: int)
      requires Valid()
      modifies this
      ensures Valid()
      ensures State() == old(State()).(frames := [], lastUpdateMs := 0, package := newPackage, usable := false,
                                       usableSinceMs := now)
    {
      frameCount := 0;
      lastUpdateMs := 0;
      usable := false;
      package := newPackage;
      usableSinceMs := now;
    }

    /** The phase and the baseline, as before any calibration. */
    method ClearPhase()
      requires Valid()
      modifies this
      ensures Valid()
      ensures State() == old(State()).(phase := Unknown, phaseSinceMs := 0, calib := [], calibSinceMs := 0, base := 0.0,
                                       stableFps := 0)
    {
      phase := Unknown;
      phaseSinceMs := 0;
      calibCount := 0;
      calibSinceMs := 0;
      base := 0.0;
      stableFps := 0;
    }

    /** The candidates and timers. */
    method ClearTimers()
      requires Valid()
      modifies this
      ensures Valid()
      ensures State() == old(State()).(degradeSinceMs := 0, upshiftSinceMs := 0, upshiftFps := 0, lastDropMs := 0,
                                       busy := -1, unusableSinceMs := 0)
    {
      degradeSinceMs := 0;
      upshiftSinceMs := 0;
      upshiftFps := 0;
      lastDropMs := 0;
      busy := -1;
      unusableSinceMs := 0;
    }

    /** fas_engine_on_app_change. */
    method OnAppChange(newPackage: string, now: int)
      requires Valid()
      modifies this
      ensures Valid() && State() == AppChange(old(State()), newPackage, now)
    {
      ClearBuffer(newPackage, now);
      ClearPhase();
      ClearTimers();
    }

    /** Whether fas_take_snapshot finds the frames fresh and warmed up. */
    method Ready(avgLong: real, now: int) returns (ready: bool)
      requires Valid()
      ensures ready == (frameCount >= 6 && avgLong > 0.0 && Fresh(State(), now) && WarmedUp(State(), now))
    {
      var age := if lastUpdateMs > 0 then now - lastUpdateMs else 0;
      if age < 0 {
        age := 0;
      }
      if frameCount >= 6 && avgLong > 0.0 && age <= FRESH_FRAME_MAX_AGE_MS {
        if !usable {
          var warm := if usableSinceMs > 0 then now - usableSinceMs else 0;
          if warm < USABLE_WARMUP_MS {
            return false;
          }
        }
        return true;
      }
      return false;
    }

    /** fas_take_snapshot. */
    method Snap(now: int) returns (s: Snapshot)
      requires Valid() && frameCount > 0
      ensures s == TakeSnapshot(State(), now)
    {
      var fps := if stableFps > 0 then stableFps else 120;
      assert ShortCount(fps) > 0;
      hide Average, CalcFps, ShortCount, Fresh, WarmedUp;
      var avgShort, avgLong := ComputeWindows(frameTimes[..frameCount], ShortCount(fps), Min(frameCount, 60));
      var ready := Ready(avgLong, now);
      s := Snapshot(avgShort, CalcFps(avgLong), ready);
    }

    method Enter(newPhase: Phase, now: int)
      requires Valid()
      modifies this
      ensures Valid() && State() == EnterPhase(old(State()), newPhase, now)
    {
      phase := newPhase;
      phaseSinceMs := now;
      if newPhase == Stable {
        degradeSinceMs := 0;
        upshiftSinceMs := 0;
        lastDropMs := now;
      }
    }

    /** The calibration block of fas_engine_tick. */
    method CalibrateStep(avgShort: real, now: int)
      requires Valid() && phase == Calibrating
      modifies this, calibSamples
      ensures Valid() && State() == Calibrate(old(State()), avgShort, now)
    {
      hide Median, FpsFromInterval;
      ghost var calib := calibSamples[..calibCount];
      if calibSinceMs <= 0 {
        calibSinceMs := now;
      }
      if calibCount < CALIB_MAX_SAMPLES {
        calibSamples[calibCount] := avgShort;
        calibCount := calibCount + 1;
        assert calibSamples[..calibCount] == calib + [avgShort];
      }
      var elapsed := now - calibSinceMs;
      if elapsed >= CALIB_MS && calibCount >= CALIB_MIN_FRAMES {
        var med := Median(calibSamples[..calibCount]);
        if med > CALIB_MIN_INTERVAL_MS && elapsed < CALIB_MAX_WAIT_MS {
          calibSinceMs := now;
          calibCount := 0;
        } else if med > 0.5 {
          base := med;
          stableFps := FpsFromInterval(med);
          Enter(Stable, now);
        } else {
          calibSinceMs := now;
          calibCount := 0;
        }
      }
    }

    /** The part of the stable block that watches the frame rate. */
    method Watch(s: Snapshot, now: int)
      requires Valid() && phase == Stable
      modifies this
      ensures Valid() && State() == WatchStable(old(State()), s, now)
    {
      hide Median, FpsFromInterval;
      if (s.fpsLong as real) < stableFps as real - FPS_TOLERANCE {
        if degradeSinceMs <= 0 {
          degradeSinceMs := now;
        }
        var hold := DEGRADE_HOLD_MS * (if config.conservative > 1 then config.conservative else 1);
        if now - degradeSinceMs >= hold {
          Enter(Degraded, now);
          degradeSinceMs := 0;
        }
      } else {
        degradeSinceMs := 0;
        if s.fpsLong >= stableFps + UPSHIFT_DETECT_FPS {
          if upshiftSinceMs <= 0 || upshiftFps != s.fpsLong {
            upshiftSinceMs := now;
            upshiftFps := s.fpsLong;
          } else if now - upshiftSinceMs >= UPSHIFT_HOLD_MS {
            var newMed := Median(calibSamples[..calibCount]);
            if newMed <= 0.5 || s.avgShort < newMed {
              newMed := s.avgShort;
            }
            var newFps := FpsFromInterval(newMed);
            upshiftSinceMs := 0;
            upshiftFps := 0;
            if newFps > stableFps {
              base := newMed;
              stableFps := newFps;
              calibCount := 0;
            }
          }
        } else {
          upshiftSinceMs := 0;
          upshiftFps := 0;
        }
      }
    }

    /** The part of the stable block that decides the output. */
    method StableOut(fps: int, now: int) returns (out: Output)
      requires Valid() && phase == Stable
      modifies this
      ensures Valid() && (State(), out) == StableOutput(old(State()), fps, now)
    {
      out := Quiet().(phase := Stable, usable := true, stableFps := stableFps, currentFps := fps);
      if config.quickDrop {
        out := out.(dropToFloor := true);
      } else if now - lastDropMs >= SLOW_DROP_INTERVAL_MS {
        out := out.(freqScale := SLOW_DROP_SCALE);
        lastDropMs := now;
      }
      if config.reportThreadState && config.upscaleOccupancy > 0 && busy >= 0 && busy >= config.upscaleOccupancy {
        out := out.(occRaise := true);
        if out.freqScale < OCCUPANCY_RAISE_SCALE {
          out := out.(freqScale := OCCUPANCY_RAISE_SCALE);
        }
      }
    }

    /** The degraded block. */
    method DegradedOut(s: Snapshot, now: int) returns (out: Output)
      requires Valid() && phase == Degraded && base != 0.0
      modifies this
      ensures Valid() && (State(), out) == DegradedTick(old(State()), s, now)
    {
      hide FpsFromInterval;
      out := Quiet().(phase := Degraded, usable := true, stableFps := stableFps, currentFps := s.fpsLong);
      if s.fpsLong as real >= stableFps as real - FPS_TOLERANCE * 0.5 {
        Enter(Stable, now);
        out := out.(phase := Stable, freqScale := 1.0);
      } else {
        var scale := s.avgShort / base;
        if scale < 1.0 {
          scale := 1.0;
        }
        if scale > 4.0 {
          scale := 4.0;
        }
        scale := scale * RAISE_MARGIN;
        out := out.(freqScale := scale);
        if now - phaseSinceMs >= SCENE_HEAVY_HOLD_MS {
          base := s.avgShort;
          stableFps := FpsFromInterval(s.avgShort);
          calibCount := 0;
          Enter(Stable, now);
          out := out.(phase := Stable, freqScale := 1.0);
        }
      }
    }

    /** The rest of fas_engine_tick once frames are known to be usable. */
    method UsableStep(s: Snapshot, now: int) returns (out: Output)
      requires Valid()
      modifies this, calibSamples
      ensures Valid() && (State(), out) == UsableTick(old(State()), s, now)
    {
      hide Calibrate, WatchStable, DegradedTick;
      out := Quiet().(usable := true, currentFps := s.fpsLong);
      if phase == Unknown {
        Enter(Calibrating, now);
        calibCount := 0;
        calibSinceMs := now;
      }
      if phase == Calibrating {
        CalibrateStep(s.avgShort, now);
        out := out.(phase := Calibrating, holdSweetspot := true);
        return;
      }
      if stableFps <= 0 || base <= 0.0 {
        Enter(Calibrating, now);
        calibCount := 0;
        calibSinceMs := now;
        out := out.(phase := Calibrating, holdSweetspot := true);
        return;
      }
      ghost var e := State();
      if phase == Stable {
        Watch(s, now);
        WatchPhase(e, s, now);
        if phase == Stable {
          out := StableOut(s.fpsLong, now);
        }
      }
      if phase == Degraded {
        out := DegradedOut(s, now);
      }
    }

    /** fas_engine_tick. */
    method Tick(now: int) returns (out: Output)
      requires Valid()
      modifies this, calibSamples
      ensures Valid() && (State(), out) == FasEngine.Tick(old(State()), now)
    {
      hide UsableTick, TakeSnapshot;
      out := Quiet();
      if package == "" {
        return;
      }
      if frameCount == 0 {
        return;
      }
      var s := Snap(now);
      if usable != s.usable {
        usable := s.usable;
        usableSinceMs := now;
      }
      if !s.usable {
        if unusableSinceMs <= 0 {
          unusableSinceMs := now;
        }
        if phase != Unknown && now - unusableSinceMs >= UNUSABLE_RESET_MS {
          phase := Unknown;
          calibCount := 0;
          base := 0.0;
          stableFps := 0;
        }
        return;
      }
      unusableSinceMs := 0;
      out := UsableStep(s, now);
    }
  }

  lemma WatchPhase(e: Engine, s: Snapshot, now: int)
    requires e.phase == Stable
    ensures WatchStable(e, s, now).phase in {Stable, Degraded}
    ensures WatchStable(e, s, now).phase == Degraded ==> WatchStable(e, s, now).base == e.base
  {
  }
}
