/**
 * What a run of the FAS controller does over time: what every tick puts out, how fast a stable phase
 * lowers the frequency, when its base rises, when a degraded phase ends, and what a pause forgets.
 */
module FasEpisodes {
  import opened FasEngine
  import opened FasLaws
  import opened Numbers

  // ---- What a tick puts out ----

  /** An important thread is at least as busy as the configuration asks to be told of. */
  predicate Busy(e: Engine) {
    e.config.reportThreadState && 0 < e.config.upscaleOccupancy <= e.busy
  }

  /** The slow way down is in use, and its last step was 200 ms ago. */
  predicate StepsDown(e: Engine, now: int) {
    !e.config.quickDrop && now >= e.lastDropMs + 200
  }

  lemma QuietUnlessWarm(e: Engine, now: int)
    requires EngineOk(e)
    ensures Tick(e, now).1.usable <==> Warm(e, now)
    ensures !Warm(e, now) ==> Tick(e, now).1 == Output(Unknown, false, 1.0, false, false, false, 0, 0)
    ensures Warm(e, now) ==> LongRate(e, Tick(e, now).1.currentFps)
  {
    UsableIff(e, now);
    if HasFrames(e) {
      SnapshotMeans(e, now);
    }
    hide TakeSnapshot, FpsFromInterval, Median, EngineOk, RaiseScale, Calibrate, WatchStable, Warm, LongRate;
  }

  /** While calibrating the engine holds the sweet spot and changes nothing. */
  lemma HoldsWhileCalibrating(e: Engine, now: int)
    requires EngineOk(e) && Warm(e, now) && e.phase in {Unknown, Calibrating}
    ensures var out := Tick(e, now).1;
            out.phase == Calibrating && out.holdSweetspot && out.freqScale == 1.0 && !out.dropToFloor && !out.occRaise
  {
    UsableIff(e, now);
    hide TakeSnapshot, FpsFromInterval, Median, EngineOk, RaiseScale, Calibrate, WatchStable, Warm;
  }

  /** The engine as a usable tick sees it. */
  function Seen(e: Engine, now: int): Engine {
    Refresh(e, true, now).(unusableSinceMs := 0)
  }

  lemma UsableParts(e: Engine, now: int)
    requires UsableAt(e, now)
    ensures Tick(e, now) == UsableTick(Seen(e, now), TakeSnapshot(e, now), now)
  {
    hide UsableTick, TakeSnapshot;
  }

  lemma StableParts(e: Engine, s: Snapshot, now: int)
    requires e.phase == Stable && !LostBase(e)
    ensures var e' := WatchStable(e, s, now);
            e'.phase == Stable ==> UsableTick(e, s, now) == StableOutput(e', s.fpsLong, now)
    ensures WatchStable(e, s, now).phase != Stable ==> UsableTick(e, s, now).0.phase != Stable
    ensures WatchStable(e, s, now).phase in {Stable, Degraded}
  {
    hide FpsFromInterval, Median, RaiseScale;
  }

  lemma WatchLeaves(e: Engine, s: Snapshot, now: int)
    requires e.phase == Stable
    ensures var e' := WatchStable(e, s, now);
            e'.config == e.config && e'.busy == e.busy && (e'.phase == Stable ==> e'.lastDropMs == e.lastDropMs)
  {
    hide FpsFromInterval, Median;
  }

  /** A stable engine goes straight to the floor or takes a step of 8 percent; a busy thread raises by 15. */
  lemma LowersWhileStable(e: Engine, now: int)
    requires EngineOk(e) && Warm(e, now) && e.phase == Stable && Tick(e, now).0.phase == Stable
    ensures var (e', out) := Tick(e, now);
            && out.phase == Stable && !out.holdSweetspot && out.stableFps == e'.stableFps
            && out.dropToFloor == e.config.quickDrop && out.occRaise == Busy(e)
            && out.freqScale == (if Busy(e) then 1.15 else if StepsDown(e, now) then 0.92 else 1.0)
            && e'.lastDropMs == (if StepsDown(e, now) then now else e.lastDropMs)
  {
    UsableIff(e, now);
    StableHasBase(e);
    hide TakeSnapshot, EngineOk, Warm, WatchStable, UsableTick, Tick;
    UsableParts(e, now);
    StableParts(Seen(e, now), TakeSnapshot(e, now), now);
    WatchLeaves(Seen(e, now), TakeSnapshot(e, now), now);
  }

  // ---- The way down ----

  /** A clock event is a usable tick. */
  predicate Steady(states: seq<Engine>, events: seq<Event>, m: nat, n: nat) {
    n <= |events| < |states| && forall j :: m <= j < n && events[j].Clock? ==> Warm(states[j], events[j].at)
  }

  /** The product of the factors put out by the ticks m to n - 1. */
  function Factor(states: seq<Engine>, events: seq<Event>, m: nat, n: nat): real
    requires m <= n <= |events| < |states|
  {
    if m == n then 1.0
    else
      Factor(states, events, m, n - 1)
      * (if events[n - 1].Clock? then Tick(states[n - 1], events[n - 1].at).1.freqScale else 1.0)
  }

  function Power(x: real, n: nat): real {
    if n == 0 then 1.0 else Power(x, n - 1) * x
  }

  /** When the last clock event among m to n - 1 came, or t0. */
  function LastClock(events: seq<Event>, m: nat, n: nat, t0: int): int
    requires m <= n <= |events|
  {
    if m == n then t0 else if events[n - 1].Clock? then events[n - 1].at else LastClock(events, m, n - 1, t0)
  }

  /** Clock events come at most gap after each other. */
  predicate Spaced(events: seq<Event>, m: nat, n: nat, t0: int, gap: int)
    requires m <= n <= |events|
  {
    forall j :: m <= j < n && events[j].Clock? ==> events[j].at <= LastClock(events, m, j, t0) + gap
  }

  lemma DropIsStep(e: Engine, ev: Event)
    requires EngineOk(e)
    ensures DropsAt(e, ev) <==> ev.Clock? && Warm(e, ev.at) && StepsDown(e, ev.at)
  {
    if ev.Clock? {
      UsableIff(e, ev.at);
    }
    hide UsableAt, EngineOk, Warm;
  }

  lemma StableFactor(e: Engine, ev: Event)
    requires EngineOk(e) && e.phase == Stable && Next(e, ev).phase == Stable && !Busy(e)
    ensures (if ev.Clock? then Tick(e, ev.at).1.freqScale else 1.0) == if DropsAt(e, ev) then 0.92 else 1.0
  {
    DropIsStep(e, ev);
    if ev.Clock? {
      if Warm(e, ev.at) {
        LowersWhileStable(e, ev.at);
      } else {
        QuietUnlessWarm(e, ev.at);
      }
    }
    hide Tick, EngineOk, DropsAt, Warm;
  }

  /** Without a busy thread a stable episode multiplies the frequency by 0.92 with every slow drop. */
  lemma {:induction false} EpisodeFactor(states: seq<Engine>, events: seq<Event>, m: nat, n: nat)
    requires Run(states, events) && n <= |events| && StableFrom(states, m, n)
    requires forall j :: m <= j < n ==> !Busy(states[j])
    ensures |states| == |events| + 1
    ensures Factor(states, events, m, n) == Power(0.92, Drops(states, events, m, n))
  {
    hide Next, EngineOk, Run, DropsAt, Tick;
    RunSize(states, events);
    if m < n {
      EpisodeFactor(states, events, m, n - 1);
      RunKeeps(states, events, n - 1);
      RunStep(states, events, n - 1);
      StableFactor(states[n - 1], events[n - 1]);
    }
  }

  lemma RunSize(states: seq<Engine>, events: seq<Event>)
    requires Run(states, events)
    ensures |states| == |events| + 1
  {
  }

  /** The k-th slow drop comes no later than k times 200 ms and a gap after the last one before the episode. */
  lemma {:induction false} DropsKeepComing(
      states: seq<Engine>, events: seq<Event>, m: nat, n: nat, t0: int, gap: nat)
    requires Run(states, events) && n <= |events| && StableFrom(states, m, n) && Steady(states, events, m, n)
    requires !states[0].config.quickDrop && Spaced(events, m, n, t0, gap) && t0 < states[m].lastDropMs + 200
    ensures LastClock(events, m, n, t0) < states[n].lastDropMs + 200
    ensures states[n].lastDropMs <= states[m].lastDropMs + (200 + gap) * Drops(states, events, m, n)
  {
    hide Next, EngineOk, Run, DropsAt, Warm;
    RunSize(states, events);
    if m < n {
      DropsKeepComing(states, events, m, n - 1, t0, gap);
      RunKeeps(states, events, n - 1);
      RunStep(states, events, n - 1);
      StableToStable(states[n - 1], events[n - 1]);
      DropIsStep(states[n - 1], events[n - 1]);
      var k := Drops(states, events, m, n - 1);
      assert (200 + gap) * (k + 1) == (200 + gap) * k + 200 + gap;
      assert events[n - 1].Clock? ==> events[n - 1].at <= LastClock(events, m, n - 1, t0) + gap;
    }
  }

  // ---- A switch to degraded, in numbers ----

  /**
   * The switch needs 150 ms under the base, or as many times that as the configuration is
   * conservative: a usable tick of a stable engine makes it exactly when a run of ticks at 2 fps or
   * more under an unchanged base ends there that spans as much.
   */
  lemma SwitchesIff(states: seq<Engine>, events: seq<Event>, n: nat)
    requires Run(states, events) && n < |events| && states[n].phase == Stable
    ensures states[n + 1].phase == Degraded
       <==> exists m: nat :: m <= n && UnderFrom(states, events, m, n + 1)
                        && events[n].Clock? && UsableAt(states[n], events[n].at)
                        && events[n].at - events[m].at >= 150
                        && (states[0].config.conservative > 1 ==>
                              events[n].at - events[m].at >= 150 * states[0].config.conservative)
  {
    DegradesIff(states, events, n);
    hide UnderFrom, UsableAt, Run;
  }

  // ---- A raised frame rate ----

  /** A usable tick sees this frame rate, at least 2 fps above the base. */
  predicate OverAt(e: Engine, now: int, fps: int) {
    UsableAt(e, now) && TakeSnapshot(e, now).fpsLong == fps && fps >= e.stableFps + 2
  }

  /** From tick m on, in one episode, every usable tick sees the same raised rate or one under the base. */
  predicate RaisedFrom(states: seq<Engine>, events: seq<Event>, m: nat, n: nat, fps: int) {
    && m < n <= |events| && |states| == |events| + 1
    && events[m].Clock? && OverAt(states[m], events[m].at, fps)
    && (forall j :: m <= j < n ==>
          && !events[j].App?
          && SameEpisode(states[m], states[j])
          && (events[j].Clock? && UsableAt(states[j], events[j].at) ==>
                UnderAt(states[j], events[j].at) || OverAt(states[j], events[j].at, fps)))
  }

  /** What a usable tick of a stable engine does to the upshift candidate and to the base. */
  lemma UpshiftStep(e: Engine, now: int, fps: int)
    requires EngineOk(e) && e.phase == Stable && UsableAt(e, now) && fps == TakeSnapshot(e, now).fpsLong
    ensures var (e', avg) := (Tick(e, now).0, TakeSnapshot(e, now).avgShort);
            && (Under(e, fps) && e'.phase == Stable ==>
                  SameEpisode(e, e') && e'.upshiftSinceMs == e.upshiftSinceMs && e'.upshiftFps == e.upshiftFps)
            && (!Under(e, fps) && fps < e.stableFps + 2 ==> SameEpisode(e, e') && e'.upshiftSinceMs == 0)
            && (fps >= e.stableFps + 2 && (e.upshiftSinceMs <= 0 || e.upshiftFps != fps) ==>
                  SameEpisode(e, e') && e'.upshiftSinceMs == now && e'.upshiftFps == fps)
            && (fps >= e.stableFps + 2 && e.upshiftSinceMs > 0 && e.upshiftFps == fps ==>
                  if now < e.upshiftSinceMs + 500 then
                    SameEpisode(e, e') && e'.upshiftSinceMs == e.upshiftSinceMs && e'.upshiftFps == e.upshiftFps
                  else
                    e'.phase == Stable && e'.upshiftSinceMs == 0
                    && (if FpsFromInterval(Quicker(e, avg)) > e.stableFps then
                          e'.base == Quicker(e, avg) && e'.stableFps == FpsFromInterval(Quicker(e, avg))
                          && e'.calib == []
                        else SameEpisode(e, e')))
  {
    hide TakeSnapshot, EngineOk, WatchStable, UsableTick, Tick, Mean, FpsFromInterval, Median, ShortMean, LongRate;
    StableHasBase(e);
    SnapshotMeans(e, now);
    UsableParts(e, now);
    var s := TakeSnapshot(e, now);
    StableParts(Seen(e, now), s, now);
    CalibMedian(e);
    UpshiftWatch(Seen(e, now), s, now);
  }

  lemma UpshiftWatch(e: Engine, s: Snapshot, now: int)
    requires e.phase == Stable && s.avgShort >= 1.0
    requires if e.calib == [] then Median(e.calib) == 0.0 else Median(e.calib) >= 1.0
    ensures var e', fps := WatchStable(e, s, now), s.fpsLong;
            && (Under(e, fps) && e'.phase == Stable ==>
                  SameEpisode(e, e') && e'.upshiftSinceMs == e.upshiftSinceMs && e'.upshiftFps == e.upshiftFps)
            && (!Under(e, fps) ==> e'.phase == Stable)
            && (!Under(e, fps) && fps < e.stableFps + 2 ==> SameEpisode(e, e') && e'.upshiftSinceMs == 0)
            && (fps >= e.stableFps + 2 && (e.upshiftSinceMs <= 0 || e.upshiftFps != fps) ==>
                  SameEpisode(e, e') && e'.upshiftSinceMs == now && e'.upshiftFps == fps)
            && (fps >= e.stableFps + 2 && e.upshiftSinceMs > 0 && e.upshiftFps == fps ==>
                  if now < e.upshiftSinceMs + 500 then
                    SameEpisode(e, e') && e'.upshiftSinceMs == e.upshiftSinceMs && e'.upshiftFps == e.upshiftFps
                  else
                    e'.phase == Stable && e'.upshiftSinceMs == 0
                    && (if FpsFromInterval(Quicker(e, s.avgShort)) > e.stableFps then
                          e'.base == Quicker(e, s.avgShort)
                          && e'.stableFps == FpsFromInterval(Quicker(e, s.avgShort)) && e'.calib == []
                        else SameEpisode(e, e')))
  {
    hide FpsFromInterval, Median;
  }

  /** The shorter of the short window and the median of the calibration, if its samples are still held. */
  function Quicker(e: Engine, avg: real): real {
    if e.calib == [] || avg < Median(e.calib) then avg else Median(e.calib)
  }

  lemma CalibMedian(e: Engine)
    requires EngineOk(e)
    ensures e.calib == [] ==> Median(e.calib) == 0.0
    ensures e.calib != [] ==> Median(e.calib) >= 1.0
  {
    if e.calib != [] {
      MedianBounds(e.calib);
    }
  }

  lemma UnusableUpshift(e: Engine, now: int)
    requires !UsableAt(e, now)
    ensures var e' := Tick(e, now).0;
            e'.phase == Unknown
            || (SameEpisode(e, e') && e'.upshiftSinceMs == e.upshiftSinceMs && e'.upshiftFps == e.upshiftFps)
  {
  }

  lemma OtherUpshift(e: Engine, ev: Event)
    requires !ev.Clock?
    ensures ev.App? ==> Next(e, ev).phase == Unknown
    ensures !ev.App? ==> SameEpisode(e, Next(e, ev)) && Next(e, ev).upshiftSinceMs == e.upshiftSinceMs
                         && Next(e, ev).upshiftFps == e.upshiftFps
  {
  }

  lemma EntersWithout(e: Engine, now: int)
    requires EngineOk(e) && e.phase != Stable && UsableAt(e, now) && Tick(e, now).0.phase == Stable
    ensures Tick(e, now).0.upshiftSinceMs == 0
  {
    hide TakeSnapshot, FpsFromInterval, Median, EngineOk, RaiseScale;
  }

  /** The candidate of a stable engine began with a run of ticks at its rate. */
  ghost predicate UpCandidate(states: seq<Engine>, events: seq<Event>, n: nat)
    requires n < |states|
  {
    states[n].phase == Stable && states[n].upshiftSinceMs > 0 ==>
      exists m: nat :: m < n && RaisedFrom(states, events, m, n, states[n].upshiftFps)
                  && events[m].at == states[n].upshiftSinceMs && SameEpisode(states[m], states[n])
  }

  lemma RaisedFromMore(states: seq<Engine>, events: seq<Event>, m: nat, n: nat, fps: int)
    requires RaisedFrom(states, events, m, n, fps) && n < |events| && SameEpisode(states[m], states[n])
    requires !events[n].App?
    requires events[n].Clock? && UsableAt(states[n], events[n].at) ==>
               UnderAt(states[n], events[n].at) || OverAt(states[n], events[n].at, fps)
    ensures RaisedFrom(states, events, m, n + 1, fps)
  {
  }

  lemma RaisedFromHere(states: seq<Engine>, events: seq<Event>, n: nat, fps: int)
    requires |states| == |events| + 1 && n < |events|
    requires events[n].Clock? && OverAt(states[n], events[n].at, fps)
    ensures RaisedFrom(states, events, n, n + 1, fps)
  {
  }

  /** The ways for a step to leave a stable engine with an upshift candidate. */
  lemma StepIntoUpshift(e: Engine, ev: Event)
    requires EngineOk(e) && Next(e, ev).phase == Stable && Next(e, ev).upshiftSinceMs > 0
    ensures e.phase == Stable && !ev.App? && SameEpisode(e, Next(e, ev))
    ensures var e' := Next(e, ev);
            || (e'.upshiftSinceMs == e.upshiftSinceMs && e'.upshiftFps == e.upshiftFps
                && (ev.Clock? && UsableAt(e, ev.at) ==> UnderAt(e, ev.at) || OverAt(e, ev.at, e.upshiftFps)))
            || (ev.Clock? && OverAt(e, ev.at, e'.upshiftFps) && e'.upshiftSinceMs == ev.at)
  {
    hide Tick, EngineOk, TakeSnapshot;
    if !ev.Clock? {
      OtherUpshift(e, ev);
    } else if !UsableAt(e, ev.at) {
      UnusableUpshift(e, ev.at);
    } else if e.phase == Stable {
      UpshiftStep(e, ev.at, TakeSnapshot(e, ev.at).fpsLong);
    } else {
      EntersWithout(e, ev.at);
    }
  }

  lemma UpCandidateStep(states: seq<Engine>, events: seq<Event>, n: nat)
    requires Run(states, events) && n < |events| && UpCandidate(states, events, n)
    ensures |states| == |events| + 1 && UpCandidate(states, events, n + 1)
  {
    hide Tick, PushFrame, AppChange, EngineOk, UsableAt, UnderAt, OverAt, RaisedFrom;
    var e, ev, e' := states[n], events[n], states[n + 1];
    RunKeeps(states, events, n);
    if e'.phase == Stable && e'.upshiftSinceMs > 0 {
      StepIntoUpshift(e, ev);
      if e'.upshiftSinceMs == e.upshiftSinceMs && e'.upshiftFps == e.upshiftFps
         && (ev.Clock? && UsableAt(e, ev.at) ==> UnderAt(e, ev.at) || OverAt(e, ev.at, e.upshiftFps)) {
        var m: nat :| m < n && RaisedFrom(states, events, m, n, e.upshiftFps) && events[m].at == e.upshiftSinceMs
          && SameEpisode(states[m], e);
        RaisedFromMore(states, events, m, n, e.upshiftFps);
      } else {
        RaisedFromHere(states, events, n, e'.upshiftFps);
      }
    }
  }

  lemma {:induction false} UpCandidateKept(states: seq<Engine>, events: seq<Event>, n: nat)
    requires Run(states, events) && n <= |events|
    ensures |states| == |events| + 1 && UpCandidate(states, events, n)
  {
    RunSize(states, events);
    if n == 0 {
      assert states[0].phase == Unknown;
    } else {
      hide Run, UpCandidate;
      UpCandidateKept(states, events, n - 1);
      UpCandidateStep(states, events, n - 1);
      assert n - 1 + 1 == n;
    }
  }

  /**
   * A stable base rises only at the end of a run of ticks that saw one raised rate, apart from ticks
   * under the base, for half a second, and to the shorter of short window and calibration median.
   */
  lemma UpshiftNeedsHold(states: seq<Engine>, events: seq<Event>, n: nat)
    requires Run(states, events) && n < |events|
    requires states[n].phase == Stable == states[n + 1].phase && !SameEpisode(states[n], states[n + 1])
    ensures exists m: nat, fps: int :: m < n && RaisedFrom(states, events, m, n + 1, fps)
                                  && OverAt(states[n], events[n].at, fps) && events[n].at - events[m].at >= 500
    ensures exists avg :: ShortMean(states[n], avg) && states[n + 1].base == Quicker(states[n], avg)
    ensures states[n + 1].stableFps > states[n].stableFps && states[n + 1].calib == []
    ensures states[n + 1].phaseSinceMs == states[n].phaseSinceMs
  {
    hide Tick, PushFrame, AppChange, EngineOk, UnderAt, RaisedFrom, Quicker, TakeSnapshot;
    var e, ev := states[n], events[n];
    RunKeeps(states, events, n);
    UpCandidateKept(states, events, n);
    assert states[n + 1] == Next(e, ev);
    UpshiftTick(e, ev);
    SnapshotMeans(e, ev.at);
    StableStep(e, ev.at);
    var m: nat :| m < n && RaisedFrom(states, events, m, n, e.upshiftFps) && events[m].at == e.upshiftSinceMs
      && SameEpisode(states[m], e);
    RaisedFromMore(states, events, m, n, e.upshiftFps);
  }

  /** A tick that raises the base of a stable engine has held its candidate for half a second. */
  lemma UpshiftTick(e: Engine, ev: Event)
    requires EngineOk(e) && e.phase == Stable == Next(e, ev).phase && !SameEpisode(e, Next(e, ev))
    ensures ev.Clock? && OverAt(e, ev.at, e.upshiftFps) && 0 < e.upshiftSinceMs <= ev.at - 500 && HasFrames(e)
    ensures Next(e, ev).base == Quicker(e, TakeSnapshot(e, ev.at).avgShort)
    ensures Next(e, ev).stableFps > e.stableFps && Next(e, ev).calib == []
  {
    hide Tick, EngineOk, TakeSnapshot, Quicker;
    if !ev.Clock? {
      OtherUpshift(e, ev);
    } else if !UsableAt(e, ev.at) {
      UnusableUpshift(e, ev.at);
    } else {
      UpshiftStep(e, ev.at, TakeSnapshot(e, ev.at).fpsLong);
    }
  }

  /** Along a run of ticks at a raised rate, with a window that is quicker than the base. */
  predicate QuickerAt(e: Engine, now: int) {
    HasFrames(e) && FpsFromInterval(Quicker(e, TakeSnapshot(e, now).avgShort)) > e.stableFps
  }

  lemma RaisedFromAt(states: seq<Engine>, events: seq<Event>, m: nat, n: nat, fps: int, j: nat)
    requires RaisedFrom(states, events, m, n, fps) && m <= j < n
    ensures |states| == |events| + 1 && n <= |events| && events[m].Clock? && OverAt(states[m], events[m].at, fps)
    ensures !events[j].App? && SameEpisode(states[m], states[j])
    ensures events[j].Clock? && UsableAt(states[j], events[j].at) ==>
              UnderAt(states[j], events[j].at) || OverAt(states[j], events[j].at, fps)
  {
    hide UsableAt, UnderAt, OverAt;
  }

  /** One step of such a run that leaves the base keeps the candidate, or sets it. */
  lemma RaisedStep(e: Engine, ev: Event, fps: int)
    requires EngineOk(e) && e.phase == Stable && !ev.App? && SameEpisode(e, Next(e, ev)) && ev.at >= 1
    requires ev.Clock? && UsableAt(e, ev.at) ==> UnderAt(e, ev.at) || OverAt(e, ev.at, fps)
    requires ev.Clock? && OverAt(e, ev.at, fps) ==> QuickerAt(e, ev.at)
    requires (0 < e.upshiftSinceMs <= ev.at && e.upshiftFps == fps) || (ev.Clock? && OverAt(e, ev.at, fps))
    ensures Next(e, ev).upshiftFps == fps
    ensures Next(e, ev).upshiftSinceMs
         == if 0 < e.upshiftSinceMs && e.upshiftFps == fps then e.upshiftSinceMs else ev.at
    ensures ev.Clock? && OverAt(e, ev.at, fps) && 0 < e.upshiftSinceMs && e.upshiftFps == fps ==>
              ev.at < e.upshiftSinceMs + 500
  {
    hide Tick, EngineOk, TakeSnapshot, Quicker;
    if !ev.Clock? {
      OtherUpshift(e, ev);
    } else if !UsableAt(e, ev.at) {
      UnusableUpshift(e, ev.at);
    } else {
      UpshiftStep(e, ev.at, TakeSnapshot(e, ev.at).fpsLong);
    }
  }

  lemma UpCandidateInPast(states: seq<Engine>, events: seq<Event>, n: nat)
    requires Run(states, events) && n < |events| && states[n].phase == Stable
    ensures states[n].upshiftSinceMs <= events[n].at && events[n].at >= 1
  {
    hide Next, RaisedFrom;
    UpCandidateKept(states, events, n);
    if states[n].upshiftSinceMs > 0 {
      var m: nat :| m < n && RaisedFrom(states, events, m, n, states[n].upshiftFps)
        && events[m].at == states[n].upshiftSinceMs && SameEpisode(states[m], states[n]);
    }
  }

  /** Every tick of the run that sees the raised rate has a short window quicker than the base. */
  predicate QuickerFrom(states: seq<Engine>, events: seq<Event>, m: nat, n: nat, fps: int) {
    n <= |events| < |states|
    && forall j :: m <= j < n && events[j].Clock? && OverAt(states[j], events[j].at, fps) ==>
         QuickerAt(states[j], events[j].at)
  }

  lemma {:induction false} UpCandidateSince(
      states: seq<Engine>, events: seq<Event>, m: nat, j: nat, n: nat, fps: int)
    requires Run(states, events) && m < j < n && RaisedFrom(states, events, m, n, fps) && states[m].phase == Stable
    requires QuickerFrom(states, events, m, n, fps)
    ensures 0 < states[j].upshiftSinceMs <= events[m].at && states[j].upshiftFps == fps
  {
    hide RaisedFrom, Next, EngineOk, UsableAt, UnderAt, OverAt, QuickerAt;
    RaisedFromAt(states, events, m, n, fps, j - 1);
    RaisedFromAt(states, events, m, n, fps, j);
    RunKeeps(states, events, j - 1);
    RunStep(states, events, j - 1);
    UpCandidateInPast(states, events, m);
    UpCandidateInPast(states, events, j - 1);
    hide Run;
    if m + 1 < j {
      UpCandidateSince(states, events, m, j - 1, n, fps);
    }
    assert events[j - 1].Clock? && OverAt(states[j - 1], events[j - 1].at, fps) ==>
        QuickerAt(states[j - 1], events[j - 1].at);
    RaisedStep(states[j - 1], events[j - 1], fps);
  }

  /** And it does rise at the end of every such run, when the short window was quicker than the base all along. */
  lemma UpshiftComes(states: seq<Engine>, events: seq<Event>, m: nat, n: nat, fps: int)
    requires Run(states, events) && m < n < |events| && states[m].phase == Stable
    requires RaisedFrom(states, events, m, n + 1, fps) && QuickerFrom(states, events, m, n + 1, fps)
    requires events[n].Clock? && OverAt(states[n], events[n].at, fps) && events[n].at >= events[m].at + 500
    ensures states[n + 1].phase == Stable && states[n + 1].stableFps > states[n].stableFps
  {
    hide RaisedFrom, Next, EngineOk, UnderAt, QuickerAt, TakeSnapshot, Tick;
    RaisedFromAt(states, events, m, n + 1, fps, n);
    UpCandidateSince(states, events, m, n, n + 1, fps);
    RunKeeps(states, events, n);
    RunStep(states, events, n);
    UpshiftAttempt(states[n], events[n].at, fps);
    TickIsNext(states[n], events[n]);
  }

  lemma TickIsNext(e: Engine, ev: Event)
    requires ev.Clock?
    ensures Next(e, ev) == Tick(e, ev.at).0
  {
  }

  lemma UpshiftAttempt(e: Engine, now: int, fps: int)
    requires EngineOk(e) && e.phase == Stable && OverAt(e, now, fps) && QuickerAt(e, now)
    requires 0 < e.upshiftSinceMs <= now - 500 && e.upshiftFps == fps
    ensures Tick(e, now).0.phase == Stable && Tick(e, now).0.stableFps > e.stableFps
  {
    hide Tick, EngineOk, TakeSnapshot, Quicker;
    UpshiftStep(e, now, fps);
  }

  // ---- The end of a degraded phase ----

  /**
   * A usable tick of a degraded engine goes back to stable exactly when the base rate is reached again,
   * with the base as it was, or three seconds have passed, with the short window as the new base.
   */
  lemma RecoversIff(states: seq<Engine>, events: seq<Event>, n: nat)
    requires Run(states, events) && n < |events| && states[n].phase == Degraded
    requires events[n].Clock? && Warm(states[n], events[n].at)
    ensures exists m: nat :: m < n && DegradedFrom(states, events, m, n)
    ensures forall m: nat :: m < n && DegradedFrom(states, events, m, n) ==>
              var e, e', fps := states[n], states[n + 1], Tick(states[n], events[n].at).1.currentFps;
              && e'.phase in {Stable, Degraded}
              && (e'.phase == Stable <==> fps >= e.stableFps || events[n].at >= events[m].at + 3000)
              && (e'.phase == Degraded || fps >= e.stableFps ==> e'.base == e.base && e'.stableFps == e.stableFps)
              && (e'.phase == Stable && fps < e.stableFps ==>
                    ShortMean(e, e'.base) && Rate(e'.base, e'.stableFps) && e'.calib == [])
  {
    var e, now := states[n], events[n].at;
    RunKeeps(states, events, n);
    DegradedEntered(states, events, n);
    UsableIff(e, now);
    SnapshotMeans(e, now);
    TickIsNext(e, events[n]);
    hide Next, EngineOk, Warm, Tick, TakeSnapshot, ShortMean, Rate, FpsFromInterval;
    RecoverStep(e, now);
    RunKeeps(states, events, n + 1);
    if states[n + 1].phase == Stable {
      BaseRate(states[n + 1]);
    }
  }

  lemma RecoverStep(e: Engine, now: int)
    requires EngineOk(e) && e.phase == Degraded && UsableAt(e, now)
    ensures var (e', fps) := (Tick(e, now).0, Tick(e, now).1.currentFps);
            && e'.phase in {Stable, Degraded}
            && (e'.phase == Stable <==> fps >= e.stableFps || now >= e.phaseSinceMs + 3000)
            && (e'.phase == Degraded || fps >= e.stableFps ==> e'.base == e.base && e'.stableFps == e.stableFps)
            && (e'.phase == Stable && fps < e.stableFps ==>
                  e'.base == TakeSnapshot(e, now).avgShort && e'.calib == [])
  {
    hide TakeSnapshot, FpsFromInterval, Median, EngineOk, RaiseScale;
    StableHasBase(e);
  }

  // ---- Pauses ----

  /** No event from m to n - 1 changes the app, and no tick among them is usable. */
  predicate PausedFrom(states: seq<Engine>, events: seq<Event>, m: nat, n: nat) {
    m <= n <= |events| < |states|
    && forall j :: m <= j < n ==> !events[j].App? && (events[j].Clock? ==> !Warm(states[j], events[j].at))
  }

  /** The tick at k begins the pause that follows the usable tick at m. */
  predicate PauseBegins(states: seq<Engine>, events: seq<Event>, m: nat, k: nat) {
    && m < k < |events| < |states|
    && events[m].Clock? && Warm(states[m], events[m].at) && events[k].Clock?
    && forall j :: m < j < k ==> !events[j].Clock? && !events[j].App?
  }

  lemma WarmTick(e: Engine, now: int)
    requires EngineOk(e) && Warm(e, now)
    ensures var e' := Tick(e, now).0;
            e'.phase != Unknown && e'.usable && e'.unusableSinceMs == 0 && HasFrames(e')
  {
    UsableIff(e, now);
    UsableParts(e, now);
    hide TakeSnapshot, EngineOk, Tick, UsableTick;
    UsableLeaves(Seen(e, now), TakeSnapshot(e, now), now);
  }

  /** Neither the frames nor what is remembered of their being usable. */
  predicate LeavesFrames(e: Engine, e': Engine) {
    e'.usable == e.usable && e'.unusableSinceMs == e.unusableSinceMs && e'.frames == e.frames && e'.package == e.package
  }

  lemma CalibrateLeaves(e: Engine, avg: real, now: int)
    requires e.phase == Calibrating
    ensures LeavesFrames(e, Calibrate(e, avg, now)) && Calibrate(e, avg, now).phase != Unknown
  {
    hide FpsFromInterval, Median;
  }

  lemma WatchLeavesFrames(e: Engine, s: Snapshot, now: int)
    requires e.phase == Stable
    ensures LeavesFrames(e, WatchStable(e, s, now)) && WatchStable(e, s, now).phase in {Stable, Degraded}
    ensures WatchStable(e, s, now).phase == Degraded ==> WatchStable(e, s, now).base == e.base
  {
    hide FpsFromInterval, Median;
  }

  lemma UsableLeaves(e: Engine, s: Snapshot, now: int)
    ensures LeavesFrames(e, UsableTick(e, s, now).0) && UsableTick(e, s, now).0.phase != Unknown
  {
    hide FpsFromInterval, RaiseScale, Calibrate, WatchStable;
    if e.phase == Stable {
      WatchLeavesFrames(e, s, now);
    } else if e.phase != Degraded {
      var entered := EnterPhase(e, Calibrating, now).(calib := [], calibSinceMs := now);
      CalibrateLeaves(if e.phase == Unknown then entered else e, s.avgShort, now);
    }
  }

  lemma PauseTick(e: Engine, now: int)
    requires EngineOk(e) && HasFrames(e) && !Warm(e, now) && now > 0
    ensures var e' := Tick(e, now).0;
            var since := if e.unusableSinceMs <= 0 then now else e.unusableSinceMs;
            && HasFrames(e') && !e'.usable && e'.unusableSinceMs == since
            && e'.usableSinceMs == (if e.usable then now else e.usableSinceMs)
            && (if e.phase != Unknown && now >= since + 2000 then e'.phase == Unknown else SameEpisode(e, e'))
  {
    UsableIff(e, now);
    hide TakeSnapshot, EngineOk;
  }

  lemma PauseOther(e: Engine, ev: Event)
    requires EngineOk(e) && !ev.Clock? && !ev.App? && HasFrames(e)
    ensures var e' := Next(e, ev);
            SameEpisode(e, e') && HasFrames(e') && e'.unusableSinceMs == e.unusableSinceMs && e'.usable == e.usable
            && e'.usableSinceMs == e.usableSinceMs
  {
  }

  /** Some tick of the pause comes two seconds or more after its first. */
  predicate PauseOver(events: seq<Event>, k: nat, n: nat)
    requires k < n <= |events|
  {
    exists j :: k < j < n && events[j].Clock? && events[j].at >= events[k].at + 2000
  }

  lemma NotYetOver(events: seq<Event>, k: nat)
    requires k < |events|
    ensures !PauseOver(events, k, k + 1)
  {
  }

  lemma PauseOverMore(events: seq<Event>, k: nat, n: nat)
    requires k < n < |events|
    ensures PauseOver(events, k, n + 1) <==>
              PauseOver(events, k, n) || (events[n].Clock? && events[n].at >= events[k].at + 2000)
  {
  }

  lemma {:induction false} BeforePause(states: seq<Engine>, events: seq<Event>, m: nat, k: nat, j: nat)
    requires Run(states, events) && PauseBegins(states, events, m, k) && m < j <= k
    ensures SameEpisode(states[m + 1], states[j]) && HasFrames(states[j]) && states[j].phase != Unknown
    ensures states[j].unusableSinceMs == 0 && states[j].usable
  {
    hide Next, EngineOk, Warm, HasFrames, SameEpisode, Tick;
    RunKeeps(states, events, j - 1);
    RunStep(states, events, j - 1);
    if j == m + 1 {
      WarmTick(states[m], events[m].at);
      TickIsNext(states[m], events[m]);
      SameIsSame(states[j]);
    } else {
      BeforePause(states, events, m, k, j - 1);
      PauseOther(states[j - 1], events[j - 1]);
      SameTwice(states[m + 1], states[j - 1], states[j]);
    }
  }

  lemma SameIsSame(e: Engine)
    ensures SameEpisode(e, e)
  {
  }

  lemma SameTwice(a: Engine, b: Engine, c: Engine)
    requires SameEpisode(a, b) && SameEpisode(b, c)
    ensures SameEpisode(a, c) && (a.phase == b.phase == c.phase)
  {
  }

  /**
   * A pause that begins at k: through it the engine keeps its phase and its base until a tick two
   * seconds or more after k, and has neither from that tick on.
   */
  lemma {:induction false} PauseForgets(states: seq<Engine>, events: seq<Event>, m: nat, k: nat, n: nat)
    requires Run(states, events) && PauseBegins(states, events, m, k) && k < n && PausedFrom(states, events, k, n)
    ensures HasFrames(states[n]) && !states[n].usable && states[n].unusableSinceMs == events[k].at
    ensures states[n].usableSinceMs == events[k].at
    ensures states[n].phase == Unknown <==> PauseOver(events, k, n)
    ensures states[n].phase != Unknown ==> SameEpisode(states[m + 1], states[n])
    ensures states[n].phase == Unknown ==> states[n].base == 0.0 && states[n].stableFps == 0
  {
    hide Next, EngineOk, Warm, HasFrames, SameEpisode, Tick, PauseBegins, PauseOver;
    RunKeeps(states, events, n - 1);
    RunKeeps(states, events, n);
    RunStep(states, events, n - 1);
    PauseTimes(states, events, m, k, n - 1);
    UnknownHasNoBase(states[n]);
    if n == k + 1 {
      BeforePause(states, events, m, k, k);
      PauseTick(states[k], events[k].at);
      NotYetOver(events, k);
      TickIsNext(states[k], events[k]);
    } else {
      PauseForgets(states, events, m, k, n - 1);
      PauseOverMore(events, k, n - 1);
      if events[n - 1].Clock? {
        PauseTick(states[n - 1], events[n - 1].at);
        TickIsNext(states[n - 1], events[n - 1]);
      } else {
        PauseOther(states[n - 1], events[n - 1]);
      }
    }
    UnknownStays(states[n - 1], states[n]);
    if SameEpisode(states[n - 1], states[n]) && states[n].phase != Unknown {
      if n == k + 1 {
        SameTwice(states[m + 1], states[k], states[n]);
      } else {
        SameTwice(states[m + 1], states[n - 1], states[n]);
      }
    }
  }

  lemma PauseTimes(states: seq<Engine>, events: seq<Event>, m: nat, k: nat, n: nat)
    requires Run(states, events) && PauseBegins(states, events, m, k) && k <= n < |events|
    ensures events[k].Clock? && 1 <= events[k].at <= events[n].at && m < k && |states| == |events| + 1
  {
  }

  lemma UnknownStays(e: Engine, e': Engine)
    ensures SameEpisode(e, e') ==> e.phase == e'.phase
  {
  }

  lemma UnknownHasNoBase(e: Engine)
    requires EngineOk(e)
    ensures e.phase == Unknown ==> e.base == 0.0 && e.stableFps == 0
  {
  }

  /** So a tick after a pause is usable no sooner than a second after the pause began. */
  lemma WarmsUpAfresh(states: seq<Engine>, events: seq<Event>, m: nat, k: nat, n: nat)
    requires Run(states, events) && PauseBegins(states, events, m, k) && k < n < |events|
    requires PausedFrom(states, events, k, n) && events[n].Clock? && Warm(states[n], events[n].at)
    ensures events[n].at >= events[k].at + 1000
  {
    hide PauseBegins, PausedFrom, Run;
    PauseForgets(states, events, m, k, n);
  }

  // ---- A change of app ----

  /** After a change of app nothing of what was before matters: equal events lead to equal engines. */
  lemma {:induction false} AppForgets(states: seq<Engine>, events: seq<Event>, m: nat,
                                      states': seq<Engine>, events': seq<Event>, m': nat, n: nat)
    requires Run(states, events) && Run(states', events') && states[0].config == states'[0].config
    requires m < |events| && m' < |events'| && events[m].App?
    requires m + n < |events| && m' + n < |events'|
    requires events[m..m + n + 1] == events'[m'..m' + n + 1]
    ensures states[m + n + 1] == states'[m' + n + 1]
  {
    hide Tick, PushFrame, EngineOk, Init;
    RunKeeps(states, events, m + n);
    RunKeeps(states', events', m' + n);
    RunStep(states, events, m + n);
    RunStep(states', events', m' + n);
    assert events[m + n] == events[m..m + n + 1][n] && events'[m' + n] == events'[m'..m' + n + 1][n];
    if n > 0 {
      assert events[m..m + n] == events[m..m + n + 1][..n] && events'[m'..m' + n] == events'[m'..m' + n + 1][..n];
      AppForgets(states, events, m, states', events', m', n - 1);
    }
  }

  // ---- The frames held ----

  /** What a frame event does: 1 to 500 ms are taken, and five seconds of frames are kept, 1440 at most. */
  lemma PushMeans(e: Engine, ns: int, now: int)
    requires EngineOk(e)
    ensures var (e', all) := (PushFrame(e, ns, now), Taken(e.frames, ns));
            && e' == e.(frames := e'.frames, lastUpdateMs := now)
            && |e'.frames| == Min(|all|, Min(1440, 5 * Pace(e)))
            && e'.frames == all[|all| - |e'.frames|..]
  {
  }

  /** The frames and one more interval, when it is 1 to 500 ms long. */
  function Taken(frames: seq<real>, ns: int): seq<real> {
    if 1_000_000 <= ns <= 500_000_000 then frames + [ns as real / 1_000_000.0] else frames
  }

  /** The intervals of 1 to 500 ms among the events m to n - 1, after some others. */
  function AllTaken(frames: seq<real>, events: seq<Event>, m: nat, n: nat): seq<real>
    requires m <= n <= |events|
  {
    if m == n then frames
    else
      var before := AllTaken(frames, events, m, n - 1);
      if events[n - 1].Frame? then Taken(before, events[n - 1].intervalNs) else before
  }

  predicate EndOf(s: seq<real>, all: seq<real>) {
    |s| <= |all| && s == all[|all| - |s|..]
  }

  /** The frames held are always the newest ones taken since. */
  lemma {:induction false} NewestFrames(states: seq<Engine>, events: seq<Event>, m: nat, n: nat)
    requires Run(states, events) && m <= n <= |events|
    requires forall j :: m <= j < n ==> !events[j].App?
    ensures |states| == |events| + 1 && EndOf(states[n].frames, AllTaken(states[m].frames, events, m, n))
  {
    RunSize(states, events);
    if m < n {
      hide Next, EngineOk, Taken, EndOf;
      NewestFrames(states, events, m, n - 1);
      RunKeeps(states, events, n - 1);
      RunStep(states, events, n - 1);
      NewestStep(states[n - 1], events[n - 1], AllTaken(states[m].frames, events, m, n - 1));
    } else {
      hide Run, Next;
    }
  }

  lemma NewestStep(e: Engine, ev: Event, all: seq<real>)
    requires EngineOk(e) && !ev.App? && EndOf(e.frames, all)
    ensures EndOf(Next(e, ev).frames, if ev.Frame? then Taken(all, ev.intervalNs) else all)
  {
    hide PushFrame, Tick, EngineOk;
    if ev.Frame? {
      PushMeans(e, ev.intervalNs, ev.at);
    } else if ev.Clock? {
      TickFrames(e, ev.at);
    }
  }

  lemma TickFrames(e: Engine, now: int)
    ensures Tick(e, now).0.frames == e.frames
  {
    hide TakeSnapshot, UsableTick;
    if HasFrames(e) && TakeSnapshot(e, now).usable {
      UsableParts(e, now);
      UsableLeaves(Seen(e, now), TakeSnapshot(e, now), now);
    }
  }

  /** The thread usage last reported, kept between 0 and 100; below 0 it is not known. */
  lemma UsageIsKept(e: Engine, busy: int, at: int)
    ensures var e' := Next(e, Usage(busy, at));
            e' == e.(busy := e'.busy) && (busy < 0 ==> e'.busy == -1) && (0 <= busy <= 100 ==> e'.busy == busy)
            && (busy > 100 ==> e'.busy == 100)
  {
  }
}
