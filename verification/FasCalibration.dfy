/**
 * What a calibration measures: the base interval is the median of the samples taken since the
 * calibration began or was last started over, enough of them and over enough time.
 */
module FasCalibration {
  import opened FasEngine

  /** The sample a usable tick adds, while there is room. */
  function AddSample(samples: seq<real>, avgShort: real): seq<real> {
    if |samples| < CALIB_MAX_SAMPLES then samples + [avgShort] else samples
  }

  predicate SampledAt(e: Engine, ev: Event) {
    ev.Clock? && UsableAt(e, ev.at)
  }

  /** The short averages at the usable ticks among the events m to n - 1. */
  function Samples(states: seq<Engine>, events: seq<Event>, m: nat, n: nat): seq<real>
    requires m <= n <= |events| && |states| == |events| + 1
  {
    if m == n then []
    else
      var s := Samples(states, events, m, n - 1);
      if SampledAt(states[n - 1], events[n - 1]) then
        AddSample(s, TakeSnapshot(states[n - 1], events[n - 1].at).avgShort)
      else s
  }

  /** One calibration, begun or started over by the tick at k, goes on up to state n. */
  predicate CalibratedFrom(states: seq<Engine>, events: seq<Event>, k: nat, n: nat) {
    && k < n <= |events| && |states| == |events| + 1
    && SampledAt(states[k], events[k]) && states[k].phase in {Unknown, Calibrating}
    && forall j :: k < j <= n ==> states[j].phase == Calibrating && states[j].calibSinceMs == events[k].at
  }

  /** The tick that begins a calibration takes its first sample; the one that starts it over does not. */
  function FirstSample(states: seq<Engine>, k: nat): nat
    requires k < |states|
  {
    if states[k].phase == Unknown then k else k + 1
  }

  /** At the tick p the calibration was too young, or had too few samples, to be judged. */
  predicate TooEarly(states: seq<Engine>, events: seq<Event>, k: nat, p: nat)
    requires k <= p < |events| && |states| == |events| + 1 && FirstSample(states, k) <= p
  {
    || |Samples(states, events, FirstSample(states, k), p + 1)| < CALIB_MIN_FRAMES
    || events[p].at - events[k].at < CALIB_MS
  }

  /** It was so at every sample up to state n. */
  predicate Unjudged(states: seq<Engine>, events: seq<Event>, k: nat, n: nat)
    requires k < n <= |events| && |states| == |events| + 1
  {
    forall p :: FirstSample(states, k) <= p < n && SampledAt(states[p], events[p]) ==> TooEarly(states, events, k, p)
  }

  /** A calibrating engine holds the samples of its calibration, and would have ended it as soon as it could. */
  ghost predicate Measured(states: seq<Engine>, events: seq<Event>, n: nat)
    requires n <= |events| && |states| == |events| + 1
  {
    states[n].phase == Calibrating ==>
      exists k: nat :: k < n && CalibratedFrom(states, events, k, n) && Unjudged(states, events, k, n)
                  && states[n].calib == Samples(states, events, FirstSample(states, k), n)
  }

  // ---- One step ----

  lemma BeginStep(e: Engine, now: int)
    requires e.phase == Unknown && UsableAt(e, now) && now >= 1
    ensures var e' := Tick(e, now).0;
            e'.phase == Calibrating && e'.calibSinceMs == now && e'.calib == [TakeSnapshot(e, now).avgShort]
  {
    hide TakeSnapshot, FpsFromInterval, Median;
    assert [] + [TakeSnapshot(e, now).avgShort] == [TakeSnapshot(e, now).avgShort];
  }

  /** A calibration ends with enough samples over enough time, and with a median under 20 fps only at the limit. */
  predicate Ends(samples: seq<real>, elapsed: int) {
    && |samples| >= CALIB_MIN_FRAMES && elapsed >= CALIB_MS
    && (Median(samples) <= CALIB_MIN_INTERVAL_MS || elapsed >= CALIB_MAX_WAIT_MS)
  }

  /** A usable tick of a calibrating engine: one sample more, then perhaps a new start, or the end. */
  lemma SampleStep(e: Engine, now: int)
    requires e.phase == Calibrating && e.calibSinceMs > 0 && UsableAt(e, now)
    ensures var e', calib := Tick(e, now).0, AddSample(e.calib, TakeSnapshot(e, now).avgShort);
            && e'.phase in {Calibrating, Stable}
            && (e'.phase == Calibrating ==>
                  || (e'.calibSinceMs == e.calibSinceMs && e'.calib == calib
                      && (|calib| < CALIB_MIN_FRAMES || now - e.calibSinceMs < CALIB_MS))
                  || (e'.calibSinceMs == now && e'.calib == []))
            && (e'.phase == Stable ==>
                  && |calib| >= CALIB_MIN_FRAMES && now - e.calibSinceMs >= CALIB_MS
                  && e'.base == Median(calib)
                  && (e'.base > CALIB_MIN_INTERVAL_MS ==> now - e.calibSinceMs >= CALIB_MAX_WAIT_MS))
            && (Median(calib) > 0.5 ==> (e'.phase == Stable <==> Ends(calib, now - e.calibSinceMs)))
  {
    hide TakeSnapshot, FpsFromInterval, Median;
  }

  /** Nothing else touches a calibration, except to abandon it. */
  lemma IdleStep(e: Engine, ev: Event)
    requires !SampledAt(e, ev)
    ensures var e' := Next(e, ev);
            e'.phase == Unknown || (e'.phase == e.phase && e'.calib == e.calib && e'.calibSinceMs == e.calibSinceMs)
  {
    hide TakeSnapshot, BufferPush, Trim;
  }

  /** Stable and degraded engines never go back to calibrating directly. */
  lemma NoReturn(e: Engine, now: int)
    requires EngineOk(e) && e.phase in {Stable, Degraded} && UsableAt(e, now)
    ensures Tick(e, now).0.phase in {Stable, Degraded}
  {
    if e.phase == Stable {
      StableStep(e, now);
    } else {
      DegradedStep(e, now);
    }
  }

  // ---- Runs ----

  lemma CalibratedFromHere(states: seq<Engine>, events: seq<Event>, k: nat)
    requires |states| == |events| + 1 && k < |events| && SampledAt(states[k], events[k])
    requires states[k].phase in {Unknown, Calibrating}
    requires states[k + 1].phase == Calibrating && states[k + 1].calibSinceMs == events[k].at
    ensures CalibratedFrom(states, events, k, k + 1)
  {
  }

  lemma CalibratedFromMore(states: seq<Engine>, events: seq<Event>, k: nat, n: nat)
    requires CalibratedFrom(states, events, k, n) && n < |events|
    requires states[n + 1].phase == Calibrating && states[n + 1].calibSinceMs == states[n].calibSinceMs
    ensures CalibratedFrom(states, events, k, n + 1)
  {
  }

  lemma {:induction false} MeasuredInRuns(states: seq<Engine>, events: seq<Event>, n: nat)
    requires Run(states, events) && n <= |events|
    ensures |states| == |events| + 1 && Measured(states, events, n)
  {
    hide Run, Next, Measured;
    if n == 0 {
      NothingMeasured(states, events);
    } else {
      MeasuredInRuns(states, events, n - 1);
      MeasuredStep(states, events, n - 1);
    }
  }

  lemma NothingMeasured(states: seq<Engine>, events: seq<Event>)
    requires Run(states, events)
    ensures |states| == |events| + 1 && Measured(states, events, 0)
  {
  }

  lemma {:induction false} MeasuredStep(states: seq<Engine>, events: seq<Event>, n: nat)
    requires Run(states, events) && n < |events| && Measured(states, events, n)
    ensures Measured(states, events, n + 1)
  {
    var e, ev, e' := states[n], events[n], states[n + 1];
    RunKeeps(states, events, n);
    assert e' == Next(e, ev) && ev.at >= 1;
    hide Run, Tick, EngineOk, UsableAt, CalibratedFrom, TakeSnapshot;
    if e'.phase == Calibrating {
      if !SampledAt(e, ev) {
        IdleStep(e, ev);
        GoesOn(states, events, n);
      } else if e.phase == Unknown {
        BeginStep(e, ev.at);
        CalibratedFromHere(states, events, n);
        assert Samples(states, events, n, n) == [];
        assert e'.calib == Samples(states, events, n, n + 1);
      } else if e.phase == Calibrating {
        CalibratingSince(states, events, n);
        SampleStep(e, ev.at);
        if e'.calibSinceMs == e.calibSinceMs && e'.calib == AddSample(e.calib, TakeSnapshot(e, ev.at).avgShort) {
          GoesOn(states, events, n);
        } else {
          CalibratedFromHere(states, events, n);
          assert e'.calib == Samples(states, events, n + 1, n + 1);
        }
      } else {
        NoReturn(e, ev.at);
      }
    }
  }

  lemma CalibratingSince(states: seq<Engine>, events: seq<Event>, n: nat)
    requires Run(states, events) && n < |events| && Measured(states, events, n) && states[n].phase == Calibrating
    ensures states[n].calibSinceMs > 0
  {
    hide Next, SampledAt;
  }

  lemma GoesOn(states: seq<Engine>, events: seq<Event>, n: nat)
    requires |states| == |events| + 1 && n < |events| && Measured(states, events, n)
    requires states[n].phase == Calibrating && states[n + 1].phase == Calibrating
    requires states[n + 1].calibSinceMs == states[n].calibSinceMs
    requires states[n + 1].calib == if SampledAt(states[n], events[n])
                                    then AddSample(states[n].calib, TakeSnapshot(states[n], events[n].at).avgShort)
                                    else states[n].calib
    requires SampledAt(states[n], events[n]) ==>
               |states[n + 1].calib| < CALIB_MIN_FRAMES || events[n].at - states[n].calibSinceMs < CALIB_MS
    ensures Measured(states, events, n + 1)
  {
    var k: nat :| k < n && CalibratedFrom(states, events, k, n) && Unjudged(states, events, k, n)
                  && states[n].calib == Samples(states, events, FirstSample(states, k), n);
    assert states[n].calibSinceMs == events[k].at;
    hide SampledAt, TakeSnapshot, AddSample;
    CalibratedFromMore(states, events, k, n);
    hide CalibratedFrom;
    assert states[n + 1].calib == Samples(states, events, FirstSample(states, k), n + 1) by {
      hide Unjudged;
    }
    UnjudgedMore(states, events, k, n);
  }

  lemma UnjudgedMore(states: seq<Engine>, events: seq<Event>, k: nat, n: nat)
    requires k < n < |events| && |states| == |events| + 1 && Unjudged(states, events, k, n)
    requires SampledAt(states[n], events[n]) ==>
               |Samples(states, events, FirstSample(states, k), n + 1)| < CALIB_MIN_FRAMES
               || events[n].at - events[k].at < CALIB_MS
    ensures Unjudged(states, events, k, n + 1)
  {
    hide SampledAt, Samples;
    assert SampledAt(states[n], events[n]) ==> TooEarly(states, events, k, n);
    hide TooEarly;
  }

  /**
   * An engine leaves calibration only with a base that is the median of at least 20 samples of one
   * calibration, taken over at least 2.5 s, and over at least 20 s when the median is under 20 fps.
   */
  lemma CalibrationMeasures(states: seq<Engine>, events: seq<Event>, n: nat)
    requires Run(states, events) && n < |events|
    requires states[n].phase in {Unknown, Calibrating} && states[n + 1].phase == Stable
    ensures exists k: nat :: k < n && CalibratedFrom(states, events, k, n) && Unjudged(states, events, k, n)
              && var samples := Samples(states, events, FirstSample(states, k), n + 1);
                 && CALIB_MIN_FRAMES <= |samples|
                 && states[n + 1].base == Median(samples)
                 && events[n].at - events[k].at
                    >= if states[n + 1].base > CALIB_MIN_INTERVAL_MS then CALIB_MAX_WAIT_MS else CALIB_MS
  {
    var e, ev := states[n], events[n];
    MeasuredInRuns(states, events, n);
    assert states[n + 1] == Next(e, ev) && ev.at >= 1;
    if !SampledAt(e, ev) {
      IdleStep(e, ev);
    } else if e.phase == Unknown {
      BeginStep(e, ev.at);
    } else {
      CalibratingSince(states, events, n);
      hide Run, Tick, UsableAt, TakeSnapshot, Median, AddSample;
      var k: nat :| k < n && CalibratedFrom(states, events, k, n) && Unjudged(states, events, k, n)
                    && e.calib == Samples(states, events, FirstSample(states, k), n);
      SampleStep(e, ev.at);
      assert Samples(states, events, FirstSample(states, k), n + 1)
          == AddSample(e.calib, TakeSnapshot(e, ev.at).avgShort);
    }
  }

  /** And it does leave calibration at every tick at which the samples suffice. */
  lemma CalibrationEndsIff(states: seq<Engine>, events: seq<Event>, n: nat)
    requires Run(states, events) && n < |events|
    requires states[n].phase == Calibrating && SampledAt(states[n], events[n])
    ensures exists k: nat :: k < n && CalibratedFrom(states, events, k, n) && Unjudged(states, events, k, n)
              && (states[n + 1].phase == Stable
                  <==> Ends(Samples(states, events, FirstSample(states, k), n + 1), events[n].at - events[k].at))
  {
    var e, ev := states[n], events[n];
    MeasuredInRuns(states, events, n);
    assert states[n + 1] == Next(e, ev) && ev.at >= 1;
    CalibratingSince(states, events, n);
    RunKeeps(states, events, n);
    SampleMedian(e, ev.at);
    hide Run, Tick, UsableAt, TakeSnapshot, Median, AddSample, Ends, EngineOk;
    var k: nat :| k < n && CalibratedFrom(states, events, k, n) && Unjudged(states, events, k, n)
                  && e.calib == Samples(states, events, FirstSample(states, k), n);
    SampleStep(e, ev.at);
    assert Samples(states, events, FirstSample(states, k), n + 1)
        == AddSample(e.calib, TakeSnapshot(e, ev.at).avgShort);
  }

  lemma SampleMedian(e: Engine, now: int)
    requires EngineOk(e) && UsableAt(e, now)
    ensures Median(AddSample(e.calib, TakeSnapshot(e, now).avgShort)) > 0.5
  {
    SnapshotBounds(e, now);
    MedianBounds(AddSample(e.calib, TakeSnapshot(e, now).avgShort));
  }

  /** The samples at hand when a tick takes its own: none at the start of a calibration. */
  function SamplesHeld(e: Engine): seq<real> {
    if e.phase == Unknown then [] else e.calib
  }

  /** In every run neither the lost-baseline fallback nor the abnormal-median branch is ever taken. */
  lemma BranchesNeverTaken(states: seq<Engine>, events: seq<Event>, n: nat)
    requires Run(states, events) && n < |events| && SampledAt(states[n], events[n])
    ensures var e, avgShort := states[n], TakeSnapshot(states[n], events[n].at).avgShort;
            if e.phase in {Stable, Degraded} then !LostBase(e)
            else Median(AddSample(SamplesHeld(e), avgShort)) > 0.5
  {
    RunKeeps(states, events, n);
    var e := states[n];
    if e.phase in {Stable, Degraded} {
      StableHasBase(e);
    } else {
      SampleMedian(e.(calib := SamplesHeld(e)), events[n].at);
    }
  }

  // ---- The limit of twenty seconds ----

  /** A usable tick from k on comes at most gap before the tick p. */
  predicate SoonAfter(states: seq<Engine>, events: seq<Event>, k: nat, p: nat, gap: int)
    requires p < |events| < |states|
  {
    exists q :: k <= q < p && SampledAt(states[q], events[q]) && events[p].at - events[q].at <= gap
  }

  predicate Regular(states: seq<Engine>, events: seq<Event>, k: nat, n: nat, gap: int)
    requires n <= |events| < |states|
  {
    forall p :: k < p < n && SampledAt(states[p], events[p]) ==> SoonAfter(states, events, k, p, gap)
  }

  lemma {:induction false} SamplesGrow(states: seq<Engine>, events: seq<Event>, m: nat, p: nat, n: nat)
    requires m <= p <= n <= |events| && |states| == |events| + 1
    ensures |Samples(states, events, m, p)| <= |Samples(states, events, m, n)|
  {
    hide SampledAt;
    if p < n {
      SamplesGrow(states, events, m, p, n - 1);
    }
  }

  /** A young calibration has lasted at most one gap for each of its samples. */
  lemma {:induction false} ElapsedBound(states: seq<Engine>, events: seq<Event>, k: nat, p: nat, n: nat, gap: nat)
    requires k <= p < n <= |events| && |states| == |events| + 1 && Regular(states, events, k, n, gap)
    requires SampledAt(states[p], events[p])
    requires |Samples(states, events, FirstSample(states, k), p + 1)| < CALIB_MIN_FRAMES
    ensures events[p].at - events[k].at <= gap * |Samples(states, events, FirstSample(states, k), p + 1)|
  {
    var m := FirstSample(states, k);
    if p > k {
      assert SoonAfter(states, events, k, p, gap);
      var q: nat :| k <= q < p && SampledAt(states[q], events[q]) && events[p].at - events[q].at <= gap;
      hide SampledAt, AddSample, Regular, SoonAfter;
      OneSampleMore(states, events, m, q, p);
      ElapsedBound(states, events, k, q, n, gap);
      hide Samples;
      Gaps(gap, |Samples(states, events, m, q + 1)|, |Samples(states, events, m, p + 1)|);
    }
  }

  lemma Gaps(gap: nat, a: nat, b: nat)
    requires a + 1 <= b
    ensures gap * a + gap <= gap * b
  {
    assert gap * (b - a - 1) >= 0;
  }

  lemma OneSampleMore(states: seq<Engine>, events: seq<Event>, m: nat, q: nat, p: nat)
    requires m <= q + 1 <= p < |events| && |states| == |events| + 1 && SampledAt(states[p], events[p])
    requires |Samples(states, events, m, p + 1)| < CALIB_MIN_FRAMES
    ensures |Samples(states, events, m, q + 1)| + 1 <= |Samples(states, events, m, p + 1)|
  {
    SamplesGrow(states, events, m, q + 1, p);
    var s := Samples(states, events, m, p);
    assert Samples(states, events, m, p + 1) == AddSample(s, TakeSnapshot(states[p], events[p].at).avgShort);
  }

  /** A sample taken with none judged before it comes well within the limit. */
  lemma ElapsedAtSample(states: seq<Engine>, events: seq<Event>, k: nat, n: nat, gap: nat)
    requires k < n < |events| && |states| == |events| + 1 && gap < 1000
    requires Unjudged(states, events, k, n) && Regular(states, events, k, n + 1, gap)
    requires SampledAt(states[n], events[n])
    ensures events[n].at - events[k].at < CALIB_MAX_WAIT_MS
  {
    assert SoonAfter(states, events, k, n, gap);
    var q: nat :| k <= q < n && SampledAt(states[q], events[q]) && events[n].at - events[q].at <= gap;
    var m := FirstSample(states, k);
    assert q < m ==> Samples(states, events, m, q + 1) == [];
    hide SampledAt, Samples, Regular, SoonAfter;
    if |Samples(states, events, m, q + 1)| < CALIB_MIN_FRAMES {
      ElapsedBound(states, events, k, q, n + 1, gap);
      Gaps(gap, |Samples(states, events, m, q + 1)|, CALIB_MIN_FRAMES);
    } else {
      assert TooEarly(states, events, k, q);
    }
  }

  /**
   * With usable ticks less than a second apart no base above 50 ms ever comes out of a calibration:
   * such a median starts the calibration over long before its limit of twenty seconds.
   */
  lemma LimitNeverReached(states: seq<Engine>, events: seq<Event>, n: nat, gap: nat)
    requires Run(states, events) && n < |events| && gap < 1000
    requires states[n].phase in {Unknown, Calibrating} && states[n + 1].phase == Stable
    requires forall k: nat :: k < n && CalibratedFrom(states, events, k, n) ==> Regular(states, events, k, n + 1, gap)
    ensures states[n + 1].base <= CALIB_MIN_INTERVAL_MS
  {
    CalibrationMeasures(states, events, n);
    StableNeedsSample(states, events, n);
    assert |states| == |events| + 1;
    hide Run, SampledAt, Samples, CalibratedFrom, Unjudged, Regular, Median;
    var k: nat :| k < n && CalibratedFrom(states, events, k, n) && Unjudged(states, events, k, n)
              && events[n].at - events[k].at
                    >= if states[n + 1].base > CALIB_MIN_INTERVAL_MS then CALIB_MAX_WAIT_MS else CALIB_MS;
    ElapsedAtSample(states, events, k, n, gap);
  }

  lemma MedianAbove(values: seq<real>, x: real)
    requires values != [] && forall v :: v in values ==> v > x
    ensures Median(values) > x
  {
    var sorted := Sort(values);
    forall i | 0 <= i < |sorted| ensures sorted[i] > x {
      assert sorted[i] in multiset(sorted);
      assert sorted[i] in values;
    }
  }

  /** Every sample of the run is above x. */
  predicate SamplesAbove(states: seq<Engine>, events: seq<Event>, x: real) {
    |states| == |events| + 1
    && forall j :: 0 <= j < |events| && SampledAt(states[j], events[j]) ==>
         TakeSnapshot(states[j], events[j].at).avgShort > x
  }

  lemma {:induction false} AllAbove(states: seq<Engine>, events: seq<Event>, m: nat, n: nat, x: real)
    requires m <= n <= |events| && SamplesAbove(states, events, x)
    ensures forall v :: v in Samples(states, events, m, n) ==> v > x
  {
    if m < n {
      AllAbove(states, events, m, n - 1, x);
      hide TakeSnapshot, UsableAt;
    }
  }

  /**
   * A calibration of a game below 20 frames per second ends exactly when its first tick with enough
   * samples and time comes 20 s or more after its start; an earlier one starts it over.
   */
  lemma SlowEndsIff(states: seq<Engine>, events: seq<Event>, n: nat)
    requires Run(states, events) && n < |events| && SamplesAbove(states, events, CALIB_MIN_INTERVAL_MS)
    requires states[n].phase == Calibrating && SampledAt(states[n], events[n])
    ensures exists k: nat :: k < n && CalibratedFrom(states, events, k, n) && Unjudged(states, events, k, n)
              && (states[n + 1].phase == Stable
                  <==> !TooEarly(states, events, k, n) && events[n].at - events[k].at >= CALIB_MAX_WAIT_MS)
  {
    CalibrationEndsIff(states, events, n);
    assert |states| == |events| + 1;
    hide *;
    var k: nat :| k < n && CalibratedFrom(states, events, k, n) && Unjudged(states, events, k, n)
              && (states[n + 1].phase == Stable
                  <==> Ends(Samples(states, events, FirstSample(states, k), n + 1), events[n].at - events[k].at));
    SlowEnds(states, events, k, n);
  }

  lemma SlowEnds(states: seq<Engine>, events: seq<Event>, k: nat, n: nat)
    requires k < n < |events| && SamplesAbove(states, events, CALIB_MIN_INTERVAL_MS) && |states| == |events| + 1
    ensures FirstSample(states, k) <= n + 1
    ensures Ends(Samples(states, events, FirstSample(states, k), n + 1), events[n].at - events[k].at)
       <==> !TooEarly(states, events, k, n) && events[n].at - events[k].at >= CALIB_MAX_WAIT_MS
  {
    var samples := Samples(states, events, FirstSample(states, k), n + 1);
    AllAbove(states, events, FirstSample(states, k), n + 1, CALIB_MIN_INTERVAL_MS);
    hide Samples, SamplesAbove, Median;
    if samples != [] {
      MedianAbove(samples, CALIB_MIN_INTERVAL_MS);
    }
  }

  /** So a game below 20 frames per second never gets a baseline. */
  lemma {:induction false} SlowGameStuck(states: seq<Engine>, events: seq<Event>, n: nat, gap: nat)
    requires Run(states, events) && n <= |events| && gap < 1000
    requires SamplesAbove(states, events, CALIB_MIN_INTERVAL_MS)
    requires forall j: nat, k: nat :: k < j < |events| && CalibratedFrom(states, events, k, j) ==>
               Regular(states, events, k, j + 1, gap)
    ensures states[n].phase in {Unknown, Calibrating} && states[n].stableFps == 0
  {
    RunKeeps(states, events, n);
    if n > 0 {
      SlowGameStuck(states, events, n - 1, gap);
      RunKeeps(states, events, n - 1);
      var e, ev := states[n - 1], events[n - 1];
      assert states[n - 1 + 1] == Next(e, ev);
      NeverDirectlyDegraded(e, ev);
      if states[n].phase == Stable {
        LimitNeverReached(states, events, n - 1, gap);
        CalibrationMeasures(states, events, n - 1);
        hide Run, Next, Samples, CalibratedFrom, Unjudged, Regular, Median, EngineOk, SamplesAbove;
        var k: nat :| k < n - 1 && CalibratedFrom(states, events, k, n - 1)
                      && |Samples(states, events, FirstSample(states, k), n)| >= CALIB_MIN_FRAMES
                      && states[n].base == Median(Samples(states, events, FirstSample(states, k), n));
        AllAbove(states, events, FirstSample(states, k), n, CALIB_MIN_INTERVAL_MS);
        MedianAbove(Samples(states, events, FirstSample(states, k), n), CALIB_MIN_INTERVAL_MS);
        assert false;
      }
    }
  }

  lemma NeverDirectlyDegraded(e: Engine, ev: Event)
    requires EngineOk(e) && e.phase in {Unknown, Calibrating}
    ensures Next(e, ev).phase != Degraded
  {
    hide TakeSnapshot, FpsFromInterval, Median, BufferPush, Trim;
  }

  lemma StableNeedsSample(states: seq<Engine>, events: seq<Event>, n: nat)
    requires Run(states, events) && n < |events|
    requires states[n].phase in {Unknown, Calibrating} && states[n + 1].phase == Stable
    ensures SampledAt(states[n], events[n])
  {
    assert states[n + 1] == Next(states[n], events[n]);
    if !SampledAt(states[n], events[n]) {
      IdleStep(states[n], events[n]);
    }
  }
}
