/**
 * What the FAS controller promises, said of the frames it holds and of what it puts out, without the
 * functions that compute it: averages, rates, when frames are usable, and how far each tick goes.
 */
module FasLaws {
  import opened FasEngine
  import opened Numbers

  // ---- Averages and rates ----

  /** The sum of frames i to j - 1. */
  function Total(s: seq<real>, i: nat, j: nat): real
    requires i <= j <= |s|
  {
    if i == j then 0.0 else Total(s, i, j - 1) + s[j - 1]
  }

  lemma {:induction false} SumIsTotal(s: seq<real>, i: nat, j: nat)
    requires i <= j <= |s|
    ensures Sum(s[i..j]) == Total(s, i, j)
  {
    if i < j {
      SumIsTotal(s, i, j - 1);
      assert s[i..j][..j - 1 - i] == s[i..j - 1];
    }
  }

  /** avg is the mean of the newest n frames. */
  predicate Mean(frames: seq<real>, n: nat, avg: real) {
    0 < n <= |frames| && avg * n as real == Total(frames, |frames| - n, |frames|)
  }

  lemma AverageIsMean(frames: seq<real>, n: nat)
    requires 0 < n <= |frames|
    ensures Mean(frames, n, Average(frames, n))
  {
    SumIsTotal(frames, |frames| - n, |frames|);
    assert frames[|frames| - n..] == frames[|frames| - n..|frames|];
    hide Sum, Total;
    var sum, d := Sum(frames[|frames| - n..]), n as real;
    assert sum / d * d == sum;
  }

  /** w frames make a tenth of a second at this rate, but no fewer than 8 nor more than 18. */
  predicate TenthOfSecond(fps: int, w: nat) {
    8 <= w <= 18 && (w == 8 || 10 * w <= fps) && (w == 18 || fps < 10 * (w + 1))
  }

  /** The base rate, or 120 before there is one. */
  function Pace(e: Engine): int {
    if e.stableFps > 0 then e.stableFps else 120
  }

  /** avg is the mean of the newest tenth of a second of frames. */
  ghost predicate ShortMean(e: Engine, avg: real) {
    exists w: nat :: TenthOfSecond(Pace(e), w)
                && Mean(e.frames, if w < |e.frames| then w else |e.frames|, avg)
  }

  /** fps is the whole number nearest to 1000 / ms, the larger one when two are. */
  predicate Rate(ms: real, fps: int) {
    HalvesAround(ms, (2 * fps - 1) as real, (2 * fps + 1) as real)
  }

  predicate HalvesAround(ms: real, low: real, high: real) {
    low * ms <= 2000.0 < high * ms
  }

  /** fps is the rate of the newest 60 frames. */
  ghost predicate LongRate(e: Engine, fps: int) {
    exists avg: real :: Mean(e.frames, if 60 < |e.frames| then 60 else |e.frames|, avg) && Rate(avg, fps)
  }

  lemma {:induction false} TenthUnique(fps: int, v: nat, w: nat)
    requires TenthOfSecond(fps, v) && TenthOfSecond(fps, w)
    ensures v == w
  {
  }

  lemma MeanUnique(frames: seq<real>, n: nat, a: real, b: real)
    requires Mean(frames, n, a) && Mean(frames, n, b)
    ensures a == b
  {
    hide Total;
    if a < b {
      MulLess(a, b, n as real);
    } else if b < a {
      MulLess(b, a, n as real);
    }
  }

  lemma ShortCountIs(fps: int)
    requires fps > 0
    ensures ShortCount(fps) > 0 && TenthOfSecond(fps, ShortCount(fps))
  {
  }

  lemma RoundedIsRate(ms: real)
    requires ms > 0.0
    ensures Rate(ms, (1000.0 / ms + 0.5).Floor)
  {
    var x := 1000.0 / ms;
    assert x * ms == 1000.0;
    NearestIsRate(ms, x, (x + 0.5).Floor);
  }

  lemma NearestIsRate(ms: real, x: real, fps: int)
    requires ms > 0.0 && x * ms == 1000.0 && fps as real <= x + 0.5 < fps as real + 1.0
    ensures Rate(ms, fps)
  {
    var y := 2.0 * x;
    assert y * ms == 2000.0;
    Within(y, (2 * fps - 1) as real, (2 * fps + 1) as real, ms);
  }

  lemma Within(y: real, low: real, high: real, ms: real)
    requires ms > 0.0 && low <= y < high && y * ms == 2000.0
    ensures HalvesAround(ms, low, high)
  {
    Scaled(low, y, ms);
    if high * ms <= 2000.0 {
      NotBelow(high, y, ms);
    }
  }

  lemma Scaled(a: real, b: real, c: real)
    requires a <= b && c > 0.0
    ensures a * c <= b * c
  {
  }

  /** What a tick sees: the mean of the short window and the rate of the long one. */
  lemma SnapshotMeans(e: Engine, now: int)
    requires EngineOk(e) && e.frames != []
    ensures var s := TakeSnapshot(e, now);
            ShortMean(e, s.avgShort) && ValidInterval(s.avgShort) && LongRate(e, s.fpsLong)
  {
    SnapshotBounds(e, now);
    ShortCountIs(Pace(e));
    AverageIsMean(e.frames, Min(ShortCount(Pace(e)), |e.frames|));
    LongIsRate(e);
    hide Average, ShortCount, Mean, TenthOfSecond, CalcFps, LongRate, Rate;
  }

  lemma LongIsRate(e: Engine)
    requires EngineOk(e) && e.frames != []
    ensures LongRate(e, CalcFps(Average(e.frames, Min(|e.frames|, 60))))
  {
    var l := Min(|e.frames|, 60);
    AverageIsMean(e.frames, l);
    AverageBounds(e.frames, l);
    hide Average, Mean;
    RoundedIsRate(Average(e.frames, l));
  }

  /** The base rate is the rate of the base interval. */
  lemma BaseRate(e: Engine)
    requires EngineOk(e) && e.phase in {Stable, Degraded}
    ensures Rate(e.base, e.stableFps)
  {
    var x := 1000.0 / e.base;
    assert x * e.base == 1000.0;
    if x < 1.0 {
      MulLess(x, 1.0, e.base);
    }
    if x > 1000.0 {
      MulLess(1000.0, x, e.base);
    }
    RoundedIsRate(e.base);
  }

  // ---- When frames are usable ----

  /** Six frames, the last at most 250 ms ago, and a second since the frames were last found unusable. */
  predicate Warm(e: Engine, now: int) {
    && e.package != "" && |e.frames| >= 6
    && (e.lastUpdateMs > 0 ==> now <= e.lastUpdateMs + 250)
    && (e.usable || (e.usableSinceMs > 0 && now >= e.usableSinceMs + 1000))
  }

  lemma UsableIff(e: Engine, now: int)
    requires EngineOk(e)
    ensures UsableAt(e, now) <==> Warm(e, now)
  {
    if e.frames != [] {
      AverageBounds(e.frames, Min(|e.frames|, 60));
    }
    hide Average, CalcFps;
  }

  // ---- What a degraded engine asks for ----

  /** The factor is the interval over the base, between one and four, with a margin of four hundredths. */
  predicate Proportional(scale: real, avg: real, base: real) {
    && (base <= avg <= 4.0 * base ==> scale * base == 1.04 * avg)
    && (avg <= base ==> scale == 1.04)
    && (avg >= 4.0 * base ==> scale == 4.16)
  }

  /** Every tick of every run that reports degraded asks in proportion to the short window. */
  lemma RaisesInProportion(states: seq<Engine>, events: seq<Event>, n: nat)
    requires Run(states, events) && n < |events| && events[n].Clock?
    requires Tick(states[n], events[n].at).1.phase == Degraded
    ensures |states| == |events| + 1 && states[n + 1].base == states[n].base > 0.0
    ensures exists avg :: ShortMean(states[n], avg)
                     && Proportional(Tick(states[n], events[n].at).1.freqScale, avg, states[n].base)
  {
    var e, now := states[n], events[n].at;
    RunKeeps(states, events, n);
    RunStep(states, events, n);
    DegradedAsks(e, now);
    ReportsDegraded(e, now);
    SnapshotMeans(e, now);
  }

  lemma DegradedAsks(e: Engine, now: int)
    requires EngineOk(e) && Tick(e, now).1.phase == Degraded
    ensures UsableAt(e, now) && e.base > 0.0 && Tick(e, now).0.base == e.base
    ensures Proportional(Tick(e, now).1.freqScale, TakeSnapshot(e, now).avgShort, e.base)
  {
    hide TakeSnapshot, FpsFromInterval, Median, EngineOk, RaiseScale, Calibrate;
    ReportsDegraded(e, now);
    var s := TakeSnapshot(e, now);
    assert e.phase in {Stable, Degraded} by {
      if e.phase in {Unknown, Calibrating} {
        CalibratingStep(e, now);
      }
    }
    StableHasBase(e);
    RaiseIs(s.avgShort, e.base);
  }

  lemma RaiseIs(avg: real, base: real)
    requires base > 0.0
    ensures Proportional(RaiseScale(avg, base), avg, base)
  {
    var q := avg / base;
    assert q * base == avg;
    if avg < base {
      Below(q, 1.0, base);
    }
    if avg > 4.0 * base {
      Below(4.0, q, base);
    }
    if base <= avg {
      NotBelow(1.0, q, base);
    }
    if avg <= 4.0 * base {
      NotBelow(q, 4.0, base);
    }
  }

  lemma Below(a: real, b: real, c: real)
    requires c > 0.0 && a * c < b * c
    ensures a < b
  {
    if a >= b {
      Scaled(b, a, c);
    }
  }

  lemma NotBelow(a: real, b: real, c: real)
    requires c > 0.0 && a * c <= b * c
    ensures a <= b
  {
    if b < a {
      MulLess(b, a, c);
    }
  }

  /** A longer interval asks for strictly more, up to four times the base. */
  lemma LongerAsksMore(base: real, avg: real, scale: real, avg': real, scale': real)
    requires base > 0.0 && Proportional(scale, avg, base) && Proportional(scale', avg', base)
    requires base <= avg < avg' <= 4.0 * base
    ensures scale < scale'
  {
    if scale' <= scale {
      Scaled(scale', scale, base);
    }
  }

  // ---- The median ----

  lemma LastIsLargest(s: seq<real>)
    requires Ascending(s) && s != []
    ensures (forall x :: x in s ==> x <= s[|s| - 1]) && Ascending(s[..|s| - 1])
    ensures multiset(s[..|s| - 1]) == multiset(s) - multiset{s[|s| - 1]}
  {
    assert s == s[..|s| - 1] + [s[|s| - 1]];
  }

  lemma {:induction false} AscendingUnique(s: seq<real>, t: seq<real>)
    requires Ascending(s) && Ascending(t) && multiset(s) == multiset(t)
    ensures s == t
  {
    hide Ascending;
    assert |s| == |multiset(s)| == |multiset(t)| == |t|;
    if s != [] {
      var n := |s| - 1;
      LastIsLargest(s);
      LastIsLargest(t);
      assert s[n] in multiset(t) && t[n] in multiset(s);
      assert s[n] in t && t[n] in s;
      assert s[n] == t[n];
      AscendingUnique(s[..n], t[..n]);
      assert s == s[..n] + [s[n]] && t == t[..n] + [t[n]];
    }
  }

  /** The middle of the sorted values: twice the median is the sum of the two middle ones, or twice the only one. */
  lemma MedianOfSorted(values: seq<real>, sorted: seq<real>)
    requires Ascending(sorted) && multiset(sorted) == multiset(values) && values != []
    ensures |sorted| == |values|
    ensures 2.0 * Median(values) == sorted[(|values| - 1) / 2] + sorted[|values| / 2]
  {
    SortAscends(values);
    AscendingUnique(sorted, Sort(values));
    assert |sorted| == |multiset(sorted)| == |values|;
  }
}
