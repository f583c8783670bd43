/**
 * The band used without frame signals: a table of load stages interpolated into a floor and a
 * ceiling, softened, held against falling too often, and clamped by the load limiter.
 */
module DailyBand {
  import opened Numbers
  import RenderBand

  /** From this stage's load on down, these shares of the frequency span, in permille. */
  datatype Stage = Stage(load: int, floor: int, ceiling: int)

  /** What the loader accepts, after its sort. */
  predicate Loaded(stages: seq<Stage>) {
    && stages != []
    && (forall s :: s in stages ==> 0 <= s.load <= 100 && 0 <= s.floor <= s.ceiling <= 1000)
    && (forall i, j :: 0 <= i < j < |stages| ==> stages[i].load <= stages[j].load)
  }

  /** The first stage whose load is not exceeded, looking from stage i on; the last one if there is none. */
  function StageFrom(stages: seq<Stage>, busy: int, i: nat): (r: nat)
    requires i < |stages|
    ensures i <= r < |stages|
    decreases |stages| - i
  {
    if busy <= stages[i].load || i == |stages| - 1 then i else StageFrom(stages, busy, i + 1)
  }

  /** Near the load of the previous stage the previous stage is kept. */
  function KeepStage(stages: seq<Stage>, busy: int, index: nat, prev: int, hysteresis: int): (r: nat)
    requires index < |stages|
    ensures r < |stages|
  {
    if 0 <= prev < |stages| && hysteresis > 0 && index != prev
       && -hysteresis <= busy - stages[prev].load <= hysteresis
    then prev
    else index
  }

  /** How far the load has come from the lower stage to the upper one, in permille. */
  function Progress(busy: int, lower: int, upper: int): (t: int)
    requires upper > lower
    ensures 0 <= t <= 1000
  {
    Min(Max(TruncDiv((busy - lower) * 1000, upper - lower), 0), 1000)
  }

  function Interpolate(low: int, high: int, t: int): int {
    low + TruncDiv((high - low) * t, 1000)
  }

  /** The floor and ceiling of a stage at a load, in permille. */
  function Shares(stages: seq<Stage>, index: nat, busy: int): (int, int)
    requires index < |stages|
  {
    if index > 0 && stages[index].load > stages[index - 1].load then
      var lower, upper := stages[index - 1], stages[index];
      var t := Progress(busy, lower.load, upper.load);
      (Interpolate(lower.floor, upper.floor, t), Interpolate(lower.ceiling, upper.ceiling, t))
    else (stages[index].floor, stages[index].ceiling)
  }

  function Share(fmin: int, fmax: int, permille: int): int {
    fmin + TruncDiv(Max(fmax - fmin, 0) * permille, 1000)
  }

  function Soften(fmin: int, target: int, soften: int): int {
    if soften < 1000 && target > fmin then fmin + TruncDiv((target - fmin) * soften, 1000) else target
  }

  /** The band of a stage at a load, before it is held and limited. */
  function Band(stages: seq<Stage>, index: nat, busy: int, soften: int, fmin: int, fmax: int): (int, int)
    requires index < |stages|
  {
    var (floorShare, ceilingShare) := Shares(stages, index, busy);
    var floor := Share(fmin, fmax, floorShare);
    var target := Max(Soften(fmin, Share(fmin, fmax, ceilingShare), soften), floor);
    (Max(Min(floor, fmax), fmin), Min(target, fmax))
  }

  // ---- The band lies in the limits ----

  lemma InterpolateBetween(low: int, high: int, t: int)
    requires 0 <= t <= 1000
    ensures Min(low, high) <= Interpolate(low, high, t) <= Max(low, high)
    ensures t == 0 ==> Interpolate(low, high, t) == low
    ensures t == 1000 ==> Interpolate(low, high, t) == high
  {
    var d := high - low;
    if d >= 0 {
      MulMonotone(t, 1000, d);
      TruncDivBetween(d * t, d, 1000);
    } else {
      MulMonotone(t, 1000, -d);
      TruncDivBetween(-d * t, -d, 1000);
      assert d * t == -(-d * t);
    }
  }

  lemma SharesInRange(stages: seq<Stage>, index: nat, busy: int)
    requires Loaded(stages) && index < |stages|
    ensures 0 <= Shares(stages, index, busy).0 <= 1000 && 0 <= Shares(stages, index, busy).1 <= 1000
  {
    assert stages[index] in stages;
    if index > 0 && stages[index].load > stages[index - 1].load {
      var lower, upper := stages[index - 1], stages[index];
      assert lower in stages;
      var t := Progress(busy, lower.load, upper.load);
      InterpolateBetween(lower.floor, upper.floor, t);
      InterpolateBetween(lower.ceiling, upper.ceiling, t);
    }
  }

  lemma ShareInRange(fmin: int, fmax: int, permille: int)
    requires fmin <= fmax && 0 <= permille <= 1000
    ensures fmin <= Share(fmin, fmax, permille) <= fmax
  {
    MulMonotone(permille, 1000, fmax - fmin);
    MulMonotone(0, permille, fmax - fmin);
    TruncDivBetween((fmax - fmin) * permille, fmax - fmin, 1000);
  }

  /** For every load and every stage the loader accepts: fmin <= floor <= ceiling <= fmax. */
  lemma BandInRange(stages: seq<Stage>, index: nat, busy: int, soften: int, fmin: int, fmax: int)
    requires Loaded(stages) && index < |stages| && fmin <= fmax
    ensures var (floor, ceiling) := Band(stages, index, busy, soften, fmin, fmax); fmin <= floor <= ceiling <= fmax
  {
    SharesInRange(stages, index, busy);
    ShareInRange(fmin, fmax, Shares(stages, index, busy).0);
  }

  // ---- Breakpoints and monotonicity ----

  lemma {:induction false} StageMeaning(stages: seq<Stage>, busy: int, i: nat)
    requires i < |stages|
    ensures var r := StageFrom(stages, busy, i);
            (busy <= stages[r].load || r == |stages| - 1) && forall k :: i <= k < r ==> stages[k].load < busy
    decreases |stages| - i
  {
    if !(busy <= stages[i].load || i == |stages| - 1) {
      StageMeaning(stages, busy, i + 1);
    }
  }

  /** At the load of a stage, no earlier stage having it, the shares are the stage's own. */
  lemma MeetsBreakpoints(stages: seq<Stage>, k: nat)
    requires Loaded(stages) && k < |stages| && forall i :: 0 <= i < k ==> stages[i].load < stages[k].load
    ensures StageFrom(stages, stages[k].load, 0) == k
    ensures Shares(stages, k, stages[k].load) == (stages[k].floor, stages[k].ceiling)
  {
    var r := StageFrom(stages, stages[k].load, 0);
    StageMeaning(stages, stages[k].load, 0);
    if k > 0 {
      var lower, upper := stages[k - 1], stages[k];
      FullProgress(upper.load - lower.load);
      InterpolateBetween(lower.floor, upper.floor, 1000);
      InterpolateBetween(lower.ceiling, upper.ceiling, 1000);
    }
  }

  lemma FullProgress(band: int)
    requires band > 0
    ensures TruncDiv(band * 1000, band) == 1000
  {
    DivExact(1000, band);
  }

  /** The shares rise from stage to stage. */
  predicate Rising(stages: seq<Stage>) {
    forall i, j :: 0 <= i < j < |stages| ==>
      stages[i].floor <= stages[j].floor && stages[i].ceiling <= stages[j].ceiling
  }

  lemma ProgressMonotone(a: int, b: int, lower: int, upper: int)
    requires upper > lower && a <= b
    ensures Progress(a, lower, upper) <= Progress(b, lower, upper)
  {
    TruncDivMonotone((a - lower) * 1000, (b - lower) * 1000, upper - lower);
  }

  lemma InterpolateMonotone(low: int, high: int, t: int, u: int)
    requires low <= high && t <= u
    ensures Interpolate(low, high, t) <= Interpolate(low, high, u)
  {
    MulMonotone(t, u, high - low);
    TruncDivMonotone((high - low) * t, (high - low) * u, 1000);
  }

  /** The shares at a stage lie between those of the stage before and its own. */
  lemma SharesBetween(stages: seq<Stage>, index: nat, busy: int)
    requires Loaded(stages) && Rising(stages) && index < |stages|
    ensures var (f, c) := Shares(stages, index, busy);
            f <= stages[index].floor && c <= stages[index].ceiling
            && forall i :: 0 <= i < index ==> stages[i].floor <= f && stages[i].ceiling <= c
  {
    if index > 0 && stages[index].load > stages[index - 1].load {
      var lower, upper := stages[index - 1], stages[index];
      var t := Progress(busy, lower.load, upper.load);
      InterpolateBetween(lower.floor, upper.floor, t);
      InterpolateBetween(lower.ceiling, upper.ceiling, t);
      assert forall i :: 0 <= i < index ==> stages[i].floor <= lower.floor && stages[i].ceiling <= lower.ceiling;
    }
  }

  /** Without hysteresis the shares never fall when the load rises. */
  lemma SharesMonotone(stages: seq<Stage>, a: int, b: int)
    requires Loaded(stages) && Rising(stages) && a <= b
    ensures var (p, q) := (Shares(stages, StageFrom(stages, a, 0), a), Shares(stages, StageFrom(stages, b, 0), b));
            p.0 <= q.0 && p.1 <= q.1
  {
    var i, j := StageFrom(stages, a, 0), StageFrom(stages, b, 0);
    StageMeaning(stages, a, 0);
    StageMeaning(stages, b, 0);
    if i == j {
      SameStageMonotone(stages, i, a, b);
    } else {
      assert i < j;
      SharesBetween(stages, i, a);
      SharesBetween(stages, j, b);
    }
  }

  lemma SameStageMonotone(stages: seq<Stage>, i: nat, a: int, b: int)
    requires Loaded(stages) && Rising(stages) && a <= b && i < |stages|
    ensures Shares(stages, i, a).0 <= Shares(stages, i, b).0 && Shares(stages, i, a).1 <= Shares(stages, i, b).1
  {
    if i > 0 && stages[i].load > stages[i - 1].load {
      var lower, upper := stages[i - 1], stages[i];
      ProgressMonotone(a, b, lower.load, upper.load);
      var p, q := Progress(a, lower.load, upper.load), Progress(b, lower.load, upper.load);
      InterpolateMonotone(lower.floor, upper.floor, p, q);
      InterpolateMonotone(lower.ceiling, upper.ceiling, p, q);
    }
  }

  lemma ShareMonotone(fmin: int, fmax: int, p: int, q: int)
    requires p <= q
    ensures Share(fmin, fmax, p) <= Share(fmin, fmax, q)
  {
    MulMonotone(p, q, Max(fmax - fmin, 0));
    TruncDivMonotone(Max(fmax - fmin, 0) * p, Max(fmax - fmin, 0) * q, 1000);
  }

  lemma SoftenMonotone(fmin: int, p: int, q: int, soften: int)
    requires p <= q && 0 <= soften
    ensures Soften(fmin, p, soften) <= Soften(fmin, q, soften)
  {
    if soften < 1000 && q > fmin {
      if p > fmin {
        MulMonotone(p - fmin, q - fmin, soften);
        TruncDivMonotone((p - fmin) * soften, (q - fmin) * soften, 1000);
      } else {
        MulMonotone(0, q - fmin, soften);
        TruncDivMonotone(0, (q - fmin) * soften, 1000);
      }
    }
  }

  /** With rising stages both bounds of the band are nondecreasing in the load. */
  lemma BandMonotone(stages: seq<Stage>, a: int, b: int, soften: int, fmin: int, fmax: int)
    requires Loaded(stages) && Rising(stages) && a <= b && soften >= 0
    ensures var p := Band(stages, StageFrom(stages, a, 0), a, soften, fmin, fmax);
            var q := Band(stages, StageFrom(stages, b, 0), b, soften, fmin, fmax);
            p.0 <= q.0 && p.1 <= q.1
  {
    SharesMonotone(stages, a, b);
    var p, q := Shares(stages, StageFrom(stages, a, 0), a), Shares(stages, StageFrom(stages, b, 0), b);
    ShareMonotone(fmin, fmax, p.0, q.0);
    ShareMonotone(fmin, fmax, p.1, q.1);
    SoftenMonotone(fmin, Share(fmin, fmax, p.1), Share(fmin, fmax, q.1), soften);
  }

  // ---- Holding and limiting ----

  /** The last band taken over and when it last narrowed. */
  datatype Hold = Hold(floor: int, ceiling: int, fallMs: int)

  function HeldFloor(h: Hold, floor: int): int {
    if h.floor > 0 then h.floor else floor
  }

  function HeldCeiling(h: Hold, ceiling: int): int {
    if h.ceiling > 0 then h.ceiling else ceiling
  }

  predicate Narrows(h: Hold, floor: int, ceiling: int) {
    floor < HeldFloor(h, floor) || ceiling < HeldCeiling(h, ceiling)
  }

  predicate Widens(h: Hold, floor: int, ceiling: int) {
    floor > HeldFloor(h, floor) || ceiling > HeldCeiling(h, ceiling)
  }

  /** A band that only narrows is held back until enough time has passed since the last narrowing. */
  predicate HeldBack(h: Hold, floor: int, ceiling: int, fallHoldMs: int, now: int) {
    Narrows(h, floor, ceiling) && !Widens(h, floor, ceiling) && now - h.fallMs < fallHoldMs
  }

  function HoldBand(h: Hold, floor: int, ceiling: int, fallHoldMs: int, now: int): (Hold, int, int) {
    if HeldBack(h, floor, ceiling, fallHoldMs, now) then (h, HeldFloor(h, floor), HeldCeiling(h, ceiling))
    else (Hold(floor, ceiling, if Narrows(h, floor, ceiling) then now else h.fallMs), floor, ceiling)
  }

  /** What the limiter sets for one cluster at one load stage; zero sets nothing. */
  datatype Limit = Limit(minKhz: int, maxKhz: int)

  /** dyn_limiter_clamp_band. */
  function LimitBand(limit: Limit, floor: int, ceiling: int, fmin: int, fmax: int): (int, int) {
    var lo := if limit.minKhz > 0 && floor < limit.minKhz then limit.minKhz else floor;
    var hi := if limit.maxKhz > 0 && ceiling > limit.maxKhz then limit.maxKhz else ceiling;
    var hi' := Max(Min(hi, fmax), fmin);
    (Min(Min(Max(lo, fmin), fmax), hi'), hi')
  }

  /** Whatever band comes in, the limiter puts out one with fmin <= floor <= ceiling <= fmax. */
  lemma LimitedInRange(limit: Limit, floor: int, ceiling: int, fmin: int, fmax: int)
    requires fmin <= fmax
    ensures var (lo, hi) := LimitBand(limit, floor, ceiling, fmin, fmax); fmin <= lo <= hi <= fmax
    ensures limit.minKhz <= floor && (limit.maxKhz <= 0 || ceiling <= limit.maxKhz)
            && fmin <= floor <= ceiling <= fmax ==>
              LimitBand(limit, floor, ceiling, fmin, fmax) == (floor, ceiling)
  {
  }

  /**
   * Without the limiter the band put out stays in the limits exactly when it is not held back, or the
   * band still held lies in the limits of now.
   */
  lemma HeldInRange(stages: seq<Stage>, index: nat, busy: int, soften: int, fmin: int, fmax: int, h: Hold,
                    fallHoldMs: int, now: int)
    requires Loaded(stages) && index < |stages| && fmin <= fmax
    requires 0 < h.floor <= h.ceiling
    ensures var (floor, ceiling) := Band(stages, index, busy, soften, fmin, fmax);
            var (_, lo, hi) := HoldBand(h, floor, ceiling, fallHoldMs, now);
            fmin <= lo <= hi <= fmax
            <==> !HeldBack(h, floor, ceiling, fallHoldMs, now) || (fmin <= h.floor && h.ceiling <= fmax)
  {
    BandInRange(stages, index, busy, soften, fmin, fmax);
  }

  /** What is finally written stays below fmax exactly when the floor that comes out does. */
  lemma WrittenInRange(policy: RenderBand.Policy, floor: int, ceiling: int, fmin: int, fmax: int)
    requires policy.hwMin <= fmin <= fmax <= policy.hwMax
    ensures RenderBand.Wanted(policy, floor, ceiling, fmin, fmax).1 <= fmax <==> floor <= fmax
    ensures fmin <= RenderBand.Wanted(policy, floor, ceiling, fmin, fmax).0
  {
  }

  // ---- The tuner of one cluster ----

  datatype Params = Params(stages: seq<Stage>, hysteresis: int, soften: int, fallHoldMs: int)

  /** What one cluster remembers between ticks: its stage and the band it holds. */
  datatype Tuner = Tuner(stage: int, hold: Hold)

  /** One tick: the configuration, the load, the limits and the time, any of which may differ from the last. */
  datatype DailyTick = DailyTick(params: Params, busy: int, fmin: int, fmax: int, now: int)

  function FreshTuner(): Tuner {
    Tuner(0, Hold(0, 0, 0))
  }

  /** The daily part of handle_dynamic_tuning, up to the limiter: the tuner afterwards and the band. */
  function TuneTick(t: Tuner, tick: DailyTick): (Tuner, int, int)
    requires tick.params.stages != []
  {
    var p := tick.params;
    var index := KeepStage(p.stages, tick.busy, StageFrom(p.stages, tick.busy, 0), t.stage, p.hysteresis);
    var (f, c) := Band(p.stages, index, tick.busy, p.soften, tick.fmin, tick.fmax);
    var (h, lo, hi) := HoldBand(t.hold, f, c, p.fallHoldMs, tick.now);
    (Tuner(index, h), lo, hi)
  }

  /** The tuner after some ticks from startup. */
  function AfterTicks(ticks: seq<DailyTick>): Tuner
    requires forall t :: t in ticks ==> t.params.stages != []
  {
    if ticks == [] then FreshTuner() else TuneTick(AfterTicks(ticks[..|ticks| - 1]), ticks[|ticks| - 1]).0
  }

  /** Nothing is held yet, or a band within the limits. */
  predicate HoldsWithin(h: Hold, fmin: int, fmax: int) {
    (h.floor == 0 && h.ceiling == 0) || fmin <= h.floor <= h.ceiling <= fmax
  }

  lemma TickInRange(t: Tuner, tick: DailyTick)
    requires Loaded(tick.params.stages) && tick.fmin <= tick.fmax && HoldsWithin(t.hold, tick.fmin, tick.fmax)
    ensures var (t', lo, hi) := TuneTick(t, tick);
            tick.fmin <= lo <= hi <= tick.fmax && HoldsWithin(t'.hold, tick.fmin, tick.fmax)
  {
    var p := tick.params;
    var index := KeepStage(p.stages, tick.busy, StageFrom(p.stages, tick.busy, 0), t.stage, p.hysteresis);
    BandInRange(p.stages, index, tick.busy, p.soften, tick.fmin, tick.fmax);
    hide Band, KeepStage, StageFrom;
  }

  /** While the limits do not change, the band of every tick of every run lies within them. */
  lemma {:induction false} RunInRange(ticks: seq<DailyTick>, next: DailyTick)
    requires Loaded(next.params.stages) && next.fmin <= next.fmax
    requires forall t :: t in ticks ==> t.params.stages != [] && Loaded(t.params.stages)
    requires forall t :: t in ticks ==> t.fmin == next.fmin && t.fmax == next.fmax
    ensures HoldsWithin(AfterTicks(ticks).hold, next.fmin, next.fmax)
    ensures var (_, lo, hi) := TuneTick(AfterTicks(ticks), next); next.fmin <= lo <= hi <= next.fmax
  {
    if ticks != [] {
      var n := |ticks| - 1;
      assert ticks[n] in ticks && forall t :: t in ticks[..n] ==> t in ticks;
      RunInRange(ticks[..n], next);
      TickInRange(AfterTicks(ticks[..n]), ticks[n]);
    }
    TickInRange(AfterTicks(ticks), next);
  }

  /** Three ticks at which the maximum drops, the last time soon after the band narrowed. */
  function DroppingTicks(): seq<DailyTick> {
    var p := Params([Stage(100, 500, 1000)], 0, 1000, 300);
    [DailyTick(p, 50, 300_000, 3_000_000, 500), DailyTick(p, 50, 300_000, 2_900_000, 1000),
     DailyTick(p, 50, 300_000, 1_500_000, 1100)]
  }

  /** Then a band from before the drop is put out, and even written, above the new maximum. */
  lemma StaleBandAboveMaximum()
    ensures var ticks := DroppingTicks();
            var (_, lo, hi) := TuneTick(AfterTicks(ticks[..2]), ticks[2]);
            lo == 1_600_000 > ticks[2].fmax
            && RenderBand.Wanted(RenderBand.Policy([], 300_000, 3_000_000), lo, hi, 300_000, 1_500_000).1 > 1_500_000
  {
    var ticks := DroppingTicks();
    assert ticks[..2][..1] == ticks[..1] && ticks[..1][..0] == [];
    assert AfterTicks(ticks[..1]) == Tuner(0, Hold(1_650_000, 3_000_000, 0)) by {
      assert AfterTicks([]) == FreshTuner();
    }
    assert AfterTicks(ticks[..2]) == Tuner(0, Hold(1_600_000, 2_900_000, 1000));
  }

  class DailyTuner {
    var stageIndex: int
    var floor: int
    var ceiling: int
    var fallMs: int

    constructor ()
      ensures stageIndex == 0 && HoldState() == Hold(0, 0, 0)
    {
      stageIndex, floor, ceiling, fallMs := 0, 0, 0, 0;
    }

    function HoldState(): Hold
      reads this
    {
      Hold(floor, ceiling, fallMs)
    }

    /** The stage of a load, with hysteresis. */
    method PickStage(p: Params, busy: int) returns (index: nat)
      requires p.stages != []
      modifies this`stageIndex
      ensures index < |p.stages|
      ensures index == KeepStage(p.stages, busy, StageFrom(p.stages, busy, 0), old(stageIndex), p.hysteresis)
      ensures stageIndex == index
    {
      index := |p.stages| - 1;
      var i := 0;
      while i < |p.stages|
        invariant 0 <= i <= |p.stages| && index == |p.stages| - 1
        invariant i < |p.stages| ==> StageFrom(p.stages, busy, 0) == StageFrom(p.stages, busy, i)
        invariant i == |p.stages| ==> StageFrom(p.stages, busy, 0) == |p.stages| - 1
      {
        if busy <= p.stages[i].load {
          index := i;
          break;
        }
        i := i + 1;
      }
      if 0 <= stageIndex < |p.stages| && p.hysteresis > 0 && index != stageIndex {
        var away := busy - p.stages[stageIndex].load;
        if (if away < 0 then -away else away) <= p.hysteresis {
          index := stageIndex;
        }
      }
      stageIndex := index;
    }

    /** The daily part of handle_dynamic_tuning, up to the limiter. */
    method Tune(p: Params, busy: int, fmin: int, fmax: int, now: int) returns (lo: int, hi: int)
      requires p.stages != []
      modifies this
      ensures (Tuner(stageIndex, HoldState()), lo, hi)
           == TuneTick(Tuner(old(stageIndex), old(HoldState())), DailyTick(p, busy, fmin, fmax, now))
    {
      var index := PickStage(p, busy);
      lo, hi := StageBand(p, index, busy, fmin, fmax);
      var curFloor := if floor > 0 then floor else lo;
      var curCeil := if ceiling > 0 then ceiling else hi;
      var widening := lo > curFloor || hi > curCeil;
      var narrowing := lo < curFloor || hi < curCeil;
      if widening || !narrowing || now - fallMs >= p.fallHoldMs {
        floor := lo;
        ceiling := hi;
        if narrowing {
          fallMs := now;
        }
      } else {
        lo := curFloor;
        hi := curCeil;
      }
    }

    method StageBand(p: Params, index: nat, busy: int, fmin: int, fmax: int) returns (lo: int, hi: int)
      requires index < |p.stages|
      ensures (lo, hi) == Band(p.stages, index, busy, p.soften, fmin, fmax)
    {
      var span := if fmax > fmin then fmax - fmin else 0;
      var floorShare, ceilingShare := p.stages[index].floor, p.stages[index].ceiling;
      if index > 0 {
        var lower, upper := p.stages[index - 1], p.stages[index];
        var band := upper.load - lower.load;
        if band > 0 {
          var t := TruncDiv((busy - lower.load) * 1000, band);
          if t < 0 {
            t := 0;
          }
          if t > 1000 {
            t := 1000;
          }
          floorShare := lower.floor + TruncDiv((upper.floor - lower.floor) * t, 1000);
          ceilingShare := lower.ceiling + TruncDiv((upper.ceiling - lower.ceiling) * t, 1000);
        }
      }
      assert (floorShare, ceilingShare) == Shares(p.stages, index, busy);
      hide TruncDiv;
      lo := fmin + TruncDiv(span * floorShare, 1000);
      hi := fmin + TruncDiv(span * ceilingShare, 1000);
      if p.soften < 1000 && hi > fmin {
        hi := fmin + TruncDiv((hi - fmin) * p.soften, 1000);
      }
      if hi < lo {
        hi := lo;
      }
      if hi > fmax {
        hi := fmax;
      }
      if lo > fmax {
        lo := fmax;
      }
      if lo < fmin {
        lo := fmin;
      }
    }
  }

  /** dyn_limiter_clamp_band. */
  method ClampBand(limit: Limit, floor: int, ceiling: int, fmin: int, fmax: int) returns (lo: int, hi: int)
    ensures (lo, hi) == LimitBand(limit, floor, ceiling, fmin, fmax)
    ensures fmin <= fmax ==> fmin <= lo <= hi <= fmax
  {
    lo, hi := floor, ceiling;
    if limit.minKhz > 0 && lo < limit.minKhz {
      lo := limit.minKhz;
    }
    if limit.maxKhz > 0 && hi > limit.maxKhz {
      hi := limit.maxKhz;
    }
    if lo < fmin {
      lo := fmin;
    }
    if hi > fmax {
      hi := fmax;
    }
    if hi < fmin {
      hi := fmin;
    }
    if lo > fmax {
      lo := fmax;
    }
    if lo > hi {
      lo := hi;
    }
  }
}
