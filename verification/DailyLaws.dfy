/**
 * What the daily tuner puts out, said without the functions that compute it: which stage a load falls
 * in, the straight lines between stages, the band they give, and how often it may narrow.
 */
module DailyLaws {
  import opened DailyBand
  import opened Numbers
  import RampLaws

  // ---- The stage ----

  /** The first stage whose load is not exceeded, or the last. */
  predicate FirstReached(stages: seq<Stage>, busy: int, k: nat) {
    k < |stages| && (busy <= stages[k].load || k == |stages| - 1) && forall j :: 0 <= j < k ==> stages[j].load < busy
  }

  /** The load is within the hysteresis of the stage it was in. */
  predicate StaysIn(stages: seq<Stage>, busy: int, prev: int, hysteresis: int) {
    0 <= prev < |stages| && 0 < hysteresis
    && stages[prev].load - hysteresis <= busy <= stages[prev].load + hysteresis
  }

  // ---- The shares ----

  /** s is the value at x of the line from low at 0 to high at d, but for less than two towards low. */
  predicate OnLine(low: int, high: int, d: int, x: int, s: int) {
    if low <= high then d * s <= d * low + (high - low) * x < d * (s + 2)
    else d * (s - 2) < d * low + (high - low) * x <= d * s
  }

  /** The share of the span at a load: on the line between the two stages, and theirs outside it. */
  predicate ShareAt(lower: Stage, upper: Stage, low: int, high: int, busy: int, s: int) {
    if busy <= lower.load then s == low
    else if busy >= upper.load then s == high
    else OnLine(low, high, upper.load - lower.load, busy - lower.load, s)
  }

  predicate SharesAt(stages: seq<Stage>, index: nat, busy: int, f: int, c: int)
    requires index < |stages|
  {
    if index > 0 && stages[index - 1].load < stages[index].load then
      var lower, upper := stages[index - 1], stages[index];
      ShareAt(lower, upper, lower.floor, upper.floor, busy, f)
      && ShareAt(lower, upper, lower.ceiling, upper.ceiling, busy, c)
    else f == stages[index].floor && c == stages[index].ceiling
  }

  lemma Floored(a: int, d: int)
    requires d > 0
    ensures d * (a / d) <= a < d * (a / d + 1)
  {
  }

  lemma QuotientBelow(n: int, d: int, m: int)
    requires d > 0 && 0 <= n < d * m
    ensures 0 <= n / d < m
  {
    Floored(n, d);
    if n / d >= m {
      MulMonotone(m, n / d, d);
    }
  }

  lemma ProgressIs(busy: int, lower: int, upper: int)
    requires lower < busy < upper
    ensures var d, t := upper - lower, Progress(busy, lower, upper);
            0 <= t <= 1000 && d * t <= 1000 * (busy - lower) < d * (t + 1)
  {
    var d, n := upper - lower, (busy - lower) * 1000;
    Floored(n, d);
    QuotientBelow(n, d, 1000);
    assert Progress(busy, lower, upper) == n / d;
    hide *;
  }

  /** Flooring twice loses less than two. */
  lemma RisingLine(d: int, x: int, t: int, delta: int, q: int)
    requires 0 < d && 0 <= t && 0 <= delta <= 1000
    requires d * t <= 1000 * x < d * (t + 1) && 1000 * q <= delta * t < 1000 * (q + 1)
    ensures d * q <= delta * x < d * (q + 2)
  {
    MulMonotone(d * t, 1000 * x, delta);
    MulMonotone(1000 * x, d * (t + 1), delta);
    MulMonotone(1000 * q, delta * t, d);
    MulMonotone(delta * t + 1, 1000 * (q + 1), d);
    Regroup(delta, d, t);
    assert 1000 * (d * q) == d * (1000 * q);
    assert delta * (1000 * x) == 1000 * (delta * x);
    assert delta * (d * (t + 1)) == delta * (d * t) + delta * d;
    MulMonotone(delta, 1000, d);
    assert d * (1000 * (q + 1)) == 1000 * (d * (q + 1));
    assert d * (q + 2) == d * (q + 1) + d;
  }

  lemma Regroup(a: int, b: int, c: int)
    ensures a * (b * c) == b * (a * c)
  {
  }

  lemma LineIs(low: int, high: int, busy: int, lower: int, upper: int)
    requires lower < busy < upper && -1000 <= high - low <= 1000
    ensures OnLine(low, high, upper - lower, busy - lower, Interpolate(low, high, Progress(busy, lower, upper)))
  {
    var t := Progress(busy, lower, upper);
    ProgressIs(busy, lower, upper);
    hide Progress;
    if low <= high {
      LineUp(low, high, upper - lower, busy - lower, t);
    } else {
      LineDown(low, high, upper - lower, busy - lower, t);
    }
    hide *;
  }

  lemma LineUp(low: int, high: int, d: int, x: int, t: int)
    requires 0 < d && 0 <= t && low <= high <= low + 1000 && d * t <= 1000 * x < d * (t + 1)
    ensures OnLine(low, high, d, x, Interpolate(low, high, t))
  {
    var n := (high - low) * t;
    MulMonotone(0, t, high - low);
    Floored(n, 1000);
    RisingLine(d, x, t, high - low, n / 1000);
    Shifted(low, d, (high - low) * x, n / 1000);
  }

  lemma LineDown(low: int, high: int, d: int, x: int, t: int)
    requires 0 < d && 0 <= t && high < low <= high + 1000 && d * t <= 1000 * x < d * (t + 1)
    ensures OnLine(low, high, d, x, Interpolate(low, high, t))
  {
    var n := (low - high) * t;
    MulMonotone(0, t, low - high);
    Floored(n, 1000);
    RisingLine(d, x, t, low - high, n / 1000);
    InterpolateDown(low, high, t);
    Negated(low - high, x);
    Shifted(low, d, (low - high) * x, n / 1000);
  }

  lemma Negated(delta: int, x: int)
    ensures -delta * x == -(delta * x)
  {
  }

  lemma Shifted(low: int, d: int, y: int, q: int)
    requires d * q <= y < d * (q + 2)
    ensures d * (low + q) <= d * low + y < d * (low + q + 2)
    ensures d * (low - q - 2) < d * low - y <= d * (low - q)
  {
    assert d * (low + q) == d * low + d * q;
    assert d * (low + q + 2) == d * low + d * (q + 2);
    assert d * (low - q) == d * low - d * q;
    assert d * (low - q - 2) == d * low - d * (q + 2);
  }

  lemma InterpolateDown(low: int, high: int, t: int)
    requires high < low && 0 <= t
    ensures Interpolate(low, high, t) == low - (low - high) * t / 1000
  {
    assert (high - low) * t == -((low - high) * t);
    MulMonotone(0, t, low - high);
    DivExact(0, 1000);
  }

  lemma OutsideProgress(busy: int, lower: int, upper: int)
    requires lower < upper
    ensures busy <= lower ==> Progress(busy, lower, upper) == 0
    ensures busy >= upper ==> Progress(busy, lower, upper) == 1000
  {
    var d := upper - lower;
    DivExact(1000, d);
    DivExact(0, d);
    if busy >= upper {
      TruncDivMonotone(1000 * d, (busy - lower) * 1000, d);
    } else if busy <= lower {
      TruncDivMonotone((busy - lower) * 1000, 0, d);
    }
  }

  lemma ShareIs(lower: Stage, upper: Stage, low: int, high: int, busy: int)
    requires lower.load < upper.load && 0 <= low <= 1000 && 0 <= high <= 1000
    ensures ShareAt(lower, upper, low, high, busy, Interpolate(low, high, Progress(busy, lower.load, upper.load)))
  {
    OutsideProgress(busy, lower.load, upper.load);
    if lower.load < busy < upper.load {
      LineIs(low, high, busy, lower.load, upper.load);
    } else {
      InterpolateBetween(low, high, 0);
      InterpolateBetween(low, high, 1000);
    }
    hide Progress, Interpolate, OnLine;
  }

  lemma SharesAre(stages: seq<Stage>, index: nat, busy: int)
    requires Loaded(stages) && index < |stages|
    ensures SharesAt(stages, index, busy, Shares(stages, index, busy).0, Shares(stages, index, busy).1)
  {
    assert stages[index] in stages;
    if index > 0 && stages[index - 1].load < stages[index].load {
      var lower, upper := stages[index - 1], stages[index];
      assert lower in stages;
      ShareIs(lower, upper, lower.floor, upper.floor, busy);
      ShareIs(lower, upper, lower.ceiling, upper.ceiling, busy);
    }
    hide ShareAt, Progress, Interpolate;
  }

  // ---- The band ----

  /** v lies so many thousandths of the span above the minimum. */
  predicate Above(fmin: int, span: int, permille: int, v: int) {
    1000 * (v - fmin) <= span * permille < 1000 * (v - fmin + 1)
  }

  /** The ceiling is the softened one, but not below the floor. */
  predicate SoftTo(fmin: int, soften: int, raw: int, floor: int, ceiling: int) {
    if soften >= 1000 || raw == fmin then ceiling == (if raw > floor then raw else floor)
    else
      ceiling >= floor && (ceiling > floor ==> Above(fmin, raw - fmin, soften, ceiling))
      && (ceiling == floor ==> (raw - fmin) * soften < 1000 * (floor - fmin + 1))
  }

  lemma AboveIs(fmin: int, fmax: int, permille: int)
    requires fmin <= fmax && permille >= 0
    ensures Above(fmin, fmax - fmin, permille, Share(fmin, fmax, permille))
  {
    MulMonotone(0, permille, fmax - fmin);
    Floored((fmax - fmin) * permille, 1000);
  }

  lemma SoftIs(fmin: int, soften: int, raw: int, floor: int)
    requires raw >= fmin && soften >= 0
    ensures SoftTo(fmin, soften, raw, floor, Max(Soften(fmin, raw, soften), floor))
  {
    MulMonotone(0, soften, raw - fmin);
    Floored((raw - fmin) * soften, 1000);
  }

  /**
   * The band put out by a tick that holds nothing back: the shares of its stage give the floor and the
   * raw ceiling, which is softened but stays above the floor.
   */
  lemma BandIs(stages: seq<Stage>, index: nat, busy: int, soften: int, fmin: int, fmax: int)
      returns (f: int, c: int, raw: int)
    requires Loaded(stages) && index < |stages| && fmin <= fmax && soften >= 0
    ensures SharesAt(stages, index, busy, f, c) && 0 <= f <= 1000 && 0 <= c <= 1000
    ensures var (lo, hi) := Band(stages, index, busy, soften, fmin, fmax);
            Above(fmin, fmax - fmin, f, lo) && Above(fmin, fmax - fmin, c, raw) && SoftTo(fmin, soften, raw, lo, hi)
  {
    f, c := Shares(stages, index, busy).0, Shares(stages, index, busy).1;
    raw := Share(fmin, fmax, c);
    SharesAre(stages, index, busy);
    SharesInRange(stages, index, busy);
    ShareInRange(fmin, fmax, f);
    ShareInRange(fmin, fmax, c);
    AboveIs(fmin, fmax, f);
    AboveIs(fmin, fmax, c);
    SoftIs(fmin, soften, raw, Share(fmin, fmax, f));
    SoftBelow(fmin, soften, raw);
    hide Shares, SharesAt, Share, Above, SoftTo, Soften;
  }

  lemma SoftBelow(fmin: int, soften: int, raw: int)
    requires raw >= fmin && soften >= 0
    ensures Soften(fmin, raw, soften) <= raw
  {
    if soften < 1000 && raw > fmin {
      MulMonotone(soften, 1000, raw - fmin);
      MulMonotone(0, soften, raw - fmin);
      TruncDivBetween((raw - fmin) * soften, raw - fmin, 1000);
    }
  }

  // ---- One tick ----

  /** The new band is taken over: nothing is held yet, it widens somewhere, nowhere narrows, or the hold is over. */
  predicate TakenOver(h: Hold, lo: int, hi: int, fallHoldMs: int, now: int) {
    || (h.floor <= 0 && h.ceiling <= 0)
    || lo > h.floor || hi > h.ceiling || (lo == h.floor && hi == h.ceiling)
    || now >= h.fallMs + fallHoldMs
  }

  /**
   * A tick, with a minimum above zero: the stage is the first one reached, unless hysteresis keeps the one
   * before; the band of its shares is put out and held, or the held one is put out.
   */
  lemma TickIs(t: Tuner, tick: DailyTick) returns (index: nat, f: int, c: int, raw: int, lo: int, hi: int)
    requires Loaded(tick.params.stages) && 0 < tick.fmin <= tick.fmax && tick.params.soften >= 0
    requires 0 < t.hold.floor <= t.hold.ceiling || (t.hold.floor == 0 && t.hold.ceiling == 0)
    ensures var (p, busy) := (tick.params, tick.busy);
            && index < |p.stages|
            && (StaysIn(p.stages, busy, t.stage, p.hysteresis) ==> index == t.stage)
            && (!StaysIn(p.stages, busy, t.stage, p.hysteresis) ==> FirstReached(p.stages, busy, index))
            && SharesAt(p.stages, index, busy, f, c)
            && Above(tick.fmin, tick.fmax - tick.fmin, f, lo) && Above(tick.fmin, tick.fmax - tick.fmin, c, raw)
            && SoftTo(tick.fmin, p.soften, raw, lo, hi) && 0 < lo <= hi
    ensures var (t', outLo, outHi) := TuneTick(t, tick);
            && t'.stage == index
            && (TakenOver(t.hold, lo, hi, tick.params.fallHoldMs, tick.now) ==>
                  outLo == lo == t'.hold.floor && outHi == hi == t'.hold.ceiling)
            && (!TakenOver(t.hold, lo, hi, tick.params.fallHoldMs, tick.now) ==>
                  outLo == t.hold.floor && outHi == t.hold.ceiling && t'.hold == t.hold)
            && (TakenOver(t.hold, lo, hi, tick.params.fallHoldMs, tick.now) ==>
                  t'.hold.fallMs == (if lo < t.hold.floor || hi < t.hold.ceiling then tick.now else t.hold.fallMs))
  {
    var p := tick.params;
    var first := StageFrom(p.stages, tick.busy, 0);
    StageMeaning(p.stages, tick.busy, 0);
    index := KeepStage(p.stages, tick.busy, first, t.stage, p.hysteresis);
    lo, hi := Band(p.stages, index, tick.busy, p.soften, tick.fmin, tick.fmax).0,
      Band(p.stages, index, tick.busy, p.soften, tick.fmin, tick.fmax).1;
    f, c, raw := BandIs(p.stages, index, tick.busy, p.soften, tick.fmin, tick.fmax);
    BandInRange(p.stages, index, tick.busy, p.soften, tick.fmin, tick.fmax);
    hide Band, StageFrom, SharesAt, Above, SoftTo, Loaded;
  }

  // ---- From a fresh tuner ----

  lemma IndexIs(stages: seq<Stage>, busy: int, index: nat, k: nat)
    requires Loaded(stages) && FirstReached(stages, busy, index)
    requires 0 < k < |stages| && stages[k - 1].load < busy < stages[k].load
    ensures index == k
  {
  }

  /**
   * The first tick, between the loads of two rising stages and away from the first one: the floor put out
   * is a share of the span that lies on the line between their floors, and without softening the ceiling
   * is one on the line between their ceilings, or the floor where that is higher.
   */
  lemma FirstTickOnLine(tick: DailyTick, k: nat) returns (f: int, c: int, raw: int)
    requires Loaded(tick.params.stages) && 0 < tick.fmin <= tick.fmax && tick.params.soften >= 1000
    requires 0 < k < |tick.params.stages| && !StaysIn(tick.params.stages, tick.busy, 0, tick.params.hysteresis)
    requires tick.params.stages[k - 1].load < tick.busy < tick.params.stages[k].load
    ensures var (lower, upper) := (tick.params.stages[k - 1], tick.params.stages[k]);
            && OnLine(lower.floor, upper.floor, upper.load - lower.load, tick.busy - lower.load, f)
            && OnLine(lower.ceiling, upper.ceiling, upper.load - lower.load, tick.busy - lower.load, c)
    ensures var (_, lo, hi) := TuneTick(FreshTuner(), tick);
            && Above(tick.fmin, tick.fmax - tick.fmin, f, lo) && Above(tick.fmin, tick.fmax - tick.fmin, c, raw)
            && hi == (if raw > lo then raw else lo)
  {
    var index: nat;
    var lo, hi: int;
    index, f, c, raw, lo, hi := TickIs(FreshTuner(), tick);
    var stages := tick.params.stages;
    IndexIs(stages, tick.busy, index, k);
    hide TuneTick, OnLine, Above, Loaded;
  }

  // ---- How often the band narrows ----

  /** The band put out by tick k of a run. */
  function Out(ticks: seq<DailyTick>, k: nat): (int, int)
    requires k < |ticks| && forall t :: t in ticks ==> t.params.stages != []
  {
    var (_, lo, hi) := TuneTick(AfterTicks(ticks[..k]), ticks[k]);
    (lo, hi)
  }

  /** Between tick k - 1 and tick k the band put out is lowered at one end or the other. */
  predicate NarrowsAt(ticks: seq<DailyTick>, k: nat)
    requires 0 < k < |ticks| && forall t :: t in ticks ==> t.params.stages != []
  {
    Out(ticks, k).0 < Out(ticks, k - 1).0 || Out(ticks, k).1 < Out(ticks, k - 1).1
  }

  predicate WidensAt(ticks: seq<DailyTick>, k: nat)
    requires 0 < k < |ticks| && forall t :: t in ticks ==> t.params.stages != []
  {
    Out(ticks, k).0 > Out(ticks, k - 1).0 || Out(ticks, k).1 > Out(ticks, k - 1).1
  }

  /** A run with accepted stages and minima above zero. */
  predicate Sane(ticks: seq<DailyTick>) {
    forall t :: t in ticks ==> Loaded(t.params.stages) && 0 < t.fmin <= t.fmax && t.params.soften >= 0
  }

  lemma StagesLoaded(ticks: seq<DailyTick>)
    requires Sane(ticks)
    ensures forall t :: t in ticks ==> t.params.stages != []
  {
  }

  /** What is held after a tick is what it put out, and the last narrowing is remembered. */
  lemma {:induction false} HoldsOutput(ticks: seq<DailyTick>, k: nat)
    requires Sane(ticks) && k < |ticks| && forall t :: t in ticks ==> t.params.stages != []
    ensures forall t :: t in ticks[..k] ==> t.params.stages != []
    ensures var h := AfterTicks(ticks[..k + 1]).hold;
            (h.floor, h.ceiling) == Out(ticks, k) && 0 < h.floor <= h.ceiling
    ensures k > 0 && NarrowsAt(ticks, k) ==> AfterTicks(ticks[..k + 1]).hold.fallMs == ticks[k].now
    ensures k > 0 && !NarrowsAt(ticks, k) ==>
              AfterTicks(ticks[..k + 1]).hold.fallMs == AfterTicks(ticks[..k]).hold.fallMs
    ensures k > 0 && NarrowsAt(ticks, k) && !WidensAt(ticks, k) ==>
              ticks[k].now >= AfterTicks(ticks[..k]).hold.fallMs + ticks[k].params.fallHoldMs
  {
    assert ticks[k] in ticks;
    assert ticks[..k + 1][..k] == ticks[..k];
    if k > 0 {
      HoldsOutput(ticks, k - 1);
      assert ticks[..k - 1 + 1] == ticks[..k];
    } else {
      assert ticks[..0] == [];
    }
    var t := AfterTicks(ticks[..k]);
    var index, f, c, raw, lo, hi := TickIs(t, ticks[k]);
    hide TuneTick, SharesAt, Above, SoftTo, Loaded, StaysIn, FirstReached;
  }

  /** Of the steps after i none up to k narrows. */
  lemma {:induction false} FallSince(ticks: seq<DailyTick>, i: nat, k: nat)
    requires Sane(ticks) && 0 < i < k < |ticks| && forall t :: t in ticks ==> t.params.stages != []
    requires NarrowsAt(ticks, i) && forall m, n :: 0 <= m < n < |ticks| ==> ticks[m].now <= ticks[n].now
    ensures forall t :: t in ticks[..k] ==> t.params.stages != []
    ensures AfterTicks(ticks[..k]).hold.fallMs >= ticks[i].now
  {
    hide AfterTicks, NarrowsAt, WidensAt, Sane;
    HoldsOutput(ticks, k - 1);
    assert ticks[..k - 1 + 1] == ticks[..k];
    if i < k - 1 {
      FallSince(ticks, i, k - 1);
    }
  }

  /**
   * In every run a tick that only narrows the band comes at least the hold time after every earlier tick
   * that narrowed it.
   */
  lemma NarrowingsSpaced(ticks: seq<DailyTick>, i: nat, k: nat)
    requires Sane(ticks) && 0 < i < k < |ticks| && forall t :: t in ticks ==> t.params.stages != []
    requires forall m, n :: 0 <= m < n < |ticks| ==> ticks[m].now <= ticks[n].now
    requires NarrowsAt(ticks, i) && NarrowsAt(ticks, k) && !WidensAt(ticks, k)
    ensures ticks[k].now >= ticks[i].now + ticks[k].params.fallHoldMs
  {
    hide AfterTicks, NarrowsAt, WidensAt, Sane;
    FallSince(ticks, i, k);
    HoldsOutput(ticks, k);
  }

  // ---- The limiter ----

  function Unless0(khz: int, otherwise: int): int {
    if khz > 0 then khz else otherwise
  }

  /**
   * The limiter lowers the ceiling to its own maximum, if it has one, and to the limit, though not below
   * the minimum; and raises the floor to its own minimum and the limit, though not above that ceiling.
   */
  lemma LimitIs(limit: Limit, floor: int, ceiling: int, fmin: int, fmax: int)
    requires fmin <= fmax
    ensures var (lo, hi) := LimitBand(limit, floor, ceiling, fmin, fmax);
            && (exists top :: RampLaws.Least(top, ceiling, fmax, Unless0(limit.maxKhz, ceiling))
                         && hi == (if top > fmin then top else fmin))
            && (exists low :: RampLaws.Greatest(low, floor, fmin, Unless0(limit.minKhz, floor))
                         && lo == (if low < hi then low else hi))
  {
    var a, b := Unless0(limit.maxKhz, ceiling), Unless0(limit.minKhz, floor);
    assert RampLaws.Least(Min(Min(ceiling, fmax), a), ceiling, fmax, a);
    assert RampLaws.Greatest(Max(Max(floor, fmin), b), floor, fmin, b);
  }
}
