/**
 * The frequency band of one cluster: how the ceiling rises at once but falls by ramp, and how the
 * band is written to nodes that the platform writes too. Frequencies are in kHz, times in ms.
 */
module RenderBand {
  import opened Numbers
  import opened Wrappers

  const RAISE_SETTLE_MS: int := 120
  const MIN_STEP_KHZ: int := 64000
  const YIELD_MS: int := 400

  // ---- The frequency table ----

  /** round_freq_down_to_table: the last entry before the first one above the target. */
  function RoundDown(table: seq<int>, target: int): int {
    if table == [] then target else table[PrefixLength(table, target, 1) - 1]
  }

  /** How many entries from the front on, at least n of them, the target reaches. */
  function PrefixLength(table: seq<int>, target: int, n: nat): (r: nat)
    requires 1 <= n <= |table|
    ensures n <= r <= |table|
    ensures target >= table[n - 1] ==> target >= table[r - 1]
    decreases |table| - n
  {
    if n < |table| && table[n - 1] <= target && table[n] <= target then PrefixLength(table, target, n + 1) else n
  }

  /** round_freq_up_to_table: the smallest entry not below the target, or the largest one. */
  function RoundUp(table: seq<int>, target: int): int {
    if table == [] then target
    else
      match SmallestAtLeast(table, target)
      case Some(v) => v
      case None => Largest(table)
  }

  function SmallestAtLeast(table: seq<int>, target: int): Option<int> {
    if table == [] then None
    else
      var v := table[|table| - 1];
      var best := SmallestAtLeast(table[..|table| - 1], target);
      if v >= target && (best.None? || v < best.value) then Some(v) else best
  }

  function Largest(table: seq<int>): int
    requires table != []
  {
    if |table| == 1 then table[0]
    else
      var m, v := Largest(table[..|table| - 1]), table[|table| - 1];
      if v > m then v else m
  }

  predicate Sorted(table: seq<int>) {
    forall i, j :: 0 <= i < j < |table| ==> table[i] <= table[j]
  }

  /** In a sorted table: the largest entry not above the target, or else the first one. */
  lemma RoundDownMeaning(table: seq<int>, target: int)
    requires Sorted(table) && table != []
    ensures RoundDown(table, target) in table
    ensures target >= table[0] ==>
              RoundDown(table, target) <= target
              && forall v :: v in table && v <= target ==> v <= RoundDown(table, target)
    ensures target < table[0] ==> RoundDown(table, target) == table[0]
  {
    PrefixMeaning(table, target, 1);
  }

  lemma {:induction false} PrefixMeaning(table: seq<int>, target: int, n: nat)
    requires Sorted(table) && 1 <= n <= |table|
    ensures var r := PrefixLength(table, target, n);
            target >= table[n - 1] ==> forall i :: r <= i < |table| ==> table[i] > target
    decreases |table| - n
  {
    if n < |table| && table[n - 1] <= target && table[n] <= target {
      PrefixMeaning(table, target, n + 1);
    }
  }

  lemma {:induction false} RoundUpMeaning(table: seq<int>, target: int)
    requires table != []
    ensures SmallestAtLeast(table, target).None? <==> forall v :: v in table ==> v < target
    ensures SmallestAtLeast(table, target).Some? ==>
              var r := SmallestAtLeast(table, target).value;
              r in table && r >= target && forall v :: v in table && v >= target ==> r <= v
  {
    var n := |table| - 1;
    assert forall v :: v in table <==> v in table[..n] || v == table[n];
    if n > 0 {
      RoundUpMeaning(table[..n], target);
    } else {
      assert table[..n] == [];
    }
    if SmallestAtLeast(table, target).Some? {
      assert SmallestAtLeast(table, target).value in table;
    } else {
      assert table[n] < target;
    }
  }

  // ---- The band ----

  datatype Control = Control(releaseStepPermille: int, releaseHoldMs: int)

  datatype Policy = Policy(table: seq<int>, hwMin: int, hwMax: int)

  /** The ceiling last applied, and when it was last raised and released. */
  datatype Ramp = Ramp(last: int, raiseMs: int, releaseMs: int)

  /** The ceiling asked for, rounded to the table. */
  function Goal(policy: Policy, bandMax: int, fmax: int): int {
    RoundDown(policy.table, Min(Min(bandMax, fmax), policy.hwMax))
  }

  /** The floor asked for; a floor given by the caller may lie below fmin but not above it. */
  function Floor(policy: Policy, bandMin: int, bandMax: int, fmin: int, fmax: int, clampFloor: int): int {
    var limit := Min(if clampFloor >= 0 then clampFloor else fmin, fmin);
    var ceiling := Min(Min(bandMax, fmax), policy.hwMax);
    var low := Min(Max(Max(bandMin, limit), policy.hwMin), ceiling);
    Min(RoundUp(policy.table, low), Goal(policy, bandMax, fmax))
  }

  function Step(control: Control, fmin: int, fmax: int): int {
    Max(TruncDiv(Max(1, fmax - fmin) * control.releaseStepPermille, 1000), MIN_STEP_KHZ)
  }

  function Current(r: Ramp, goal: int): int {
    if r.last > 0 then r.last else goal
  }

  /** A lower ceiling has to wait after a raise and after a release. */
  predicate Waits(r: Ramp, goal: int, control: Control, now: int) {
    goal < Current(r, goal) && (now - r.raiseMs < RAISE_SETTLE_MS || now - r.releaseMs < control.releaseHoldMs)
  }

  /** The ceiling after a release: one step down, rounded to the table, and not past the goal. */
  function Released(policy: Policy, current: int, goal: int, step: int): int {
    Max(Min(RoundDown(policy.table, Max(current - step, goal)), current), goal)
  }

  /** apply_render_band, as far as the ceiling goes. */
  function Apply(policy: Policy, r: Ramp, floor: int, goal: int, step: int, control: Control, now: int): Ramp {
    var current := Current(r, goal);
    if Waits(r, goal, control, now) then r
    else if goal < current then Ramp(Max(Released(policy, current, goal, step), floor), r.raiseMs, now)
    else Ramp(Max(goal, floor), if goal > current then now else r.raiseMs, r.releaseMs)
  }

  // ---- What one tick does to the ceiling ----

  lemma RoundDownBelow(table: seq<int>, target: int)
    ensures table == [] || target >= table[0] ==> RoundDown(table, target) <= target
    ensures table != [] ==> RoundDown(table, target) >= table[0] || target >= table[0]
  {
  }

  /** A goal is itself a table entry, so no entry at the front of the table lies above it by accident. */
  predicate GoalFits(policy: Policy, goal: int) {
    policy.table == [] || policy.table[0] <= goal
  }

  lemma GoalOfSorted(policy: Policy, bandMax: int, fmax: int)
    requires Sorted(policy.table)
    ensures GoalFits(policy, Goal(policy, bandMax, fmax))
  {
    if policy.table != [] {
      RoundDownMeaning(policy.table, Min(Min(bandMax, fmax), policy.hwMax));
    }
  }

  lemma FloorBelowGoal(policy: Policy, bandMin: int, bandMax: int, fmin: int, fmax: int, clampFloor: int)
    ensures Floor(policy, bandMin, bandMax, fmin, fmax, clampFloor) <= Goal(policy, bandMax, fmax)
  {
  }

  /** A higher goal is applied at once and in full. */
  lemma RisesAtOnce(policy: Policy, r: Ramp, floor: int, goal: int, step: int, control: Control, now: int)
    requires floor <= goal && goal >= Current(r, goal)
    ensures var r' := Apply(policy, r, floor, goal, step, control, now);
            r'.last == goal && r'.releaseMs == r.releaseMs
            && r'.raiseMs == if goal > Current(r, goal) then now else r.raiseMs
  {
  }

  /** A lower goal is ignored while it has to wait; otherwise the ceiling falls by at least a step, or to the goal. */
  lemma FallsByRamp(policy: Policy, r: Ramp, floor: int, goal: int, step: int, control: Control, now: int)
    requires GoalFits(policy, goal) && floor <= goal && step >= MIN_STEP_KHZ && r.last > 0 && goal < r.last
    ensures var r' := Apply(policy, r, floor, goal, step, control, now);
            if now - r.raiseMs < RAISE_SETTLE_MS || now - r.releaseMs < control.releaseHoldMs then r' == r
            else
              goal <= r'.last <= Max(r.last - step, goal) && r'.last < r.last && r'.releaseMs == now
              && r'.raiseMs == r.raiseMs
  {
    RoundDownBelow(policy.table, Max(r.last - step, goal));
  }

  // ---- Runs with a fixed goal ----

  function After(policy: Policy, r: Ramp, floor: int, goal: int, step: int, control: Control, times: seq<int>): Ramp {
    if times == [] then r
    else
      var n := |times| - 1;
      Apply(policy, After(policy, r, floor, goal, step, control, times[..n]), floor, goal, step, control, times[n])
  }

  /** How many of the ticks release. */
  function Releases(policy: Policy, r: Ramp, floor: int, goal: int, step: int, control: Control, times: seq<int>): nat {
    if times == [] then 0
    else
      var n := |times| - 1;
      var before := After(policy, r, floor, goal, step, control, times[..n]);
      Releases(policy, r, floor, goal, step, control, times[..n])
      + (if goal < before.last && !Waits(before, goal, control, times[n]) then 1 else 0)
  }

  /** Each release takes a whole step off the distance to the goal, which is never passed. */
  lemma {:induction false} ReleasesDescend(policy: Policy, r: Ramp, floor: int, goal: int, step: int, control: Control,
                                           times: seq<int>)
    requires GoalFits(policy, goal) && floor <= goal && step >= MIN_STEP_KHZ && r.last >= goal > 0
    ensures var r' := After(policy, r, floor, goal, step, control, times);
            var k := Releases(policy, r, floor, goal, step, control, times);
            goal <= r'.last <= Max(r.last - k * step, goal)
  {
    if times != [] {
      var n := |times| - 1;
      hide Apply, Waits;
      ReleasesDescend(policy, r, floor, goal, step, control, times[..n]);
      var before := After(policy, r, floor, goal, step, control, times[..n]);
      var k := Releases(policy, r, floor, goal, step, control, times[..n]);
      if goal < before.last {
        OneRelease(policy, before, floor, goal, step, control, times[n]);
        Descend(r.last, k, step, before.last, After(policy, r, floor, goal, step, control, times).last, goal);
      } else {
        RisesAtOnce(policy, before, floor, goal, step, control, times[n]);
      }
    } else {
      assert Releases(policy, r, floor, goal, step, control, times) * step == 0;
    }
  }

  lemma OneRelease(policy: Policy, r: Ramp, floor: int, goal: int, step: int, control: Control, now: int)
    requires GoalFits(policy, goal) && floor <= goal && step >= MIN_STEP_KHZ && 0 < goal < r.last
    ensures var r' := Apply(policy, r, floor, goal, step, control, now);
            if Waits(r, goal, control, now) then r' == r else goal <= r'.last <= Max(r.last - step, goal)
  {
    FallsByRamp(policy, r, floor, goal, step, control, now);
  }

  lemma Descend(first: int, k: nat, step: int, before: int, after: int, goal: int)
    requires step > 0 && before <= Max(first - k * step, goal)
    ensures after <= before ==> after <= Max(first - k * step, goal)
    ensures after <= Max(before - step, goal) ==> after <= Max(first - (k + 1) * step, goal)
  {
    assert (k + 1) * step == k * step + step;
  }

  /** So a fixed goal is reached after at most the distance divided by the step, rounded up, releases. */
  lemma GoalReached(policy: Policy, r: Ramp, floor: int, goal: int, step: int, control: Control, times: seq<int>)
    requires GoalFits(policy, goal) && floor <= goal && step >= MIN_STEP_KHZ && r.last >= goal > 0
    requires Releases(policy, r, floor, goal, step, control, times) >= (r.last - goal + step - 1) / step
    ensures After(policy, r, floor, goal, step, control, times).last == goal
  {
    ReleasesDescend(policy, r, floor, goal, step, control, times);
    var k := Releases(policy, r, floor, goal, step, control, times);
    EnoughSteps(r.last - goal, step, k);
  }

  lemma EnoughSteps(distance: int, step: int, k: nat)
    requires step > 0 && distance >= 0 && k >= (distance + step - 1) / step
    ensures k * step >= distance
  {
    var q := (distance + step - 1) / step;
    assert q * step >= distance;
    assert k * step >= q * step;
  }

  /** And it takes no more releases than that: every release before the goal makes the distance smaller. */
  lemma {:induction false} NoReleaseAtGoal(policy: Policy, r: Ramp, floor: int, goal: int, step: int, control: Control,
                                           times: seq<int>)
    requires GoalFits(policy, goal) && floor <= goal && step >= MIN_STEP_KHZ && r.last >= goal > 0
    ensures Releases(policy, r, floor, goal, step, control, times) <= (r.last - goal + step - 1) / step
  {
    if times != [] {
      var n := |times| - 1;
      NoReleaseAtGoal(policy, r, floor, goal, step, control, times[..n]);
      var before := After(policy, r, floor, goal, step, control, times[..n]);
      var k := Releases(policy, r, floor, goal, step, control, times[..n]);
      if goal < before.last && k >= (r.last - goal + step - 1) / step {
        GoalReached(policy, r, floor, goal, step, control, times[..n]);
      }
    }
  }

  // ---- The band a caller asks for ----

  /** The arguments of apply_render_band. */
  datatype Ask = Ask(bandMin: int, bandMax: int, fmin: int, fmax: int, clampFloor: int)

  function GoalOf(policy: Policy, ask: Ask): int {
    Goal(policy, ask.bandMax, ask.fmax)
  }

  function FloorOf(policy: Policy, ask: Ask): int {
    Floor(policy, ask.bandMin, ask.bandMax, ask.fmin, ask.fmax, ask.clampFloor)
  }

  function StepOf(control: Control, ask: Ask): int {
    Step(control, ask.fmin, ask.fmax)
  }

  /** The policy has a sorted table of frequencies, and the upper limits are frequencies too. */
  predicate Usable(policy: Policy, ask: Ask) {
    && Sorted(policy.table) && (forall f :: f in policy.table ==> f > 0)
    && ask.bandMax > 0 && ask.fmax > 0 && policy.hwMax > 0
  }

  lemma AskFits(policy: Policy, control: Control, ask: Ask)
    requires Usable(policy, ask)
    ensures GoalFits(policy, GoalOf(policy, ask)) && GoalOf(policy, ask) > 0
    ensures FloorOf(policy, ask) <= GoalOf(policy, ask) && StepOf(control, ask) >= MIN_STEP_KHZ
  {
    GoalOfSorted(policy, ask.bandMax, ask.fmax);
    FloorBelowGoal(policy, ask.bandMin, ask.bandMax, ask.fmin, ask.fmax, ask.clampFloor);
    if policy.table != [] {
      RoundDownMeaning(policy.table, Min(Min(ask.bandMax, ask.fmax), policy.hwMax));
    }
  }

  /** The ceiling after ticks that all ask for the same band. */
  function AfterAsk(policy: Policy, r: Ramp, ask: Ask, control: Control, times: seq<int>): Ramp {
    After(policy, r, FloorOf(policy, ask), GoalOf(policy, ask), StepOf(control, ask), control, times)
  }

  function ReleasesOf(policy: Policy, r: Ramp, ask: Ask, control: Control, times: seq<int>): nat {
    Releases(policy, r, FloorOf(policy, ask), GoalOf(policy, ask), StepOf(control, ask), control, times)
  }

  /** The distance to the goal in steps, rounded up. */
  function StepsToGoal(policy: Policy, r: Ramp, ask: Ask, control: Control): int
    requires StepOf(control, ask) > 0
  {
    (r.last - GoalOf(policy, ask) + StepOf(control, ask) - 1) / StepOf(control, ask)
  }

  lemma {:induction false} RaisedStays(policy: Policy, r: Ramp, floor: int, goal: int, step: int, control: Control,
                                       times: seq<int>)
    requires floor <= goal && goal > 0 && r.last <= goal && times != []
    ensures After(policy, r, floor, goal, step, control, times).last == goal
  {
    var n := |times| - 1;
    if n > 0 {
      RaisedStays(policy, r, floor, goal, step, control, times[..n]);
    } else {
      assert After(policy, r, floor, goal, step, control, times[..0]) == r;
    }
    RisesAtOnce(policy, After(policy, r, floor, goal, step, control, times[..n]), floor, goal, step, control, times[n]);
  }

  /**
   * A ceiling below the band asked for is there after one tick. One above it never passes it, takes
   * a whole step off with every release, and is there exactly when the distance has been released:
   * after at most the distance in steps, rounded up, and never more.
   */
  lemma BandReached(policy: Policy, r: Ramp, ask: Ask, control: Control, times: seq<int>)
    requires Usable(policy, ask)
    ensures StepOf(control, ask) > 0
    ensures r.last <= GoalOf(policy, ask) && times != [] ==>
              AfterAsk(policy, r, ask, control, times).last == GoalOf(policy, ask)
    ensures r.last >= GoalOf(policy, ask) ==>
              var last, k := AfterAsk(policy, r, ask, control, times).last, ReleasesOf(policy, r, ask, control, times);
              && GoalOf(policy, ask) <= last <= Max(r.last - k * StepOf(control, ask), GoalOf(policy, ask))
              && k <= StepsToGoal(policy, r, ask, control)
              && (k == StepsToGoal(policy, r, ask, control) ==> last == GoalOf(policy, ask))
  {
    AskFits(policy, control, ask);
    var floor, goal, step := FloorOf(policy, ask), GoalOf(policy, ask), StepOf(control, ask);
    hide GoalOf, FloorOf, StepOf, After, Releases, GoalFits;
    if r.last <= goal && times != [] {
      RaisedStays(policy, r, floor, goal, step, control, times);
    }
    if r.last >= goal {
      ReleasesDescend(policy, r, floor, goal, step, control, times);
      NoReleaseAtGoal(policy, r, floor, goal, step, control, times);
      if ReleasesOf(policy, r, ask, control, times) == StepsToGoal(policy, r, ask, control) {
        GoalReached(policy, r, floor, goal, step, control, times);
      }
    }
  }

  // ---- How long the way down takes ----

  function LastTime(times: seq<int>, t0: int): int {
    if times == [] then t0 else times[|times| - 1]
  }

  /** From t0 on ticks come in order and at most gap apart. */
  predicate Ticking(times: seq<int>, t0: int, gap: int) {
    times != [] ==>
      var n := |times| - 1;
      Ticking(times[..n], t0, gap) && LastTime(times[..n], t0) <= times[n] <= LastTime(times[..n], t0) + gap
  }

  /**
   * Above the goal after k releases and a tick at now: the last release came in time, and the tick
   * was that release or had to wait for the next one.
   */
  predicate OnTheWay(r: Ramp, goal: int, hold: int, gap: int, t0: int, k: nat, now: int) {
    var due := t0 + RAISE_SETTLE_MS + k * (hold + gap);
    && r.raiseMs <= t0 && r.releaseMs <= due
    && (r.last > goal ==> now <= t0 + RAISE_SETTLE_MS || now <= r.releaseMs + hold)
  }

  lemma WayStep(policy: Policy, r: Ramp, floor: int, goal: int, step: int, control: Control, gap: nat, t0: int,
                k: nat, last: int, now: int)
    requires GoalFits(policy, goal) && floor <= goal && step >= MIN_STEP_KHZ && r.last >= goal > 0
    requires control.releaseHoldMs >= 0 && last <= now <= last + gap
    requires OnTheWay(r, goal, control.releaseHoldMs, gap, t0, k, last)
    ensures var r' := Apply(policy, r, floor, goal, step, control, now);
            var released := goal < r.last && !Waits(r, goal, control, now);
            OnTheWay(r', goal, control.releaseHoldMs, gap, t0, if released then k + 1 else k, now)
  {
    var hold := control.releaseHoldMs;
    assert (k + 1) * (hold + gap) == k * (hold + gap) + hold + gap;
    if goal < r.last {
      FallsByRamp(policy, r, floor, goal, step, control, now);
      hide Apply, GoalFits;
    } else {
      RisesAtOnce(policy, r, floor, goal, step, control, now);
      hide Apply, GoalFits;
    }
  }

  lemma {:induction false} StaysOnTheWay(policy: Policy, r: Ramp, floor: int, goal: int, step: int, control: Control,
                                         times: seq<int>, t0: int, gap: nat)
    requires GoalFits(policy, goal) && floor <= goal && step >= MIN_STEP_KHZ && r.last >= goal > 0
    requires control.releaseHoldMs >= 0 && Ticking(times, t0, gap) && r.raiseMs <= t0 && r.releaseMs <= t0
    ensures OnTheWay(After(policy, r, floor, goal, step, control, times), goal, control.releaseHoldMs, gap, t0,
                     Releases(policy, r, floor, goal, step, control, times), LastTime(times, t0))
  {
    if times != [] {
      var n := |times| - 1;
      StaysOnTheWay(policy, r, floor, goal, step, control, times[..n], t0, gap);
      ReleasesDescend(policy, r, floor, goal, step, control, times[..n]);
      var before := After(policy, r, floor, goal, step, control, times[..n]);
      var k := Releases(policy, r, floor, goal, step, control, times[..n]);
      hide OnTheWay, Apply, Waits, GoalFits;
      WayStep(policy, before, floor, goal, step, control, gap, t0, k, LastTime(times[..n], t0), times[n]);
    }
  }

  /**
   * With ticks at most gap apart a band below the ceiling is reached within the settling time and, for
   * every step to it, the hold time and a gap.
   */
  lemma BandReachedInTime(policy: Policy, r: Ramp, ask: Ask, control: Control, times: seq<int>, t0: int, gap: nat)
    requires Usable(policy, ask) && r.last >= GoalOf(policy, ask) && control.releaseHoldMs >= 0 && gap > 0
    requires Ticking(times, t0, gap) && r.raiseMs <= t0 && r.releaseMs <= t0
    requires LastTime(times, t0)
          >= t0 + RAISE_SETTLE_MS + StepsToGoal(policy, r, ask, control) * (control.releaseHoldMs + gap)
    ensures AfterAsk(policy, r, ask, control, times).last == GoalOf(policy, ask)
  {
    AskFits(policy, control, ask);
    BandReached(policy, r, ask, control, times);
    hide *;
    StaysOnTheWay(policy, r, FloorOf(policy, ask), GoalOf(policy, ask), StepOf(control, ask), control, times, t0, gap);
    AskIs(policy, r, ask, control, times);
    var k, d := ReleasesOf(policy, r, ask, control, times), StepsToGoal(policy, r, ask, control);
    if k < d {
      var after := AfterAsk(policy, r, ask, control, times);
      OffTheWay(after, GoalOf(policy, ask), control.releaseHoldMs, gap, t0, k, d, LastTime(times, t0));
    }
  }

  lemma AskIs(policy: Policy, r: Ramp, ask: Ask, control: Control, times: seq<int>)
    ensures AfterAsk(policy, r, ask, control, times)
         == After(policy, r, FloorOf(policy, ask), GoalOf(policy, ask), StepOf(control, ask), control, times)
    ensures ReleasesOf(policy, r, ask, control, times)
         == Releases(policy, r, FloorOf(policy, ask), GoalOf(policy, ask), StepOf(control, ask), control, times)
  {
    hide FloorOf, GoalOf, StepOf, After, Releases;
  }

  lemma OffTheWay(r: Ramp, goal: int, hold: int, gap: nat, t0: int, k: nat, d: int, now: int)
    requires OnTheWay(r, goal, hold, gap, t0, k, now) && hold >= 0 && gap > 0
    requires k < d && now >= t0 + RAISE_SETTLE_MS + d * (hold + gap)
    ensures r.last <= goal
  {
    WholeSteps(k, d, hold + gap);
  }

  lemma WholeSteps(k: nat, d: int, wait: int)
    requires k < d && wait > 0
    ensures k * wait + wait <= d * wait
  {
    MulMonotone(k + 1, d, wait);
    assert (k + 1) * wait == k * wait + wait;
  }

  lemma AfterOne(policy: Policy, r: Ramp, floor: int, goal: int, step: int, control: Control, now: int)
    ensures After(policy, r, floor, goal, step, control, [now]) == Apply(policy, r, floor, goal, step, control, now)
  {
    hide Apply;
    assert [now][..0] == [];
    assert After(policy, r, floor, goal, step, control, []) == r;
  }

  /** One tick with a lower band: nothing while it has to wait, else at least a step down, or to the goal. */
  lemma BandFalls(policy: Policy, r: Ramp, ask: Ask, control: Control, now: int)
    requires Usable(policy, ask) && r.last > GoalOf(policy, ask)
    ensures var r', goal := AfterAsk(policy, r, ask, control, [now]), GoalOf(policy, ask);
            if now - r.raiseMs < RAISE_SETTLE_MS || now - r.releaseMs < control.releaseHoldMs then r' == r
            else goal <= r'.last <= Max(r.last - StepOf(control, ask), goal) && r'.last < r.last
                 && r'.releaseMs == now && r'.raiseMs == r.raiseMs
  {
    AskFits(policy, control, ask);
    hide GoalOf, FloorOf, StepOf, After, Apply, GoalFits;
    AfterOne(policy, r, FloorOf(policy, ask), GoalOf(policy, ask), StepOf(control, ask), control, now);
    FallsByRamp(policy, r, FloorOf(policy, ask), GoalOf(policy, ask), StepOf(control, ask), control, now);
  }

  /** One tick with a higher band: applied at once and in full. */
  lemma BandRises(policy: Policy, r: Ramp, ask: Ask, control: Control, now: int)
    requires Usable(policy, ask) && (r.last <= 0 || r.last <= GoalOf(policy, ask))
    ensures var r', goal := AfterAsk(policy, r, ask, control, [now]), GoalOf(policy, ask);
            r'.last == goal && r'.releaseMs == r.releaseMs
            && r'.raiseMs == if 0 < r.last < goal then now else r.raiseMs
  {
    AskFits(policy, control, ask);
    hide GoalOf, FloorOf, StepOf, After, Apply, GoalFits;
    AfterOne(policy, r, FloorOf(policy, ask), GoalOf(policy, ask), StepOf(control, ask), control, now);
    RisesAtOnce(policy, r, FloorOf(policy, ask), GoalOf(policy, ask), StepOf(control, ask), control, now);
  }

  // ---- Writing the band beside another writer ----

  /** What was last written, what the nodes last read, and until when the platform has precedence. */
  datatype Nodes = Nodes(seenMin: int, seenMax: int, actualMin: int, actualMax: int, yieldUntilMs: int)

  /** The nodes no longer read as they last did. */
  predicate Foreign(b: Nodes, nodeMin: int, nodeMax: int) {
    (b.actualMin != 0 && nodeMin != b.actualMin) || (b.actualMax != 0 && nodeMax != b.actualMax)
  }

  /** The band asked for, inside the policy's limits. */
  function Wanted(policy: Policy, wantMin: int, wantMax: int, fmin: int, fmax: int): (int, int) {
    var low := Max(Max(wantMin, fmin), policy.hwMin);
    (low, Max(Min(Min(wantMax, fmax), policy.hwMax), low))
  }

  /** Whether enforce_band_with_yield writes. */
  predicate Writes(b: Nodes, want: (int, int), nodeMin: int, nodeMax: int, now: int, allowYield: bool) {
    && !(allowYield && Foreign(b, nodeMin, nodeMax))
    && !(allowYield && now < b.yieldUntilMs)
    && (nodeMin, nodeMax) != want
  }

  /** enforce_band_with_yield, where the nodes read (nodeMin, nodeMax) before and readBack after a write. */
  function Enforce(b: Nodes, want: (int, int), nodeMin: int, nodeMax: int, readBack: (int, int), now: int,
                   allowYield: bool): Nodes
  {
    var b' := b.(actualMin := nodeMin, actualMax := nodeMax);
    if allowYield && Foreign(b, nodeMin, nodeMax) then b'.(yieldUntilMs := now + YIELD_MS)
    else if Writes(b, want, nodeMin, nodeMax, now, allowYield) then
      b'.(seenMin := want.0, seenMax := want.1, actualMin := readBack.0, actualMax := readBack.1)
    else b'
  }

  /** One tick: what is wanted, what the nodes read before it and what they would read after a write. */
  datatype Tick = Tick(want: (int, int), nodeMin: int, nodeMax: int, readBack: (int, int), now: int)

  predicate Run(states: seq<Nodes>, ticks: seq<Tick>, allowYield: bool) {
    && |states| == |ticks| + 1
    && (forall i :: 0 <= i < |ticks| ==>
          states[i + 1] == Enforce(states[i], ticks[i].want, ticks[i].nodeMin, ticks[i].nodeMax, ticks[i].readBack,
                                   ticks[i].now, allowYield))
  }

  predicate TickWrites(b: Nodes, t: Tick, allowYield: bool) {
    Writes(b, t.want, t.nodeMin, t.nodeMax, t.now, allowYield)
  }

  predicate Monotone(ticks: seq<Tick>) {
    forall i, j :: 0 <= i < j < |ticks| ==> ticks[i].now <= ticks[j].now
  }

  lemma {:induction false} YieldKept(states: seq<Nodes>, ticks: seq<Tick>, i: nat, n: nat)
    requires Run(states, ticks, true) && Monotone(ticks)
    requires i < n <= |ticks| && Foreign(states[i], ticks[i].nodeMin, ticks[i].nodeMax)
    ensures states[n].yieldUntilMs >= ticks[i].now + YIELD_MS
  {
    assert states[n - 1 + 1] == Enforce(states[n - 1], ticks[n - 1].want, ticks[n - 1].nodeMin, ticks[n - 1].nodeMax,
                                        ticks[n - 1].readBack, ticks[n - 1].now, true);
    if i + 1 < n {
      YieldKept(states, ticks, i, n - 1);
    }
  }

  /** In yielding mode nothing is written for 400 ms after a foreign change was seen, and nothing when it is. */
  lemma YieldsToPlatform(states: seq<Nodes>, ticks: seq<Tick>, i: nat, n: nat)
    requires Run(states, ticks, true) && Monotone(ticks) && i <= n < |ticks|
    requires Foreign(states[i], ticks[i].nodeMin, ticks[i].nodeMax)
    requires ticks[n].now < ticks[i].now + YIELD_MS
    ensures !TickWrites(states[n], ticks[n], true)
  {
    if i < n {
      YieldKept(states, ticks, i, n);
    }
  }

  /** The platform writes nothing of its own: the nodes hold what they last read, or the result of our write. */
  predicate OnlyClamps(states: seq<Nodes>, ticks: seq<Tick>, allowYield: bool) {
    |states| == |ticks| + 1
    && forall i :: 0 < i < |ticks| ==>
         (ticks[i].nodeMin, ticks[i].nodeMax)
         == if TickWrites(states[i - 1], ticks[i - 1], allowYield) then ticks[i - 1].readBack
            else (ticks[i - 1].nodeMin, ticks[i - 1].nodeMax)
  }

  /** A platform that only clamps what we write is never taken for another writer, in either mode. */
  lemma ClampIsNotForeign(states: seq<Nodes>, ticks: seq<Tick>, allowYield: bool, n: nat)
    requires Run(states, ticks, allowYield) && OnlyClamps(states, ticks, allowYield) && n < |ticks|
    requires states[0].actualMin == 0 == states[0].actualMax
    ensures !Foreign(states[n], ticks[n].nodeMin, ticks[n].nodeMax)
  {
    if n > 0 {
      ClampIsNotForeign(states, ticks, allowYield, n - 1);
      var m := n - 1;
      assert states[m + 1] == Enforce(states[m], ticks[m].want, ticks[m].nodeMin, ticks[m].nodeMax, ticks[m].readBack,
                                      ticks[m].now, allowYield);
    }
  }

  lemma {:induction false} NeverYields(states: seq<Nodes>, ticks: seq<Tick>, allowYield: bool, n: nat)
    requires Run(states, ticks, allowYield) && OnlyClamps(states, ticks, allowYield) && n < |ticks|
    requires states[0].actualMin == 0 == states[0].actualMax
    ensures states[n].yieldUntilMs == states[0].yieldUntilMs
  {
    if n > 0 {
      var m := n - 1;
      NeverYields(states, ticks, allowYield, m);
      ClampIsNotForeign(states, ticks, allowYield, m);
      assert states[m + 1] == Enforce(states[m], ticks[m].want, ticks[m].nodeMin, ticks[m].nodeMax, ticks[m].readBack,
                                      ticks[m].now, allowYield);
    }
  }

  /** So clamping never stops the rewriting: every tick that finds the nodes off the band writes it. */
  lemma ClampKeepsRewriting(states: seq<Nodes>, ticks: seq<Tick>, allowYield: bool, n: nat)
    requires Run(states, ticks, allowYield) && OnlyClamps(states, ticks, allowYield) && n < |ticks|
    requires states[0].actualMin == 0 == states[0].actualMax && states[0].yieldUntilMs <= ticks[n].now
    ensures TickWrites(states[n], ticks[n], allowYield) <==> (ticks[n].nodeMin, ticks[n].nodeMax) != ticks[n].want
  {
    NeverYields(states, ticks, allowYield, n);
    ClampIsNotForeign(states, ticks, allowYield, n);
  }

  // ---- The cluster as the program keeps it ----

  method RoundDownLoop(table: seq<int>, target: int) returns (closest: int)
    ensures closest == RoundDown(table, target)
  {
    if table == [] {
      return target;
    }
    closest := table[0];
    var found := false;
    var f := 0;
    while f < |table|
      invariant 0 <= f <= |table|
      invariant !found ==> f == 0 && closest == table[0]
      invariant found ==> f > 0 && closest == table[f - 1] && closest <= target
      invariant found ==> PrefixLength(table, target, 1) == PrefixLength(table, target, f)
    {
      if table[f] <= target {
        closest := table[f];
        found := true;
      } else {
        break;
      }
      f := f + 1;
    }
    return if found then closest else table[0];
  }

  method RoundUpLoop(table: seq<int>, target: int) returns (closest: int)
    ensures closest == RoundUp(table, target)
  {
    if table == [] {
      return target;
    }
    closest := table[0];
    var minDiff, maxF, found := 2147483647, table[0], false;
    var best: Option<int> := None;
    var f := 0;
    while f < |table|
      invariant 0 <= f <= |table|
      invariant best == SmallestAtLeast(table[..f], target)
      invariant f > 0 ==> maxF == Largest(table[..f])
      invariant f == 0 ==> maxF == table[0]
    {
      assert table[..f + 1][..f] == table[..f];
      var v := table[f];
      if v > maxF {
        maxF := v;
      }
      if v >= target {
        if best.None? || v - target < best.value - target {
          best := Some(v);
        }
      }
      f := f + 1;
    }
    assert table[..f] == table;
    closest := if best.Some? then best.value else maxF;
  }

  class ClusterBand {
    const policy: Policy
    const control: Control
    var last: int
    var raiseMs: int
    var releaseMs: int
    var seenMin: int
    var seenMax: int
    var actualMin: int
    var actualMax: int
    var yieldUntilMs: int

    constructor (policy: Policy, control: Control)
      ensures this.policy == policy && this.control == control
      ensures RampState() == Ramp(0, 0, 0) && NodeState() == Nodes(0, 0, 0, 0, 0)
    {
      this.policy, this.control := policy, control;
      last, raiseMs, releaseMs := 0, 0, 0;
      seenMin, seenMax, actualMin, actualMax, yieldUntilMs := 0, 0, 0, 0, 0;
    }

    function RampState(): Ramp
      reads this
    {
      Ramp(last, raiseMs, releaseMs)
    }

    function NodeState(): Nodes
      reads this
    {
      Nodes(seenMin, seenMax, actualMin, actualMax, yieldUntilMs)
    }

    /** enforce_band_with_yield; readBack is what the nodes hold after a write. */
    method EnforceBand(wantMin: int, wantMax: int, fmin: int, fmax: int, nodeMin: int, nodeMax: int,
                       readBack: (int, int), now: int, allowYield: bool) returns (wrote: bool)
      modifies this`seenMin, this`seenMax, this`actualMin, this`actualMax, this`yieldUntilMs
      ensures var want := Wanted(policy, wantMin, wantMax, fmin, fmax);
              wrote == Writes(old(NodeState()), want, nodeMin, nodeMax, now, allowYield)
              && NodeState() == Enforce(old(NodeState()), want, nodeMin, nodeMax, readBack, now, allowYield)
    {
      var want := ClampWanted(wantMin, wantMax, fmin, fmax);
      var externalChange := (actualMin != 0 && nodeMin != actualMin) || (actualMax != 0 && nodeMax != actualMax);
      actualMin := nodeMin;
      actualMax := nodeMax;
      if externalChange && allowYield {
        yieldUntilMs := now + YIELD_MS;
        return false;
      }
      if allowYield && now < yieldUntilMs {
        return false;
      }
      if nodeMin == want.0 && nodeMax == want.1 {
        return false;
      }
      seenMin := want.0;
      seenMax := want.1;
      actualMin := readBack.0;
      actualMax := readBack.1;
      return true;
    }

    method ClampWanted(wantMin: int, wantMax: int, fmin: int, fmax: int) returns (want: (int, int))
      ensures want == Wanted(policy, wantMin, wantMax, fmin, fmax)
    {
      var low, high := wantMin, wantMax;
      if low < fmin {
        low := fmin;
      }
      if low < policy.hwMin {
        low := policy.hwMin;
      }
      if high > fmax {
        high := fmax;
      }
      if high > policy.hwMax {
        high := policy.hwMax;
      }
      if high < low {
        high := low;
      }
      want := (low, high);
    }

    /** apply_render_band; the game path never yields. */
    method ApplyRenderBand(bandMin: int, bandMax: int, fmin: int, fmax: int, clampFloor: int,
                           nodeMin: int, nodeMax: int, readBack: (int, int), now: int)
      modifies this
      ensures var goal := Goal(policy, bandMax, fmax);
              var floor := Floor(policy, bandMin, bandMax, fmin, fmax, clampFloor);
              RampState() == Apply(policy, old(RampState()), floor, goal, Step(control, fmin, fmax), control, now)
              && NodeState() == if Waits(old(RampState()), goal, control, now) then old(NodeState())
                                else
                                  var want := Wanted(policy, floor, last, fmin, fmax);
                                  Enforce(old(NodeState()), want, nodeMin, nodeMax, readBack, now, false)
    {
      hide Goal, Floor, Step, Released, Enforce, Writes, Wanted;
      var wantMax, wantMin := Limits(bandMin, bandMax, fmin, fmax, clampFloor);
      var current := if last > 0 then last else wantMax;
      var applied := wantMax;
      if wantMax < current {
        if now - raiseMs < RAISE_SETTLE_MS {
          return;
        }
        if now - releaseMs < control.releaseHoldMs {
          return;
        }
        applied := StepDown(current, wantMax, fmin, fmax);
        releaseMs := now;
      } else if wantMax > current {
        raiseMs := now;
      }
      if applied < wantMin {
        applied := wantMin;
      }
      var wrote := EnforceBand(wantMin, applied, fmin, fmax, nodeMin, nodeMax, readBack, now, false);
      last := applied;
    }

    /** The band asked for, rounded to the table. */
    method Limits(bandMin: int, bandMax: int, fmin: int, fmax: int, clampFloor: int)
      returns (wantMax: int, wantMin: int)
      ensures wantMax == Goal(policy, bandMax, fmax)
      ensures wantMin == Floor(policy, bandMin, bandMax, fmin, fmax, clampFloor)
    {
      hide RoundDown, RoundUp;
      var limit := if clampFloor >= 0 then clampFloor else fmin;
      if limit > fmin {
        limit := fmin;
      }
      var high, low := bandMax, bandMin;
      if high > fmax {
        high := fmax;
      }
      if high > policy.hwMax {
        high := policy.hwMax;
      }
      if low < limit {
        low := limit;
      }
      if low < policy.hwMin {
        low := policy.hwMin;
      }
      if low > high {
        low := high;
      }
      wantMax := RoundDownLoop(policy.table, high);
      wantMin := RoundUpLoop(policy.table, low);
      if wantMin > wantMax {
        wantMin := wantMax;
      }
    }

    /** The ceiling after one release. */
    method StepDown(current: int, wantMax: int, fmin: int, fmax: int) returns (applied: int)
      ensures applied == Released(policy, current, wantMax, Step(control, fmin, fmax))
    {
      hide RoundDown;
      var range := if fmax - fmin > 1 then fmax - fmin else 1;
      var step := TruncDiv(range * control.releaseStepPermille, 1000);
      if step < MIN_STEP_KHZ {
        step := MIN_STEP_KHZ;
      }
      var next := current - step;
      if next < wantMax {
        next := wantMax;
      }
      applied := RoundDownLoop(policy.table, next);
      if applied > current {
        applied := current;
      }
      if applied < wantMax {
        applied := wantMax;
      }
    }
  }
}
