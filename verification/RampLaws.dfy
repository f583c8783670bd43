/**
 * What one tick and a run of ticks do to the band of a cluster, said without the functions that do
 * it: rounding to the table, the ceiling and floor asked for, the step of the ramp and what is written.
 */
module RampLaws {
  import opened Numbers
  import opened RenderBand

  // ---- The band asked for, in numbers ----

  /** r is x rounded down to the table, or its first entry when all lie above x. */
  predicate RoundsDown(table: seq<int>, x: int, r: int) {
    if table == [] then r == x
    else
      r in table && (x < table[0] ==> r == table[0])
      && (x >= table[0] ==> r <= x && forall f :: f in table ==> !(r < f <= x))
  }

  /** r is x rounded up to the table, or its largest entry when all lie below x. */
  predicate RoundsUp(table: seq<int>, x: int, r: int) {
    if table == [] then r == x
    else
      r in table && (r < x ==> forall f :: f in table ==> f <= r)
      && (r >= x ==> forall f :: f in table ==> !(x <= f < r))
  }

  predicate Least(x: int, a: int, b: int, c: int) {
    x <= a && x <= b && x <= c && (x == a || x == b || x == c)
  }

  predicate Greatest(x: int, a: int, b: int, c: int) {
    x >= a && x >= b && x >= c && (x == a || x == b || x == c)
  }

  /** The ceiling asked for: within the limits, rounded down. */
  ghost predicate IsCeiling(policy: Policy, ask: Ask, goal: int) {
    exists x :: Least(x, ask.bandMax, ask.fmax, policy.hwMax) && RoundsDown(policy.table, x, goal)
  }

  /** The floor asked for: within the limits, not above the ceiling before rounding, rounded up, or the goal. */
  ghost predicate IsFloor(policy: Policy, ask: Ask, goal: int, floor: int) {
    exists top, low ::
      && Least(top, ask.bandMax, ask.fmax, policy.hwMax)
      && Greatest(low, ask.bandMin, policy.hwMin, LowerLimit(ask))
      && FloorFrom(policy, Min(low, top), goal, floor)
  }

  ghost predicate FloorFrom(policy: Policy, x: int, goal: int, floor: int) {
    exists rounded :: RoundsUp(policy.table, x, rounded) && floor == (if rounded < goal then rounded else goal)
  }

  /** The caller may lower the limit of the floor, not raise it. */
  function LowerLimit(ask: Ask): int {
    if 0 <= ask.clampFloor < ask.fmin then ask.clampFloor else ask.fmin
  }

  /** The step of the ramp: so many thousandths of the range, and 64 MHz at least. */
  predicate IsStep(control: Control, ask: Ask, step: int) {
    var range := if ask.fmax - ask.fmin > 1 then ask.fmax - ask.fmin else 1;
    var product := range * control.releaseStepPermille;
    if product < 64001 * 1000 then step == 64000 else 1000 * step <= product < 1000 * (step + 1)
  }

  lemma DownIs(table: seq<int>, x: int)
    requires Sorted(table)
    ensures RoundsDown(table, x, RoundDown(table, x))
  {
    if table != [] {
      RoundDownMeaning(table, x);
    }
  }

  lemma {:induction false} LargestIs(table: seq<int>)
    requires table != []
    ensures Largest(table) in table && forall f :: f in table ==> f <= Largest(table)
  {
    var n := |table| - 1;
    if n > 0 {
      LargestIs(table[..n]);
      assert table == table[..n] + [table[n]];
    }
  }

  lemma UpIs(table: seq<int>, x: int)
    ensures RoundsUp(table, x, RoundUp(table, x))
  {
    if table != [] {
      RoundUpMeaning(table, x);
      LargestIs(table);
      hide SmallestAtLeast, Largest;
    }
  }

  lemma StepIs(control: Control, ask: Ask)
    ensures IsStep(control, ask, StepOf(control, ask)) && StepOf(control, ask) >= 64000
  {
    var range := Max(1, ask.fmax - ask.fmin);
    var product := range * control.releaseStepPermille;
    assert StepOf(control, ask) == Max(TruncDiv(product, 1000), 64000);
    if product >= 0 {
      var q := product / 1000;
      assert 1000 * q <= product < 1000 * (q + 1);
    }
  }

  /** What is asked for is what the program computes. */
  lemma AskedFor(policy: Policy, control: Control, ask: Ask)
    requires Usable(policy, ask)
    ensures IsCeiling(policy, ask, GoalOf(policy, ask)) && IsStep(control, ask, StepOf(control, ask))
    ensures IsFloor(policy, ask, GoalOf(policy, ask), FloorOf(policy, ask))
  {
    StepIs(control, ask);
    var top := Min(Min(ask.bandMax, ask.fmax), policy.hwMax);
    var low := Max(Max(ask.bandMin, LowerLimit(ask)), policy.hwMin);
    DownIs(policy.table, top);
    UpIs(policy.table, Min(low, top));
    FloorIs(policy, ask, top, low);
    hide RoundDown, RoundUp, RoundsDown, RoundsUp, GoalOf, FloorOf, IsStep, StepOf;
    assert Least(top, ask.bandMax, ask.fmax, policy.hwMax);
    assert Greatest(low, ask.bandMin, policy.hwMin, LowerLimit(ask));
    assert FloorFrom(policy, Min(low, top), GoalOf(policy, ask), FloorOf(policy, ask));
  }

  lemma FloorIs(policy: Policy, ask: Ask, top: int, low: int)
    requires top == Min(Min(ask.bandMax, ask.fmax), policy.hwMax)
    requires low == Max(Max(ask.bandMin, LowerLimit(ask)), policy.hwMin)
    ensures GoalOf(policy, ask) == RoundDown(policy.table, top)
    ensures FloorOf(policy, ask) == Min(RoundUp(policy.table, Min(low, top)), GoalOf(policy, ask))
  {
  }

  // ---- One tick ----

  /** The wait after a raise and after a release. */
  predicate MustWait(r: Ramp, control: Control, now: int) {
    now < r.raiseMs + 120 || now < r.releaseMs + control.releaseHoldMs
  }

  /**
   * One tick, exactly: up to the goal at once; down not at all while it must wait, and otherwise to the
   * table entry just below one step, or to the goal if that is higher.
   */
  predicate TickTo(policy: Policy, r: Ramp, control: Control, goal: int, step: int, now: int, r': Ramp) {
    if r.last <= goal then
      r' == Ramp(goal, if 0 < r.last < goal then now else r.raiseMs, r.releaseMs)
    else if MustWait(r, control, now) then r' == r
    else
      RoundsDown(policy.table, if r.last - step > goal then r.last - step else goal, r'.last)
      && r' == Ramp(r'.last, r.raiseMs, now)
  }

  lemma OneTick(policy: Policy, r: Ramp, ask: Ask, control: Control, now: int)
    requires Usable(policy, ask)
    ensures TickTo(policy, r, control, GoalOf(policy, ask), StepOf(control, ask), now,
                   AfterAsk(policy, r, ask, control, [now]))
  {
    AskFits(policy, control, ask);
    var goal, floor, step := GoalOf(policy, ask), FloorOf(policy, ask), StepOf(control, ask);
    AfterOne(policy, r, floor, goal, step, control, now);
    GoalInTable(policy, ask);
    TickIs(policy, r, floor, goal, step, control, now);
    hide GoalOf, FloorOf, StepOf, After, Apply, GoalFits, TickTo;
  }

  lemma GoalInTable(policy: Policy, ask: Ask)
    requires Usable(policy, ask)
    ensures EntryOf(policy, GoalOf(policy, ask))
  {
    if policy.table != [] {
      RoundDownMeaning(policy.table, Min(Min(ask.bandMax, ask.fmax), policy.hwMax));
    }
  }

  predicate EntryOf(policy: Policy, goal: int) {
    policy.table == [] || goal in policy.table
  }

  lemma TickIs(policy: Policy, r: Ramp, floor: int, goal: int, step: int, control: Control, now: int)
    requires GoalFits(policy, goal) && EntryOf(policy, goal) && Sorted(policy.table)
    requires floor <= goal && goal > 0 && step > 0
    ensures TickTo(policy, r, control, goal, step, now, Apply(policy, r, floor, goal, step, control, now))
  {
    DownIs(policy.table, Max(r.last - step, goal));
    hide RoundDown, Sorted;
  }

  /**
   * Whatever is asked of a sorted table: the ceiling and the floor, the step and the ceiling after the
   * tick are these, and the band written keeps to them and to the limits.
   */
  lemma BandTick(policy: Policy, r: Ramp, ask: Ask, control: Control, now: int)
    requires Usable(policy, ask)
    ensures exists goal, floor, step ::
              && IsCeiling(policy, ask, goal) && IsFloor(policy, ask, goal, floor) && IsStep(control, ask, step)
              && floor == FloorOf(policy, ask)
              && TickTo(policy, r, control, goal, step, now, AfterAsk(policy, r, ask, control, [now]))
  {
    AskedFor(policy, control, ask);
    OneTick(policy, r, ask, control, now);
    hide GoalOf, FloorOf, StepOf, AfterAsk, TickTo;
  }

  // ---- A run of releases ----

  /** Between the first entry and the last no gap of the table is larger. */
  predicate GapsWithin(table: seq<int>, g: int) {
    g >= 0 && forall i :: 0 <= i < |table| - 1 ==> table[i + 1] - table[i] <= g
  }

  /** Rounding down loses at most a gap. */
  lemma RoundingLoses(table: seq<int>, x: int, r: int, g: int)
    requires Sorted(table) && GapsWithin(table, g) && RoundsDown(table, x, r)
    requires table == [] || table[0] <= x <= table[|table| - 1]
    ensures x - g <= r
  {
    if table != [] && r < x {
      var i :| 0 <= i < |table| && table[i] == r;
      assert i < |table| - 1;
      var j := LastAt(table, r);
      assert table[j + 1] in table;
    }
  }

  /** Where an entry stands for the last time. */
  lemma LastAt(table: seq<int>, r: int) returns (j: nat)
    requires Sorted(table) && r in table && r < table[|table| - 1]
    ensures j < |table| - 1 && table[j] == r && table[j + 1] > r
  {
    j :| 0 <= j < |table| && table[j] == r;
    while table[j + 1] == r
      invariant j < |table| - 1 && table[j] == r
      decreases |table| - j
    {
      j := j + 1;
    }
  }

  /**
   * The ceiling never falls faster than the ramp: with table gaps of at most g, k releases take it down
   * by at most k steps and k gaps, from a ceiling within the table.
   */
  lemma {:induction false} ReleasesAreGradual(
      policy: Policy, r: Ramp, floor: int, goal: int, step: int, control: Control, times: seq<int>, g: nat)
    requires GoalFits(policy, goal) && EntryOf(policy, goal) && Sorted(policy.table) && GapsWithin(policy.table, g)
    requires floor <= goal
    requires step >= MIN_STEP_KHZ && r.last >= goal > 0
    requires policy.table == [] || r.last <= policy.table[|policy.table| - 1]
    ensures var k := Releases(policy, r, floor, goal, step, control, times);
            After(policy, r, floor, goal, step, control, times).last >= r.last - k * (step + g)
  {
    hide Apply, GoalFits, Sorted, GapsWithin, EntryOf, Waits;
    if times != [] {
      var n := |times| - 1;
      var before := After(policy, r, floor, goal, step, control, times[..n]);
      var k := Releases(policy, r, floor, goal, step, control, times[..n]);
      ReleasesAreGradual(policy, r, floor, goal, step, control, times[..n], g);
      ReleasesDescend(policy, r, floor, goal, step, control, times[..n]);
      assert (k + 1) * (step + g) == k * (step + g) + step + g;
      NotAbove(k, step, r.last, before.last, goal);
      GradualTick(policy, before, floor, goal, step, control, times[n], g);
    } else {
      NoReleases(policy, r, floor, goal, step, control);
    }
  }

  lemma NoReleases(policy: Policy, r: Ramp, floor: int, goal: int, step: int, control: Control)
    ensures After(policy, r, floor, goal, step, control, []) == r
    ensures Releases(policy, r, floor, goal, step, control, []) == 0
  {
  }

  lemma NotAbove(k: nat, step: int, first: int, last: int, goal: int)
    requires step > 0 && goal <= first && last <= Max(first - k * step, goal)
    ensures last <= first
  {
    assert k * step >= 0;
  }

  lemma GradualTick(policy: Policy, r: Ramp, floor: int, goal: int, step: int, control: Control, now: int, g: nat)
    requires GoalFits(policy, goal) && EntryOf(policy, goal) && Sorted(policy.table) && GapsWithin(policy.table, g)
    requires floor <= goal
    requires step > 0 && r.last >= goal > 0
    requires policy.table == [] || r.last <= policy.table[|policy.table| - 1]
    ensures var r' := Apply(policy, r, floor, goal, step, control, now);
            if goal < r.last && !Waits(r, goal, control, now) then r'.last >= r.last - (step + g) else r'.last == r.last
  {
    TickIs(policy, r, floor, goal, step, control, now);
    var r' := Apply(policy, r, floor, goal, step, control, now);
    if goal < r.last && !Waits(r, goal, control, now) {
      RoundingLoses(policy.table, if r.last - step > goal then r.last - step else goal, r'.last, g);
    }
    hide Sorted, RoundsDown, GapsWithin;
  }

  /** So it is for every band asked for: with n releases the ceiling has fallen by at most n steps and n gaps. */
  lemma BandFallsGradually(policy: Policy, r: Ramp, ask: Ask, control: Control, times: seq<int>, g: nat)
    requires Usable(policy, ask) && r.last >= GoalOf(policy, ask) && GapsWithin(policy.table, g)
    requires policy.table == [] || r.last <= policy.table[|policy.table| - 1]
    ensures var k := ReleasesOf(policy, r, ask, control, times);
            AfterAsk(policy, r, ask, control, times).last >= r.last - k * (StepOf(control, ask) + g)
  {
    AskFits(policy, control, ask);
    GoalInTable(policy, ask);
    ReleasesAreGradual(policy, r, FloorOf(policy, ask), GoalOf(policy, ask), StepOf(control, ask), control, times, g);
    AskIs(policy, r, ask, control, times);
    hide FloorOf, GoalOf, StepOf, After, Releases, AfterAsk, ReleasesOf, Usable, GapsWithin;
  }

  // ---- What is written ----

  /** The band written: the floor raised to the limits, the ceiling lowered to them but not below the floor. */
  lemma WantedIs(policy: Policy, wantMin: int, wantMax: int, fmin: int, fmax: int)
    ensures var (low, high) := Wanted(policy, wantMin, wantMax, fmin, fmax);
            && Greatest(low, wantMin, fmin, policy.hwMin)
            && exists top :: Least(top, wantMax, fmax, policy.hwMax) && high == (if top > low then top else low)
  {
    assert Least(Min(Min(wantMax, fmax), policy.hwMax), wantMax, fmax, policy.hwMax);
  }

  /**
   * A tick writes exactly when the nodes do not hold that band and, for a writer that yields, nobody else
   * has written since it last looked and the 400 ms since it last saw somebody do so are over.
   */
  lemma WritesIff(b: Nodes, want: (int, int), nodeMin: int, nodeMax: int, readBack: (int, int), now: int,
                  allowYield: bool)
    ensures var b' := Enforce(b, want, nodeMin, nodeMax, readBack, now, allowYield);
            var other := (b.actualMin != 0 && nodeMin != b.actualMin) || (b.actualMax != 0 && nodeMax != b.actualMax);
            var writes := (nodeMin != want.0 || nodeMax != want.1)
                          && (allowYield ==> !other && now >= b.yieldUntilMs);
            && (Writes(b, want, nodeMin, nodeMax, now, allowYield) <==> writes)
            && b' == Nodes(if writes then want.0 else b.seenMin, if writes then want.1 else b.seenMax,
                           if writes then readBack.0 else nodeMin, if writes then readBack.1 else nodeMax,
                           if allowYield && other then now + 400 else b.yieldUntilMs)
  {
  }
}
