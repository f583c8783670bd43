/**
 * Runs of a game at one frame per 60 ms, with a usable tick every g milliseconds: they meet what
 * FasCalibration asks of a slow game, and one second between ticks is already enough to end it.
 */
module FasSlowGame {
  import opened FasCalibration
  import opened FasEngine
  import opened Numbers

  const FRAME_NS: int := 60_000_000
  const START: int := 1001

  /**
   * Six events of start-up, then an interval of 60 ms and a tick for every period. A game delivers
   * that with a frame every 60 ms when the period is 60; with a longer period by two frames 60 ms
   * apart in each, when the gap between such pairs is one the signal handler rejects, that is above
   * 200 ms. The engine is handed intervals, so it is the same run either way.
   */
  function EventAt(g: nat, i: nat): Event {
    if i == 0 then App("game", 1)
    else if i < 6 then Frame(FRAME_NS, 1)
    else if i % 2 == 0 then Frame(FRAME_NS, START + (i / 2 - 3) * g)
    else Clock(START + (i / 2 - 3) * g)
  }

  function StateAt(config: Config, g: nat, i: nat): Engine {
    if i == 0 then Init(config) else Next(StateAt(config, g, i - 1), EventAt(g, i - 1))
  }

  function Events(g: nat, n: nat): seq<Event> {
    seq(n, i requires 0 <= i => EventAt(g, i))
  }

  function States(config: Config, g: nat, n: nat): seq<Engine> {
    seq(n + 1, i requires 0 <= i => StateAt(config, g, i))
  }

  lemma OneStep(config: Config, g: nat, i: nat)
    ensures StateAt(config, g, i + 1) == Next(StateAt(config, g, i), EventAt(g, i))
  {
  }

  function Sixties(n: nat): seq<real> {
    seq(n, _ => 60.0)
  }

  lemma {:induction false} SumOfSixties(s: seq<real>)
    requires forall x :: x in s ==> x == 60.0
    ensures Sum(s) == 60.0 * |s| as real
  {
    if s != [] {
      var n := |s| - 1;
      assert forall x :: x in s[..n] ==> x in s;
      SumOfSixties(s[..n]);
      assert s[n] in s;
    }
  }

  lemma AverageOfSixties(n: nat, k: int)
    requires 0 < k <= n
    ensures Average(Sixties(n), k) == 60.0
  {
    SumOfSixties(Sixties(n)[n - k..]);
    DivBounds(Sum(Sixties(n)[n - k..]), k, 60.0, 60.0);
  }

  lemma MedianOfSixties(n: nat)
    requires n > 0
    ensures Median(Sixties(n)) == 60.0
  {
    var sorted := Sort(Sixties(n));
    forall i | 0 <= i < |sorted| ensures sorted[i] == 60.0 {
      assert sorted[i] in multiset(sorted);
      assert sorted[i] in Sixties(n);
    }
  }

  lemma OneMore(n: nat)
    ensures Sixties(n) + [60.0] == Sixties(n + 1)
  {
  }

  lemma {:induction false} PushSixty(e: Engine, n: nat, now: int)
    requires e.frames == Sixties(n) && n < 600 && e.stableFps == 0
    ensures PushFrame(e, FRAME_NS, now) == e.(frames := Sixties(n + 1), lastUpdateMs := now)
  {
    OneMore(n);
  }

  /** While there is no baseline the frames alone decide what a tick sees. */
  lemma {:induction false} SnapSixties(e: Engine, n: nat, now: int)
    requires e.frames == Sixties(n) && n > 0 && e.stableFps == 0
    ensures TakeSnapshot(e, now).avgShort == 60.0
    ensures TakeSnapshot(e, now).usable == (n >= 6 && Fresh(e, now) && WarmedUp(e, now))
  {
    AverageOfSixties(n, Min(ShortCount(120), n));
    AverageOfSixties(n, Min(n, 60));
  }

  /** What start-up leaves: five frames of the game and nothing else. */
  lemma {:induction false} StartedUp(config: Config, g: nat)
    ensures StateAt(config, g, 6) == AppChange(Init(config), "game", 1).(frames := Sixties(5), lastUpdateMs := 1)
  {
    var e := AppChange(Init(config), "game", 1);
    assert StateAt(config, g, 1) == e by {
      assert StateAt(config, g, 0) == Init(config);
    }
    assert e.frames == Sixties(0);
    hide PushFrame, AppChange, Init;
    PushedUp(config, g, e, 0);
    PushedUp(config, g, e.(frames := Sixties(1), lastUpdateMs := 1), 1);
    PushedUp(config, g, e.(frames := Sixties(2), lastUpdateMs := 1), 2);
    PushedUp(config, g, e.(frames := Sixties(3), lastUpdateMs := 1), 3);
    PushedUp(config, g, e.(frames := Sixties(4), lastUpdateMs := 1), 4);
  }

  lemma {:induction false} PushedUp(config: Config, g: nat, e: Engine, n: nat)
    requires n < 5 && StateAt(config, g, n + 1) == e && e.frames == Sixties(n) && e.stableFps == 0
    ensures StateAt(config, g, n + 2) == e.(frames := Sixties(n + 1), lastUpdateMs := 1)
  {
    hide PushFrame;
    PushSixty(e, n, 1);
  }

  /** The engine after i + 1 periods of a calibration with count samples since the time since. */
  function Sampled(config: Config, g: nat, i: nat, count: nat, since: int): Engine {
    AppChange(Init(config), "game", 1).(
      frames := Sixties(6 + i), lastUpdateMs := START + i * g, usable := true, usableSinceMs := START,
      phase := Calibrating, phaseSinceMs := START, calib := Sixties(count), calibSinceMs := since)
  }

  lemma {:induction false} FirstPeriod(config: Config, g: nat)
    ensures StateAt(config, g, 8) == Sampled(config, g, 0, 1, START)
  {
    hide TakeSnapshot, PushFrame, Median;
    StartedUp(config, g);
    var e := StateAt(config, g, 6);
    PushSixty(e, 5, START);
    var e' := PushFrame(e, FRAME_NS, START);
    assert EventAt(g, 6) == Frame(FRAME_NS, START) && EventAt(g, 7) == Clock(START);
    assert StateAt(config, g, 7) == e';
    SnapSixties(e', 6, START);
    assert [] + [60.0] == Sixties(1);
  }

  /** The engine between the frame and the tick of the next period. */
  function Framed(config: Config, g: nat, i: nat, count: nat, since: int): Engine {
    Sampled(config, g, i, count, since).(frames := Sixties(7 + i), lastUpdateMs := START + (i + 1) * g)
  }

  lemma EventsOfPeriod(g: nat, i: nat)
    ensures EventAt(g, 8 + 2 * i) == Frame(FRAME_NS, START + (i + 1) * g)
    ensures EventAt(g, 9 + 2 * i) == Clock(START + (i + 1) * g)
  {
    assert (8 + 2 * i) / 2 - 3 == i + 1 && (9 + 2 * i) / 2 - 3 == i + 1;
  }

  /** What the tick of the next period will see. */
  lemma {:induction false} FrameIn(config: Config, g: nat, i: nat, count: nat, since: int)
    requires i < 100
    requires StateAt(config, g, 8 + 2 * i) == Sampled(config, g, i, count, since)
    ensures var e', now := Framed(config, g, i, count, since), START + (i + 1) * g;
            && StateAt(config, g, 9 + 2 * i) == e'
            && StateAt(config, g, 8 + 2 * (i + 1)) == Tick(e', now).0
            && HasFrames(e') && TakeSnapshot(e', now).usable && TakeSnapshot(e', now).avgShort == 60.0
  {
    hide Tick, PushFrame, TakeSnapshot, StateAt, EventAt, Sampled, Framed, Fresh, WarmedUp, Sixties;
    var now := START + (i + 1) * g;
    var e, e' := Sampled(config, g, i, count, since), Framed(config, g, i, count, since);
    EventsOfPeriod(g, i);
    OneStep(config, g, 8 + 2 * i);
    OneStep(config, g, 9 + 2 * i);
    FramedFields(config, g, i, count, since);
    PushSixty(e, 6 + i, now);
    SnapSixties(e', 7 + i, now);
    assert StateAt(config, g, 9 + 2 * i) == e';
  }

  lemma {:induction false} FramedFields(config: Config, g: nat, i: nat, count: nat, since: int)
    ensures var e, e', now := Sampled(config, g, i, count, since), Framed(config, g, i, count, since),
            START + (i + 1) * g;
            && e.frames == Sixties(6 + i) && e.stableFps == 0
            && e' == e.(frames := Sixties(7 + i), lastUpdateMs := now)
            && HasFrames(e') && Fresh(e', now) && WarmedUp(e', now)
  {
  }

  lemma CalibrateTick(e: Engine, now: int)
    requires e.phase == Calibrating && e.usable && e.unusableSinceMs == 0 && UsableAt(e, now)
    ensures Tick(e, now).0 == Calibrate(e, TakeSnapshot(e, now).avgShort, now)
  {
    hide TakeSnapshot, Calibrate;
  }

  lemma {:induction false} TickOfPeriod(config: Config, g: nat, i: nat, count: nat, since: int)
    requires i < 100
    requires StateAt(config, g, 8 + 2 * i) == Sampled(config, g, i, count, since)
    ensures StateAt(config, g, 8 + 2 * (i + 1))
            == Calibrate(Framed(config, g, i, count, since), 60.0, START + (i + 1) * g)
  {
    FrameIn(config, g, i, count, since);
    hide StateAt, TakeSnapshot, Tick, Calibrate;
    CalibrateTick(Framed(config, g, i, count, since), START + (i + 1) * g);
  }

  /** One more period that neither ends nor restarts the calibration. */
  lemma {:induction false} Period(config: Config, g: nat, i: nat, count: nat, since: int)
    requires i < 100 && since > 0 && count < CALIB_MIN_FRAMES - 1
    requires StateAt(config, g, 8 + 2 * i) == Sampled(config, g, i, count, since)
    ensures StateAt(config, g, 8 + 2 * (i + 1)) == Sampled(config, g, i + 1, count + 1, since)
  {
    TickOfPeriod(config, g, i, count, since);
    OneMore(count);
    hide Median, StateAt;
  }

  lemma {:induction false} Periods(config: Config, g: nat, i: nat, n: nat, count: nat, since: int)
    requires i + n <= 100 && since > 0 && count + n < CALIB_MIN_FRAMES
    requires StateAt(config, g, 8 + 2 * i) == Sampled(config, g, i, count, since)
    ensures StateAt(config, g, 8 + 2 * (i + n)) == Sampled(config, g, i + n, count + n, since)
  {
    hide StateAt, Sampled;
    if n > 0 {
      Periods(config, g, i, n - 1, count, since);
      Period(config, g, i + n - 1, count + n - 1, since);
    }
  }

  /** The calibration of a framed engine whose next sample is the twentieth. */
  lemma Twentieth(e: Engine, now: int)
    requires e.calib == Sixties(19) && 0 < e.calibSinceMs <= now - CALIB_MS
    ensures var e' := Calibrate(e, 60.0, now);
            if now - e.calibSinceMs < CALIB_MAX_WAIT_MS then e' == e.(calibSinceMs := now, calib := [])
            else e'.phase == Stable && e'.base == 60.0
  {
    OneMore(19);
    MedianOfSixties(20);
    hide Median, FpsFromInterval;
  }

  /** At one second a period the twentieth sample comes after 19 s, and the calibration starts over. */
  lemma RestartPeriod(config: Config)
    requires StateAt(config, 1000, 44) == Sampled(config, 1000, 18, 19, START)
    ensures StateAt(config, 1000, 46) == Sampled(config, 1000, 19, 0, START + 19000)
  {
    TickOfPeriod(config, 1000, 18, 19, START);
    StartedOver(config, 1000, 18, 19, START);
    FramedCalib(config, 1000, 18, 19, START);
    hide *;
    Twentieth(Framed(config, 1000, 18, 19, START), START + 19000);
  }

  lemma FramedCalib(config: Config, g: nat, i: nat, count: nat, since: int)
    ensures Framed(config, g, i, count, since).calib == Sixties(count)
    ensures Framed(config, g, i, count, since).calibSinceMs == since
  {
  }

  lemma {:induction false} StartedOver(config: Config, g: nat, i: nat, count: nat, since: int)
    ensures var now := START + (i + 1) * g;
            Framed(config, g, i, count, since).(calibSinceMs := now, calib := []) == Sampled(config, g, i + 1, 0, now)
  {
    assert Sixties(0) == [];
    hide AppChange, Init;
  }

  /** From there the twentieth comes after 20 s, which ends it. */
  lemma LastPeriod(config: Config)
    requires StateAt(config, 1000, 84) == Sampled(config, 1000, 38, 19, START + 19000)
    ensures StateAt(config, 1000, 86).phase == Stable && StateAt(config, 1000, 86).base == 60.0
  {
    TickOfPeriod(config, 1000, 38, 19, START + 19000);
    hide Median, StateAt, Calibrate;
    Twentieth(Framed(config, 1000, 38, 19, START + 19000), START + 39000);
  }

  // ---- The runs ----

  /** The state before every period: the whole run up to the end of the calibration. */
  lemma BeforePeriod(config: Config, g: nat, i: nat) returns (count: nat, since: int)
    requires i <= 18 || (g == 1000 && i <= 38)
    ensures StateAt(config, g, 8 + 2 * i) == Sampled(config, g, i, count, since) && since > 0
    ensures count == if i <= 18 then i + 1 else i - 19
    ensures i > 18 ==> since == START + 19000
  {
    FirstPeriod(config, g);
    hide StateAt, Sampled;
    count, since := if i <= 18 then i + 1 else i - 19, if i <= 18 then START else START + 19000;
    Periods(config, g, 0, if i <= 18 then i else 18, 1, START);
    if i > 18 {
      RestartPeriod(config);
      Periods(config, g, 19, i - 19, 0, START + 19000);
    }
  }

  /** Exactly the ticks of the periods are usable, and all their samples are 60 ms. */
  predicate TicksOfPeriods(config: Config, g: nat, n: nat) {
    forall p: nat :: p < n ==>
      && (SampledAt(StateAt(config, g, p), EventAt(g, p)) <==> p >= 7 && p % 2 == 1)
      && (SampledAt(StateAt(config, g, p), EventAt(g, p)) ==>
            TakeSnapshot(StateAt(config, g, p), EventAt(g, p).at).avgShort == 60.0)
  }

  lemma FirstTick(config: Config, g: nat)
    ensures SampledAt(StateAt(config, g, 7), EventAt(g, 7))
    ensures TakeSnapshot(StateAt(config, g, 7), EventAt(g, 7).at).avgShort == 60.0
  {
    StartedUp(config, g);
    PushSixty(StateAt(config, g, 6), 5, START);
    assert EventAt(g, 6) == Frame(FRAME_NS, START) && EventAt(g, 7) == Clock(START);
    var e := PushFrame(StateAt(config, g, 6), FRAME_NS, START);
    hide PushFrame, Tick;
    assert StateAt(config, g, 7) == e;
    SnapSixties(e, 6, START);
  }

  lemma {:induction false} LaterTick(config: Config, g: nat, i: nat)
    requires i <= 18 || (g == 1000 && i <= 38)
    ensures SampledAt(StateAt(config, g, 9 + 2 * i), EventAt(g, 9 + 2 * i))
    ensures TakeSnapshot(StateAt(config, g, 9 + 2 * i), EventAt(g, 9 + 2 * i).at).avgShort == 60.0
  {
    var count, since := BeforePeriod(config, g, i);
    FrameIn(config, g, i, count, since);
    EventsOfPeriod(g, i);
    hide StateAt, TakeSnapshot, Sampled;
  }

  lemma {:induction false} TicksAreUsable(config: Config, g: nat, n: nat)
    requires n <= 46 || (g == 1000 && n <= 86)
    ensures TicksOfPeriods(config, g, n)
  {
    hide StateAt, TakeSnapshot;
    forall p: nat | p < n
      ensures SampledAt(StateAt(config, g, p), EventAt(g, p)) <==> p >= 7 && p % 2 == 1
      ensures SampledAt(StateAt(config, g, p), EventAt(g, p)) ==>
                TakeSnapshot(StateAt(config, g, p), EventAt(g, p).at).avgShort == 60.0
    {
      if p == 7 {
        FirstTick(config, g);
      } else if p > 7 && p % 2 == 1 {
        LaterTick(config, g, (p - 9) / 2);
      }
    }
  }

  lemma EventTimes(g: nat, i: nat, j: nat)
    requires i <= j
    ensures 1 <= EventAt(g, i).at <= EventAt(g, j).at
  {
    if i >= 6 {
      assert i / 2 <= j / 2;
      assert (i / 2 - 3) * g <= (j / 2 - 3) * g;
    } else if j >= 6 {
      assert (j / 2 - 3) * g >= 0;
    }
  }

  lemma {:induction false} IsRun(config: Config, g: nat, n: nat)
    ensures Run(States(config, g, n), Events(g, n))
  {
    var states, events := States(config, g, n), Events(g, n);
    hide Next, EventAt;
    forall i | 0 <= i < n ensures states[i + 1] == Next(states[i], events[i]) && events[i].at >= 1 {
      EventTimes(g, i, i);
      assert states[i + 1] == StateAt(config, g, i + 1);
    }
    forall i, j | 0 <= i < j < n ensures events[i].at <= events[j].at {
      EventTimes(g, i, j);
    }
    assert states[0] == StateAt(config, g, 0) == Init(config);
  }

  /** The hypotheses of LimitNeverReached and SlowGameStuck, for this run and a gap. */
  predicate SlowAndRegular(states: seq<Engine>, events: seq<Event>, gap: int) {
    && Run(states, events) && SamplesAbove(states, events, CALIB_MIN_INTERVAL_MS)
    && forall j: nat, k: nat :: k < j < |events| && CalibratedFrom(states, events, k, j) ==>
         Regular(states, events, k, j + 1, gap)
  }

  lemma {:induction false} TickSoonAfter(config: Config, g: nat, n: nat, k: nat, p: nat)
    requires TicksOfPeriods(config, g, n) && k < p < n && SampledAt(StateAt(config, g, k), EventAt(g, k))
    requires SampledAt(StateAt(config, g, p), EventAt(g, p))
    ensures |States(config, g, n)| == n + 1 && |Events(g, n)| == n
    ensures SoonAfter(States(config, g, n), Events(g, n), k, p, g)
  {
    hide *;
    UsableTick(config, g, n, k);
    UsableTick(config, g, n, p);
    UsableTick(config, g, n, p - 2);
    OnePeriodApart(g, p);
    StatesAre(config, g, n, p - 2);
    EventsAre(g, n, p - 2);
    EventsAre(g, n, p);
    IsSoonAfter(States(config, g, n), Events(g, n), k, p, p - 2, g);
  }

  lemma {:induction false} RegularFrom(config: Config, g: nat, n: nat, k: nat, j: nat)
    requires TicksOfPeriods(config, g, n) && k < j < n && SampledAt(StateAt(config, g, k), EventAt(g, k))
    ensures |States(config, g, n)| == n + 1 && |Events(g, n)| == n
    ensures Regular(States(config, g, n), Events(g, n), k, j + 1, g)
  {
    Sizes(config, g, n);
    var states, events := States(config, g, n), Events(g, n);
    hide StateAt, TakeSnapshot, UsableAt, EventAt, SampledAt, TicksOfPeriods, SoonAfter, States, Events;
    forall p | k < p < j + 1 && SampledAt(states[p], events[p])
      ensures SoonAfter(states, events, k, p, g)
    {
      StatesAre(config, g, n, p);
      EventsAre(g, n, p);
      TickSoonAfter(config, g, n, k, p);
    }
  }

  lemma EventsAre(g: nat, n: nat, i: nat)
    requires i < n
    ensures |Events(g, n)| == n && Events(g, n)[i] == EventAt(g, i)
  {
    hide EventAt;
  }

  lemma {:induction false} UsableTick(config: Config, g: nat, n: nat, p: nat)
    requires TicksOfPeriods(config, g, n) && p < n
    ensures SampledAt(StateAt(config, g, p), EventAt(g, p)) <==> p >= 7 && p % 2 == 1
  {
    hide StateAt, SampledAt, EventAt, TakeSnapshot;
  }

  lemma IsSoonAfter(states: seq<Engine>, events: seq<Event>, k: nat, p: nat, q: nat, gap: int)
    requires k <= q < p < |events| < |states| && SampledAt(states[q], events[q]) && events[p].at - events[q].at <= gap
    ensures SoonAfter(states, events, k, p, gap)
  {
  }

  lemma OnePeriodApart(g: nat, p: nat)
    requires p >= 9 && p % 2 == 1
    ensures EventAt(g, p).at - EventAt(g, p - 2).at == g
  {
    assert p / 2 - 3 == (p - 2) / 2 - 3 + 1;
  }

  lemma {:induction false} IsSlowAndRegular(config: Config, g: nat, n: nat)
    requires TicksOfPeriods(config, g, n)
    ensures SlowAndRegular(States(config, g, n), Events(g, n), g)
  {
    var states, events := States(config, g, n), Events(g, n);
    IsRun(config, g, n);
    hide StateAt, TakeSnapshot, UsableAt, EventAt, SampledAt, Regular, Run;
    forall j: nat, k: nat | k < j < n && CalibratedFrom(states, events, k, j)
      ensures Regular(states, events, k, j + 1, g)
    {
      assert SampledAt(StateAt(config, g, k), EventAt(g, k));
      RegularFrom(config, g, n, k, j);
    }
    assert SamplesAbove(states, events, CALIB_MIN_INTERVAL_MS);
  }

  /** For every period below a second there is a slow game with usable ticks to which the limit never applies. */
  lemma SlowGamesExist(config: Config, g: nat)
    requires g < 1000
    ensures exists states: seq<Engine>, events: seq<Event> ::
              SlowAndRegular(states, events, g) && |states| == |events| + 1
              && states[|events|].phase == Calibrating && |states[|events|].calib| == 19
  {
    TicksAreUsable(config, g, 44);
    IsSlowAndRegular(config, g, 44);
    var count, since := BeforePeriod(config, g, 18);
    hide StateAt, SlowAndRegular;
    assert States(config, g, 44)[44] == StateAt(config, g, 44);
  }

  /** At one second it does: the gap in LimitNeverReached and SlowGameStuck cannot be larger. */
  lemma GapIsTight(config: Config)
    ensures exists states: seq<Engine>, events: seq<Event> ::
              SlowAndRegular(states, events, 1000) && 0 < |events| == |states| - 1
              && states[|events| - 1].phase == Calibrating
              && states[|events|].phase == Stable && states[|events|].base > CALIB_MIN_INTERVAL_MS
  {
    TicksAreUsable(config, 1000, 86);
    IsSlowAndRegular(config, 1000, 86);
    LastTwo(config);
    var states, events := States(config, 1000, 86), Events(1000, 86);
    hide *;
    assert |events| == 86 && |states| == 87 by {
      Sizes(config, 1000, 86);
    }
    assert states[86] == StateAt(config, 1000, 86) && states[85] == StateAt(config, 1000, 85) by {
      StatesAre(config, 1000, 86, 86);
      StatesAre(config, 1000, 86, 85);
    }
  }

  lemma Sizes(config: Config, g: nat, n: nat)
    ensures |States(config, g, n)| == n + 1 && |Events(g, n)| == n
  {
  }

  lemma StatesAre(config: Config, g: nat, n: nat, i: nat)
    requires i <= n
    ensures |States(config, g, n)| == n + 1 && States(config, g, n)[i] == StateAt(config, g, i)
  {
    hide StateAt;
  }

  lemma LastTwo(config: Config)
    ensures StateAt(config, 1000, 85).phase == Calibrating
    ensures StateAt(config, 1000, 86).phase == Stable && StateAt(config, 1000, 86).base == 60.0
  {
    var count, since := BeforePeriod(config, 1000, 38);
    FrameIn(config, 1000, 38, count, since);
    hide StateAt, Tick, TakeSnapshot;
    LastPeriod(config);
  }
}
