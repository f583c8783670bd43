/**
 * How soon a change is tried: retries and announced changes while inotify works, and polling, which
 * loads a file exactly when some tick falls into a half-second window after a poll.
 */
module ConfigTiming {
  import opened ConfigReload

  /** A step that restarts no debounce and reads the file: no notice of the file arrives. */
  predicate Quiet(s: System, step: Step) {
    match step
    case Handle(count, _) => !Relevant(s.queue[..ReadCount(s, count)])
    case Tick(_, readable, _) => readable
    case _ => true
  }

  predicate QuietFrom(states: seq<System>, steps: seq<Step>, m: nat, n: nat) {
    n <= |steps| < |states| && forall k :: m <= k < n ==> Quiet(states[k], steps[k])
  }

  /** When the last tick among the steps m to k - 1 came, or t0. */
  function LastTick(steps: seq<Step>, m: nat, k: nat, t0: int): int
    requires m <= k <= |steps|
  {
    if k == m then t0
    else if steps[k - 1].Tick? then steps[k - 1].now
    else LastTick(steps, m, k - 1, t0)
  }

  /** From t0 on ticks come in order and at most gap apart. */
  predicate Ticking(steps: seq<Step>, m: nat, n: nat, t0: int, gap: int)
    requires m <= n <= |steps|
  {
    forall k :: m <= k < n && steps[k].Tick? ==>
      LastTick(steps, m, k, t0) <= steps[k].now <= LastTick(steps, m, k, t0) + gap
  }

  lemma TickingLess(steps: seq<Step>, m: nat, n: nat, t0: int, gap: int)
    requires m < n <= |steps| && Ticking(steps, m, n, t0, gap)
    ensures Ticking(steps, m, n - 1, t0, gap)
    ensures steps[n - 1].Tick? ==>
              LastTick(steps, m, n - 1, t0) <= steps[n - 1].now <= LastTick(steps, m, n - 1, t0) + gap
    ensures LastTick(steps, m, n, t0)
         == if steps[n - 1].Tick? then steps[n - 1].now else LastTick(steps, m, n - 1, t0)
  {
  }

  lemma {:induction false} TicksAscend(steps: seq<Step>, m: nat, n: nat, t0: int, gap: int)
    requires m <= n <= |steps| && Ticking(steps, m, n, t0, gap)
    ensures t0 <= LastTick(steps, m, n, t0)
    ensures forall k :: m <= k < n && steps[k].Tick? ==> steps[k].now <= LastTick(steps, m, n, t0)
  {
    if m < n {
      TickingLess(steps, m, n, t0, gap);
      TicksAscend(steps, m, n - 1, t0, gap);
    }
  }

  // ---- While inotify works ----

  /** The load is tried, or the file turns out to be as committed and the mark is taken off. */
  predicate Settles(s: System, step: Step) {
    step.Tick?
    && (Attempts(s, step)
        || (s.file == Committed(s.watch)
            && !Process(Poll(s, step.now, step.readable), step.now, step.readable, step.loadOk).watch.dirty))
  }

  predicate UnsettledFrom(states: seq<System>, steps: seq<Step>, m: nat, n: nat) {
    n <= |steps| < |states| && forall k :: m <= k < n ==> !Settles(states[k], steps[k])
  }

  predicate Unpolled(states: seq<System>, m: nat, n: nat) {
    n <= |states| && forall k :: m <= k < n ==> !states[k].polling
  }

  /** How long after t0 a pending load can have to wait: the longest delay, or a tick and the debounce. */
  function Deadline(gap: int): int {
    if gap + DEBOUNCE_MS > MAX_BACKOFF_MS then gap + DEBOUNCE_MS else MAX_BACKOFF_MS
  }

  /** A watch marked at t0, or whose load failed at t0, when the last tick was at last. */
  predicate Pending(w: Watch, t0: int, gap: int, last: int) {
    && w.dirty && w.cooldownUntilMs <= t0 + MAX_BACKOFF_MS
    && (if w.dirtySinceMs <= 0 then last == t0 else w.dirtySinceMs <= t0 + gap)
  }

  lemma PendingStep(s: System, step: Step, limit: nat, t0: int, gap: int, last: int)
    requires Pending(s.watch, t0, gap, last) && !s.polling && Quiet(s, step) && 0 < t0 <= last
    requires step.Tick? ==> last <= step.now <= last + gap
    requires !Settles(s, step)
    ensures Pending(Next(s, step, limit).watch, t0, gap, if step.Tick? then step.now else last)
    ensures step.Tick? ==> step.now < t0 + Deadline(gap)
  {
    hide Relevant;
  }

  lemma {:induction false} StaysPending(
      states: seq<System>, steps: seq<Step>, limit: nat, m: nat, n: nat, t0: int, gap: int)
    requires Run(states, steps, limit) && m <= n <= |steps| && t0 > 0
    requires Pending(states[m].watch, t0, gap, t0)
    requires QuietFrom(states, steps, m, n) && Unpolled(states, m, n) && Ticking(steps, m, n, t0, gap)
    requires UnsettledFrom(states, steps, m, n)
    ensures Pending(states[n].watch, t0, gap, LastTick(steps, m, n, t0))
    ensures LastTick(steps, m, n, t0) < t0 + Deadline(gap)
  {
    hide Next, Settles, Quiet, Pending, Ticking;
    if m < n {
      TickingLess(steps, m, n, t0, gap);
      StaysPending(states, steps, limit, m, n - 1, t0, gap);
      TicksAscend(steps, m, n - 1, t0, gap);
      assert states[n - 1 + 1] == Next(states[n - 1], steps[n - 1], limit);
      PendingStep(states[n - 1], steps[n - 1], limit, t0, gap, LastTick(steps, m, n - 1, t0));
    }
  }

  /** The first step of a run that settles, when not every step up to n is unsettled. */
  lemma {:induction false} FirstSettled(states: seq<System>, steps: seq<Step>, m: nat, n: nat) returns (k: nat)
    requires m <= n <= |steps| < |states| && !UnsettledFrom(states, steps, m, n)
    ensures m <= k < n && Settles(states[k], steps[k]) && UnsettledFrom(states, steps, m, k)
  {
    hide Settles;
    assert m < n;
    if UnsettledFrom(states, steps, m, n - 1) {
      k := n - 1;
    } else {
      k := FirstSettled(states, steps, m, n - 1);
    }
  }

  lemma SettlesIsTick(s: System, step: Step)
    requires Settles(s, step)
    ensures step.Tick?
  {
  }

  /**
   * A load pending since t0 settles within the deadline and one gap, whatever else happens to the
   * file, as long as no notice of it restarts the debounce.
   */
  lemma PendingSettles(states: seq<System>, steps: seq<Step>, limit: nat, m: nat, n: nat, t0: int, gap: nat)
    requires Run(states, steps, limit) && m <= n <= |steps| && t0 > 0
    requires Pending(states[m].watch, t0, gap, t0)
    requires QuietFrom(states, steps, m, n) && Unpolled(states, m, n) && Ticking(steps, m, n, t0, gap)
    requires LastTick(steps, m, n, t0) >= t0 + Deadline(gap)
    ensures exists k :: m <= k < n && Settles(states[k], steps[k]) && steps[k].now < t0 + Deadline(gap) + gap
  {
    hide Next, Settles, Quiet, Pending;
    if UnsettledFrom(states, steps, m, n) {
      StaysPending(states, steps, limit, m, n, t0, gap);
    }
    var k := FirstSettled(states, steps, m, n);
    StaysPending(states, steps, limit, m, k, t0, gap);
    SettlesIsTick(states[k], steps[k]);
  }

  /** A failed load is tried again, or found unnecessary, within 30 s and one gap of regular ticks. */
  lemma RetriedInTime(states: seq<System>, steps: seq<Step>, limit: nat, m: nat, n: nat, gap: nat)
    requires Run(states, steps, limit) && m < n <= |steps|
    requires Attempts(states[m], steps[m]) && !steps[m].loadOk && steps[m].now > 0
    requires QuietFrom(states, steps, m + 1, n) && Unpolled(states, m + 1, n)
    requires Ticking(steps, m + 1, n, steps[m].now, gap)
    requires LastTick(steps, m + 1, n, steps[m].now) >= steps[m].now + Deadline(gap)
    ensures exists k :: m < k < n && Settles(states[k], steps[k]) && steps[k].now < steps[m].now + Deadline(gap) + gap
  {
    FailedIsPending(states[m], steps[m], limit, gap);
    PendingSettles(states, steps, limit, m + 1, n, steps[m].now, gap);
  }

  lemma FailedIsPending(s: System, step: Step, limit: nat, gap: nat)
    requires Attempts(s, step) && !step.loadOk
    ensures Pending(Next(s, step, limit).watch, step.now, gap, step.now)
    ensures Next(s, step, limit).watch.cooldownUntilMs <= step.now + MAX_BACKOFF_MS
  {
    BackoffRange(Poll(s, step.now, step.readable).watch.failures + 1);
  }

  // ---- How long a failure puts off the next try ----

  /** How many loads have failed since the last one that succeeded. */
  function FailedSince(states: seq<System>, steps: seq<Step>, n: nat): nat
    requires n <= |steps| < |states|
  {
    if n == 0 then 0
    else if !Attempts(states[n - 1], steps[n - 1]) then FailedSince(states, steps, n - 1)
    else if steps[n - 1].loadOk then 0
    else FailedSince(states, steps, n - 1) + 1
  }

  lemma CountStep(s: System, step: Step, limit: nat)
    ensures var s' := Next(s, step, limit);
            && (!Attempts(s, step) ==>
                  s'.watch.failures == s.watch.failures && s'.watch.cooldownUntilMs == s.watch.cooldownUntilMs)
            && (Attempts(s, step) ==> step.now >= s.watch.cooldownUntilMs)
            && (Attempts(s, step) && step.loadOk ==>
                  s'.watch.failures == 0 && s'.watch.cooldownUntilMs == step.now + COOLDOWN_MS)
            && (Attempts(s, step) && !step.loadOk ==>
                  s'.watch.failures == s.watch.failures + 1
                  && s'.watch.cooldownUntilMs == step.now + Backoff(s.watch.failures + 1))
  {
    hide Relevant, Backoff;
  }

  lemma {:induction false} FailuresCounted(states: seq<System>, steps: seq<Step>, limit: nat, n: nat)
    requires Run(states, steps, limit) && n <= |steps| && states[0] == Primed(states[0].file)
    ensures |states| == |steps| + 1 && states[n].watch.failures == FailedSince(states, steps, n)
  {
    hide Next, Attempts;
    if n > 0 {
      FailuresCounted(states, steps, limit, n - 1);
      assert states[n - 1 + 1] == Next(states[n - 1], steps[n - 1], limit);
      CountStep(states[n - 1], steps[n - 1], limit);
    }
  }

  lemma {:induction false} CooldownStays(states: seq<System>, steps: seq<Step>, limit: nat, m: nat, n: nat)
    requires Run(states, steps, limit) && m <= n <= |steps|
    requires forall k :: m <= k < n ==> !Attempts(states[k], steps[k])
    ensures states[n].watch.cooldownUntilMs == states[m].watch.cooldownUntilMs
  {
    hide Next, Attempts;
    if m < n {
      CooldownStays(states, steps, limit, m, n - 1);
      assert states[n - 1 + 1] == Next(states[n - 1], steps[n - 1], limit);
      CountStep(states[n - 1], steps[n - 1], limit);
    }
  }

  /**
   * In every run from startup the next try after a load comes no sooner than 3 s after it if it
   * succeeded, and 2, 4, 8, 16 and then always 30 s if it was the first, second and so on to fail.
   */
  lemma RetryWaits(states: seq<System>, steps: seq<Step>, limit: nat, m: nat, n: nat)
    requires Run(states, steps, limit) && states[0] == Primed(states[0].file) && m < n < |steps|
    requires Attempts(states[m], steps[m]) && Attempts(states[n], steps[n])
    requires forall k :: m < k < n ==> !Attempts(states[k], steps[k])
    ensures |states| == |steps| + 1 && steps[m].Tick? && steps[n].Tick?
    ensures steps[m].loadOk ==> steps[n].now >= steps[m].now + 3000
    ensures !steps[m].loadOk ==>
              var f := FailedSince(states, steps, m + 1);
              f > 0 && steps[n].now >= steps[m].now + (if f >= 5 then 30000 else [2000, 4000, 8000, 16000][f - 1])
  {
    FailuresCounted(states, steps, limit, m);
    CooldownStays(states, steps, limit, m + 1, n);
    assert states[m + 1] == Next(states[m], steps[m], limit);
    CountStep(states[m], steps[m], limit);
    CountStep(states[n], steps[n], limit);
    var f := states[m].watch.failures + 1;
    BackoffDoubles(1);
    BackoffDoubles(2);
    BackoffDoubles(3);
    BackoffDoubles(f);
    hide Next, Backoff;
  }

  // ---- The clock of a run ----

  predicate Timed(step: Step) {
    step.Tick? || step.Handle?
  }

  function Time(step: Step): int
    requires Timed(step)
  {
    if step.Tick? then step.now else step.handleMs
  }

  /** The clock is positive and never goes back. */
  predicate Clocked(steps: seq<Step>) {
    forall i, j :: 0 <= i <= j < |steps| && Timed(steps[i]) && Timed(steps[j]) ==>
      0 < Time(steps[i]) <= Time(steps[j])
  }

  /** No cool-down ends more than 30 s after any later time. */
  lemma {:induction false} CooldownBounded(states: seq<System>, steps: seq<Step>, limit: nat, n: nat, j: nat)
    requires Run(states, steps, limit) && Clocked(steps) && n <= j < |steps| && Timed(steps[j])
    requires states[0] == Primed(states[0].file)
    ensures states[n].watch.cooldownUntilMs <= Time(steps[j]) + MAX_BACKOFF_MS
  {
    if n > 0 {
      CooldownBounded(states, steps, limit, n - 1, j);
      assert states[n - 1 + 1] == Next(states[n - 1], steps[n - 1], limit);
      CooldownStep(states[n - 1], steps[n - 1], limit);
    }
  }

  lemma CooldownStep(s: System, step: Step, limit: nat)
    ensures var s' := Next(s, step, limit);
            s'.watch.cooldownUntilMs == s.watch.cooldownUntilMs
            || (step.Tick? && s'.watch.cooldownUntilMs <= step.now + MAX_BACKOFF_MS)
  {
    if step.Tick? {
      BackoffRange(s.watch.failures + 1);
    }
  }

  /**
   * Over every run from startup: once the notice of a change has been read, the file is loaded, or
   * found as committed, within 30 s and one gap, unless a later notice restarts the debounce.
   */
  lemma AnnouncedInTime(states: seq<System>, steps: seq<Step>, limit: nat, m: nat, n: nat, gap: nat)
    requires Run(states, steps, limit) && Clocked(steps) && m < n <= |steps| && states[0] == Primed(states[0].file)
    requires steps[m].Handle? && Relevant(states[m].queue[..ReadCount(states[m], steps[m].count)])
    requires QuietFrom(states, steps, m + 1, n) && Unpolled(states, m + 1, n)
    requires Ticking(steps, m + 1, n, steps[m].handleMs, gap)
    requires LastTick(steps, m + 1, n, steps[m].handleMs) >= steps[m].handleMs + Deadline(gap)
    ensures exists k :: m < k < n && Settles(states[k], steps[k])
                   && steps[k].now < steps[m].handleMs + Deadline(gap) + gap
  {
    CooldownBounded(states, steps, limit, m, m);
    assert states[m + 1] == Next(states[m], steps[m], limit);
    PendingSettles(states, steps, limit, m + 1, n, steps[m].handleMs, gap);
  }

  // ---- When a pending load is tried ----

  predicate Untried(states: seq<System>, steps: seq<Step>, n: nat) {
    n <= |steps| < |states| && forall k :: 0 <= k < n ==> !Attempts(states[k], steps[k])
  }

  lemma {:induction false} FirstTried(states: seq<System>, steps: seq<Step>, n: nat) returns (k: nat)
    requires n <= |steps| < |states| && !Untried(states, steps, n)
    ensures k < n && Attempts(states[k], steps[k]) && Untried(states, steps, k)
  {
    hide Attempts;
    assert n > 0;
    if Untried(states, steps, n - 1) {
      k := n - 1;
    } else {
      k := FirstTried(states, steps, n - 1);
    }
  }

  /** A handled read that holds a notice of the file. */
  predicate Noticed(s: System, step: Step) {
    step.Handle? && Relevant(s.queue[..ReadCount(s, step.count)])
  }

  /** The mark in force before step k: the last notice of the file, or the first tick after a failed load. */
  function MarkTime(states: seq<System>, steps: seq<Step>, k: nat): int
    requires k <= |steps| < |states|
  {
    if k == 0 then states[0].watch.dirtySinceMs
    else
      var mark := MarkTime(states, steps, k - 1);
      if Noticed(states[k - 1], steps[k - 1]) then steps[k - 1].handleMs
      else if steps[k - 1].Tick? && mark <= 0 then steps[k - 1].now
      else mark
  }

  /** A tick outside the cool-down that comes the debounce time or more after the mark in force. */
  predicate Ripe(states: seq<System>, steps: seq<Step>, k: nat)
    requires k < |steps| < |states|
  {
    steps[k].Tick? && steps[k].now >= states[0].watch.cooldownUntilMs && MarkTime(states, steps, k) > 0
    && steps[k].now - MarkTime(states, steps, k) >= DEBOUNCE_MS
  }

  /** A marked file that differs, while inotify works. */
  predicate Waiting(s: System) {
    s.watch.dirty && !s.polling && Differs(s, true)
  }

  /** The file stays what it is, though it may be saved again, and can be read; inotify stays enough. */
  predicate KeepsFile(s: System, step: Step) {
    match step
    case Write(content) => content == s.file
    case Replace(content) => content == s.file
    case Tick(now, readable, _) => readable && now > 0
    case Handle(_, handleMs) => handleMs > 0
    case AddWatch(fallback) => !fallback
    case Fallback => false
    case _ => true
  }

  predicate WaitingRun(states: seq<System>, steps: seq<Step>, limit: nat) {
    && Run(states, steps, limit) && Waiting(states[0])
    && forall k :: 0 <= k < |steps| ==> KeepsFile(states[k], steps[k])
  }

  lemma WaitingStep(s: System, step: Step, limit: nat)
    requires Waiting(s) && KeepsFile(s, step)
    ensures Attempts(s, step)
       <==> step.Tick? && step.now >= s.watch.cooldownUntilMs && s.watch.dirtySinceMs > 0
            && step.now - s.watch.dirtySinceMs >= DEBOUNCE_MS
    ensures !Attempts(s, step) ==>
              var s' := Next(s, step, limit);
              && Waiting(s') && s'.watch.cooldownUntilMs == s.watch.cooldownUntilMs && s'.loads == s.loads
              && s'.watch.dirtySinceMs
                 == (if Noticed(s, step) then step.handleMs
                     else if step.Tick? && s.watch.dirtySinceMs <= 0 then step.now
                     else s.watch.dirtySinceMs)
  {
    hide Relevant;
  }

  lemma {:induction false} StaysWaiting(states: seq<System>, steps: seq<Step>, limit: nat, n: nat)
    requires WaitingRun(states, steps, limit) && n <= |steps| && Untried(states, steps, n)
    ensures Waiting(states[n]) && states[n].watch.cooldownUntilMs == states[0].watch.cooldownUntilMs
    ensures states[n].watch.dirtySinceMs == MarkTime(states, steps, n) && states[n].loads == states[0].loads
  {
    hide Next, Attempts, Waiting, KeepsFile, Noticed;
    if n > 0 {
      StaysWaiting(states, steps, limit, n - 1);
      assert states[n - 1 + 1] == Next(states[n - 1], steps[n - 1], limit);
      WaitingStep(states[n - 1], steps[n - 1], limit);
    }
  }

  lemma RipeTries(states: seq<System>, steps: seq<Step>, limit: nat, k: nat)
    requires WaitingRun(states, steps, limit) && k < |steps| && Untried(states, steps, k)
    ensures |states| == |steps| + 1 && (Attempts(states[k], steps[k]) <==> Ripe(states, steps, k))
  {
    hide Next, Attempts, Waiting, KeepsFile;
    StaysWaiting(states, steps, limit, k);
    WaitingStep(states[k], steps[k], limit);
  }

  /** A pending load is tried exactly when some tick outside the cool-down is old enough after its mark. */
  lemma PendingLoadsIff(states: seq<System>, steps: seq<Step>, limit: nat)
    requires WaitingRun(states, steps, limit)
    ensures |states| == |steps| + 1
    ensures (exists k :: 0 <= k < |steps| && Attempts(states[k], steps[k]))
       <==> (exists k :: 0 <= k < |steps| && Ripe(states, steps, k))
  {
    assert |states| == |steps| + 1;
    hide Attempts, Ripe, WaitingRun;
    if Untried(states, steps, |steps|) {
      forall k | 0 <= k < |steps| ensures !Ripe(states, steps, k) {
        RipeTries(states, steps, limit, k);
      }
    } else {
      var k := FirstTried(states, steps, |steps|);
      RipeTries(states, steps, limit, k);
    }
  }

  lemma {:induction false} MarkedSince(states: seq<System>, steps: seq<Step>, j: nat, k: nat)
    requires Clocked(steps) && j < k <= |steps| < |states| && Noticed(states[j], steps[j])
    ensures MarkTime(states, steps, k) >= steps[j].handleMs > 0
  {
    assert Timed(steps[j]) && 0 < Time(steps[j]);
    if j + 1 < k {
      MarkedSince(states, steps, j, k - 1);
      hide Noticed, Relevant;
      assert Timed(steps[k - 1]) ==> Time(steps[j]) <= Time(steps[k - 1]);
    }
  }

  /** When every tick follows a notice of the file by less than the debounce time, the load is never tried. */
  lemma NoticesStarve(states: seq<System>, steps: seq<Step>, limit: nat)
    requires WaitingRun(states, steps, limit) && Clocked(steps) && |states| == |steps| + 1
    requires forall k :: 0 <= k < |steps| && steps[k].Tick? ==>
               exists j :: 0 <= j < k && Noticed(states[j], steps[j])
                      && steps[k].now - steps[j].handleMs < DEBOUNCE_MS
    ensures forall k :: 0 <= k < |steps| ==> !Attempts(states[k], steps[k])
  {
    forall k | 0 <= k < |steps| ensures !Ripe(states, steps, k) {
      hide WaitingRun, Noticed;
      if steps[k].Tick? {
        var j :| 0 <= j < k && Noticed(states[j], steps[j]) && steps[k].now - steps[j].handleMs < DEBOUNCE_MS;
        MarkedSince(states, steps, j, k);
      }
    }
    hide WaitingRun, Noticed, Ripe, Attempts;
    PendingLoadsIff(states, steps, limit);
  }

  // ---- A file saved every second ----

  /** The watch is added; then every second the file is saved, the notice read, and two ticks follow. */
  function SavingStep(i: nat): Step {
    if i == 0 then AddWatch(false)
    else
      var t := 1000 * ((i - 1) / 4 + 1);
      if i % 4 == 1 then Replace(1)
      else if i % 4 == 2 then Handle(1, t)
      else if i % 4 == 3 then Tick(t + 500, true, true)
      else Tick(t + 999, true, true)
  }

  function SavingState(i: nat, limit: nat): System {
    if i == 0 then Primed(2)
    else if i == 1 then Primed(2).(watching := true)
    else
      var t := 1000 * ((i - 2) / 4 + 1);
      var saved := System(Watch(true, t, 0, 2, true, 0, 0), 1, false, true, [], false, 0, 2, []);
      if i % 4 != 2 then saved
      else
        saved.(queue := Enqueue([], Ours, limit),
               watch := if i == 2 then Prime(2) else saved.watch.(dirtySinceMs := t - 1000))
  }

  lemma {:induction false} SavingNext(i: nat, limit: nat)
    ensures SavingState(i + 1, limit) == Next(SavingState(i, limit), SavingStep(i), limit)
    ensures !Attempts(SavingState(i, limit), SavingStep(i))
  {
    if i > 1 && i % 4 == 2 {
      assert Relevant(Enqueue([], Ours, limit)) by {
        EnqueueRelevant([], Ours, limit);
      }
      assert Enqueue([], Ours, limit)[..1] == Enqueue([], Ours, limit);
    }
  }

  /** From startup a file changed once and then saved every second, unchanged, is never loaded. */
  lemma SavedForever(n: nat, limit: nat)
    ensures exists states: seq<System>, steps: seq<Step> ::
              Run(states, steps, limit) && Clocked(steps) && |steps| == 4 * n + 1 && states[0] == Primed(2)
              && (forall k :: 0 <= k < |steps| ==> !Attempts(states[k], steps[k]))
              && (n > 0 ==> states[|steps|].file == 1 && states[|steps|].loaded == 2)
  {
    var states := seq(4 * n + 2, i requires 0 <= i => SavingState(i, limit));
    var steps := seq(4 * n + 1, i requires 0 <= i => SavingStep(i));
    assert n > 0 ==> SavingState(4 * n + 1, limit).file == 1 && SavingState(4 * n + 1, limit).loaded == 2;
    assert SavingState(0, limit) == Primed(2);
    hide Next, Attempts, SavingState, SavingStep, Timed, Time;
    forall i | 0 <= i < |steps|
      ensures states[i + 1] == Next(states[i], steps[i], limit) && !Attempts(states[i], steps[i])
    {
      SavingNext(i, limit);
    }
    forall i, j | 0 <= i <= j < |steps| && Timed(steps[i]) && Timed(steps[j])
      ensures 0 < Time(steps[i]) <= Time(steps[j])
    {
      SavingTimes(i, j);
    }
    assert Run(states, steps, limit) && Clocked(steps);
  }

  lemma SavingTime(i: nat)
    requires Timed(SavingStep(i))
    ensures i > 1 && Time(SavingStep(i)) == 1000 * ((i - 1) / 4 + 1) + [0, 0, 500, 999][(i - 1) % 4]
  {
  }

  lemma {:induction false} SavingTimes(i: nat, j: nat)
    requires i <= j && Timed(SavingStep(i)) && Timed(SavingStep(j))
    ensures 0 < Time(SavingStep(i)) <= Time(SavingStep(j))
  {
    SavingTime(i);
    SavingTime(j);
    hide SavingStep, Time, Timed;
    var a, b := (i - 1) / 4, (j - 1) / 4;
    assert i - 1 == 4 * a + (i - 1) % 4 && j - 1 == 4 * b + (j - 1) % 4;
    assert a < b || (a == b && (i - 1) % 4 <= (j - 1) % 4);
  }

  // ---- While polling ----

  /** A tick that tries the load, or finds nothing to load. */
  predicate Served(s: System, step: Step) {
    step.Tick? && (Attempts(s, step) || !Differs(s, true))
  }

  predicate UnservedFrom(states: seq<System>, steps: seq<Step>, m: nat, n: nat) {
    n <= |steps| < |states| && forall k :: m <= k < n ==> !Served(states[k], steps[k])
  }

  /** When the last possible poll before an attempt comes; free is the end of the cool-down at the start. */
  function LastPollBound(free: int, t0: int, gap: int): int {
    (if free > t0 + POLL_MS then free else t0 + POLL_MS) + gap
  }

  /** Polled at most two seconds ago, or not at all; once polled, the mark is that poll's, and not tried in time. */
  predicate PolledState(s: System, free: int, t0: int, gap: int, last: int) {
    var p := s.lastPollMs;
    && s.polling && s.watch.cooldownUntilMs == free
    && (p == 0 ==> last == t0)
    && (p != 0 ==> 0 < p <= last < p + POLL_MS)
    && (p > t0 ==>
          && s.watch.dirty && s.watch.dirtySinceMs == p && p < LastPollBound(free, t0, gap)
          && (last < p + DEBOUNCE_MS || last < free))
  }

  lemma PolledStep(s: System, step: Step, limit: nat, free: int, t0: int, gap: nat, last: int)
    requires PolledState(s, free, t0, gap, last) && Quiet(s, step) && 0 < t0 <= last
    requires gap <= POLL_MS - DEBOUNCE_MS
    requires step.Tick? ==> last <= step.now <= last + gap
    requires !Served(s, step)
    ensures PolledState(Next(s, step, limit), free, t0, gap, if step.Tick? then step.now else last)
    ensures step.Tick? ==> step.now < LastPollBound(free, t0, gap) + DEBOUNCE_MS
  {
    hide Relevant;
  }

  lemma {:induction false} StaysPolled(
      states: seq<System>, steps: seq<Step>, limit: nat, m: nat, n: nat, t0: int, gap: nat)
    requires Run(states, steps, limit) && m <= n <= |steps| && t0 > 0 && gap <= POLL_MS - DEBOUNCE_MS
    requires PolledState(states[m], states[m].watch.cooldownUntilMs, t0, gap, t0)
    requires QuietFrom(states, steps, m, n) && Ticking(steps, m, n, t0, gap) && UnservedFrom(states, steps, m, n)
    ensures var free := states[m].watch.cooldownUntilMs;
            PolledState(states[n], free, t0, gap, LastTick(steps, m, n, t0))
            && LastTick(steps, m, n, t0) < LastPollBound(free, t0, gap) + DEBOUNCE_MS
  {
    hide Next, Served, Quiet, PolledState, Ticking;
    if m < n {
      TickingLess(steps, m, n, t0, gap);
      StaysPolled(states, steps, limit, m, n - 1, t0, gap);
      TicksAscend(steps, m, n - 1, t0, gap);
      assert states[n - 1 + 1] == Next(states[n - 1], steps[n - 1], limit);
      var last := LastTick(steps, m, n - 1, t0);
      PolledStep(states[n - 1], steps[n - 1], limit, states[m].watch.cooldownUntilMs, t0, gap, last);
    }
  }

  lemma {:induction false} FirstServed(states: seq<System>, steps: seq<Step>, m: nat, n: nat) returns (k: nat)
    requires m <= n <= |steps| < |states| && !UnservedFrom(states, steps, m, n)
    ensures m <= k < n && Served(states[k], steps[k]) && UnservedFrom(states, steps, m, k)
  {
    hide Served;
    assert m < n;
    if UnservedFrom(states, steps, m, n - 1) {
      k := n - 1;
    } else {
      k := FirstServed(states, steps, m, n - 1);
    }
  }

  lemma ServedIsTick(s: System, step: Step)
    requires Served(s, step)
    ensures step.Tick?
  {
  }

  /**
   * With ticks at most half a second apart polling loses nothing: a file that stays different is
   * tried within two seconds of polling, or the rest of the cool-down, and the debounce and two gaps.
   */
  lemma PolledInTime(states: seq<System>, steps: seq<Step>, limit: nat, m: nat, n: nat, t0: int, gap: nat)
    requires Run(states, steps, limit) && m <= n <= |steps| && t0 > 0 && gap <= POLL_MS - DEBOUNCE_MS
    requires states[m].polling
    requires states[m].lastPollMs == 0 || 0 < states[m].lastPollMs <= t0 < states[m].lastPollMs + POLL_MS
    requires QuietFrom(states, steps, m, n) && Ticking(steps, m, n, t0, gap)
    requires LastTick(steps, m, n, t0) >= LastPollBound(states[m].watch.cooldownUntilMs, t0, gap) + DEBOUNCE_MS
    ensures exists k :: m <= k < n && Served(states[k], steps[k])
                   && steps[k].now < LastPollBound(states[m].watch.cooldownUntilMs, t0, gap) + DEBOUNCE_MS + gap
  {
    var free := states[m].watch.cooldownUntilMs;
    assert PolledState(states[m], free, t0, gap, t0);
    hide Next, Served, Quiet, PolledState;
    if UnservedFrom(states, steps, m, n) {
      StaysPolled(states, steps, limit, m, n, t0, gap);
    }
    var k := FirstServed(states, steps, m, n);
    StaysPolled(states, steps, limit, m, k, t0, gap);
    ServedIsTick(states[k], steps[k]);
  }

  /** So is a file whose load failed: again within 30 s, the debounce and two gaps. */
  lemma RetriedWhilePolling(states: seq<System>, steps: seq<Step>, limit: nat, m: nat, n: nat, gap: nat)
    requires Run(states, steps, limit) && m < n <= |steps| && gap <= POLL_MS - DEBOUNCE_MS
    requires Attempts(states[m], steps[m]) && !steps[m].loadOk && steps[m].now > 0
    requires states[m].polling && 0 <= states[m].lastPollMs <= steps[m].now
    requires QuietFrom(states, steps, m + 1, n) && Ticking(steps, m + 1, n, steps[m].now, gap)
    requires LastTick(steps, m + 1, n, steps[m].now) >= steps[m].now + MAX_BACKOFF_MS + DEBOUNCE_MS + gap
    ensures exists k :: m < k < n && Served(states[k], steps[k])
                   && steps[k].now < steps[m].now + MAX_BACKOFF_MS + DEBOUNCE_MS + 2 * gap
  {
    var t0 := steps[m].now;
    assert states[m + 1] == Next(states[m], steps[m], limit);
    FailedIsPending(states[m], steps[m], limit, gap);
    assert states[m + 1].polling && states[m + 1].lastPollMs <= t0 < states[m + 1].lastPollMs + POLL_MS;
    PolledInTime(states, steps, limit, m + 1, n, t0, gap);
  }

  // ---- When polling loads ----

  /** When the last poll before step k was, given the last one before the run. */
  function PollBefore(last: int, steps: seq<Step>, k: nat): int
    requires k <= |steps|
  {
    if k == 0 then last
    else
      var p := PollBefore(last, steps, k - 1);
      if steps[k - 1].Tick? && (p == 0 || steps[k - 1].now - p >= POLL_MS) then steps[k - 1].now else p
  }

  /** A tick outside the cool-down, and in the half second in which a poll is old enough but not yet repeated. */
  predicate InWindow(last: int, free: int, steps: seq<Step>, k: nat)
    requires k < |steps|
  {
    steps[k].Tick? && steps[k].now >= free && PollBefore(last, steps, k) != 0
    && DEBOUNCE_MS <= steps[k].now - PollBefore(last, steps, k) < POLL_MS
  }

  /** Polling, with a file that differs and whose mark, if there was a poll, is from that poll. */
  predicate Starved(s: System) {
    s.polling && Differs(s, true)
    && (s.lastPollMs != 0 ==> s.lastPollMs > 0 && s.watch.dirty && s.watch.dirtySinceMs == s.lastPollMs)
  }

  /** Steps that leave the file as it is. */
  predicate LeavesFile(step: Step) {
    !step.Write? && !step.Replace? && (step.Tick? ==> step.now > 0)
  }

  lemma StarvedStep(s: System, step: Step, limit: nat)
    requires Starved(s) && Quiet(s, step) && LeavesFile(step)
    ensures Attempts(s, step) <==>
              step.Tick? && step.now >= s.watch.cooldownUntilMs && s.lastPollMs != 0
              && DEBOUNCE_MS <= step.now - s.lastPollMs < POLL_MS
    ensures !Attempts(s, step) ==>
              var s' := Next(s, step, limit);
              && Starved(s') && s'.watch.cooldownUntilMs == s.watch.cooldownUntilMs && s'.loads == s.loads
              && s'.lastPollMs == if step.Tick? && PollDue(s, step.now) then step.now else s.lastPollMs
  {
    hide Relevant;
  }

  /** A run that polls for a file nobody changes, with readable ticks and no notice of the file. */
  predicate StarvedRun(states: seq<System>, steps: seq<Step>, limit: nat) {
    && Run(states, steps, limit) && Starved(states[0]) && QuietFrom(states, steps, 0, |steps|)
    && forall k :: 0 <= k < |steps| ==> LeavesFile(steps[k])
  }

  lemma {:induction false} StaysStarved(states: seq<System>, steps: seq<Step>, limit: nat, n: nat)
    requires StarvedRun(states, steps, limit) && n <= |steps| && Untried(states, steps, n)
    ensures Starved(states[n]) && states[n].watch.cooldownUntilMs == states[0].watch.cooldownUntilMs
    ensures states[n].lastPollMs == PollBefore(states[0].lastPollMs, steps, n) && states[n].loads == states[0].loads
  {
    if n > 0 {
      StaysStarved(states, steps, limit, n - 1);
      assert states[n - 1 + 1] == Next(states[n - 1], steps[n - 1], limit);
      assert Quiet(states[n - 1], steps[n - 1]) && LeavesFile(steps[n - 1]);
      StarvedStep(states[n - 1], steps[n - 1], limit);
    }
  }

  /** At the first step that could try the load, trying it and being in the window are the same. */
  lemma WindowTries(states: seq<System>, steps: seq<Step>, limit: nat, k: nat)
    requires StarvedRun(states, steps, limit) && k < |steps| && Untried(states, steps, k)
    ensures Attempts(states[k], steps[k])
       <==> InWindow(states[0].lastPollMs, states[0].watch.cooldownUntilMs, steps, k)
  {
    StaysStarved(states, steps, limit, k);
    assert Quiet(states[k], steps[k]) && LeavesFile(steps[k]);
    StarvedStep(states[k], steps[k], limit);
  }

  /** Polling tries a load exactly when some tick falls in the window of a poll. */
  lemma PollingLoadsIff(states: seq<System>, steps: seq<Step>, limit: nat)
    requires StarvedRun(states, steps, limit)
    ensures (exists k :: 0 <= k < |steps| && Attempts(states[k], steps[k]))
       <==> (exists k :: 0 <= k < |steps| && InWindow(states[0].lastPollMs, states[0].watch.cooldownUntilMs, steps, k))
  {
    hide Attempts, InWindow, StarvedRun;
    assert |states| > |steps| by {
      StarvedRunSize(states, steps, limit);
    }
    if Untried(states, steps, |steps|) {
      forall k | 0 <= k < |steps|
        ensures !InWindow(states[0].lastPollMs, states[0].watch.cooldownUntilMs, steps, k)
      {
        WindowTries(states, steps, limit, k);
      }
    } else {
      var k := FirstTried(states, steps, |steps|);
      WindowTries(states, steps, limit, k);
    }
  }

  lemma StarvedRunSize(states: seq<System>, steps: seq<Step>, limit: nat)
    requires StarvedRun(states, steps, limit)
    ensures |states| == |steps| + 1
  {
  }

  /** Every step once the content is loaded keeps it and the loads. */
  lemma {:induction false} LoadsGrow(states: seq<System>, steps: seq<Step>, limit: nat, k: nat, n: nat)
    requires Run(states, steps, limit) && k <= n <= |steps|
    ensures |states[k].loads| <= |states[n].loads|
  {
    if k < n {
      LoadsGrow(states, steps, limit, k, n - 1);
      assert states[n - 1 + 1] == Next(states[n - 1], steps[n - 1], limit);
      hide Poll, Take, Finish, Enqueue, Relevant;
    }
  }

  /** When loads succeed, polling reloads the file exactly when some tick falls in the window. */
  lemma PollingReloads(states: seq<System>, steps: seq<Step>, limit: nat)
    requires StarvedRun(states, steps, limit)
    requires forall k :: 0 <= k < |steps| && steps[k].Tick? ==> steps[k].loadOk
    ensures |states| == |steps| + 1
    ensures states[|steps|].loads != states[0].loads
       <==> (exists k :: 0 <= k < |steps| && InWindow(states[0].lastPollMs, states[0].watch.cooldownUntilMs, steps, k))
  {
    PollingLoadsIff(states, steps, limit);
    if Untried(states, steps, |steps|) {
      StaysStarved(states, steps, limit, |steps|);
    } else {
      var k := FirstTried(states, steps, |steps|);
      StaysStarved(states, steps, limit, k);
      assert states[k + 1] == Next(states[k], steps[k], limit);
      assert |states[k + 1].loads| == |states[k].loads| + 1;
      LoadsGrow(states, steps, limit, k + 1, |steps|);
    }
  }

  /** Ticks at t, t + g, t + 2 g and so on. */
  predicate Periodic(steps: seq<Step>, t: int, g: int) {
    forall k :: 0 <= k < |steps| ==> steps[k].Tick? && steps[k].now == t + k * g
  }

  /** How many ticks after the last poll tick k comes, when every c-th tick polls. */
  function SincePoll(c: nat, k: nat): (r: nat)
    requires c > 0 && k > 0
    ensures 1 <= r <= c && r <= k
    ensures k <= c ==> r == k
  {
    if k == 1 then 1
    else if SincePoll(c, k - 1) == c then 1
    else SincePoll(c, k - 1) + 1
  }

  lemma {:induction false} PeriodicPolls(steps: seq<Step>, t: int, g: nat, c: nat, k: nat)
    requires Periodic(steps, t, g) && t > 0 && c > 0 && 0 < k <= |steps|
    requires (c - 1) * g < POLL_MS <= c * g
    ensures PollBefore(0, steps, k) == t + (k - SincePoll(c, k)) * g
  {
    assert steps[k - 1].Tick? && steps[k - 1].now == t + (k - 1) * g;
    if k == 1 {
      assert PollBefore(0, steps, 0) == 0;
    } else {
      PeriodicPolls(steps, t, g, c, k - 1);
      var r := SincePoll(c, k - 1);
      Products(t, g, k, r);
      if r < c {
        Less(r, c - 1, g);
      }
    }
  }

  lemma Products(t: int, g: nat, k: nat, r: nat)
    requires r < k
    ensures t + (k - 1) * g - (t + (k - 1 - r) * g) == r * g
    ensures t + (k - 1 - r) * g >= t
  {
  }

  lemma Less(r: nat, s: nat, g: nat)
    requires r <= s
    ensures r * g <= s * g
  {
  }

  /** The first multiple of the period that reaches the polling interval. */
  lemma {:induction false} Ceiling(g: nat, c: nat) returns (r: nat)
    requires g > 0 && c > 0 && POLL_MS <= c * g
    ensures 0 < r <= c && (r - 1) * g < POLL_MS <= r * g
  {
    if c == 1 || (c - 1) * g < POLL_MS {
      r := c;
    } else {
      r := Ceiling(g, c - 1);
    }
  }

  /**
   * With ticks one period apart from startup on, polling loads exactly when some multiple of the
   * period lies in the window: never at 700 ms, nor at two seconds and above.
   */
  lemma PeriodicPollingLoadsIff(states: seq<System>, steps: seq<Step>, limit: nat, t: int, g: nat)
    requires StarvedRun(states, steps, limit) && Periodic(steps, t, g) && t > 0 && g > 0
    requires states[0].lastPollMs == 0 && states[0].watch.cooldownUntilMs <= t
    ensures (exists k :: 0 <= k < |steps| && Attempts(states[k], steps[k]))
       <==> (exists j: nat :: 0 < j < |steps| && DEBOUNCE_MS <= j * g < POLL_MS)
  {
    PollingLoadsIff(states, steps, limit);
    hide Attempts, StarvedRun, InWindow, Periodic;
    var free := states[0].watch.cooldownUntilMs;
    var c := Ceiling(g, POLL_MS);
    if k :| 0 <= k < |steps| && InWindow(0, free, steps, k) {
      WindowIsMultiple(steps, t, g, c, k, free);
    }
    if j: nat :| 0 < j < |steps| && DEBOUNCE_MS <= j * g < POLL_MS {
      MultipleIsWindow(steps, t, g, c, j, free);
    }
  }

  lemma WindowIsMultiple(steps: seq<Step>, t: int, g: nat, c: nat, k: nat, free: int)
    requires Periodic(steps, t, g) && t > 0 && c > 0 && (c - 1) * g < POLL_MS <= c * g
    requires k < |steps| && InWindow(0, free, steps, k)
    ensures exists j: nat :: 0 < j < |steps| && DEBOUNCE_MS <= j * g < POLL_MS
  {
    assert k > 0;
    PeriodicPolls(steps, t, g, c, k);
    var r := SincePoll(c, k);
    Products(t, g, k + 1, r);
    assert steps[k].now - PollBefore(0, steps, k) == r * g;
  }

  lemma MultipleIsWindow(steps: seq<Step>, t: int, g: nat, c: nat, j: nat, free: int)
    requires Periodic(steps, t, g) && t > 0 && c > 0 && (c - 1) * g < POLL_MS <= c * g && free <= t
    requires 0 < j < |steps| && DEBOUNCE_MS <= j * g < POLL_MS
    ensures InWindow(0, free, steps, j)
  {
    if j > c {
      Less(c, j, g);
    }
    PeriodicPolls(steps, t, g, c, j);
    Less(0, j, g);
  }
}
