/**
 * Hot reload of one configuration file: inotify events and queue overflow, debounce, cool-down, a
 * content hash that is committed only when a load succeeds, retries that back off, and polling when
 * inotify is unavailable. The hash is taken to be injective, so a content is named by its hash; zero
 * stands for a missing file.
 */
module ConfigReload {

  const DEBOUNCE_MS: int := 1500
  const COOLDOWN_MS: int := 3000
  const MAX_BACKOFF_MS: int := 30000
  const POLL_MS: int := 2000

  datatype Watch = Watch(
    dirty: bool,
    dirtySinceMs: int,
    cooldownUntilMs: int,
    lastHash: nat,
    hashReady: bool,
    attemptHash: nat,
    failures: nat)

  /** prime_config_reload_watch_state. */
  function Prime(file: nat): Watch {
    Watch(false, 0, 0, file, file != 0, 0, 0)
  }

  /** The content last committed. */
  function Committed(w: Watch): nat {
    if w.hashReady then w.lastHash else 0
  }

  function Mark(w: Watch, now: int): Watch {
    w.(dirty := true, dirtySinceMs := now)
  }

  /** Past the cool-down and the debounce time. */
  predicate Due(w: Watch, now: int) {
    w.dirty && w.dirtySinceMs > 0 && now >= w.cooldownUntilMs && now - w.dirtySinceMs >= DEBOUNCE_MS
  }

  /** take_pending_config_reload: whether to try a load now. */
  function Take(w: Watch, file: nat, readable: bool, now: int): (Watch, bool) {
    if !w.dirty then (w, false)
    else if w.dirtySinceMs <= 0 then (w.(dirtySinceMs := now), false)
    else if !Due(w, now) then (w, false)
    else if file == 0 then (w.(attemptHash := 0), true)
    else if !readable then (w, false)
    else if w.hashReady && w.lastHash == file then (w.(dirty := false, dirtySinceMs := 0), false)
    else (w.(attemptHash := file), true)
  }

  function Backoff(failures: nat): int {
    var level := if failures > 5 then 5 else failures;
    var ms := Shift(1000, level);
    if ms > MAX_BACKOFF_MS then MAX_BACKOFF_MS else ms
  }

  function Shift(x: int, k: nat): int
    decreases k
  {
    if k == 0 then x else Shift(2 * x, k - 1)
  }

  /** finish_config_reload. */
  function Finish(w: Watch, ok: bool, now: int): Watch {
    if ok then
      Watch(false, 0, now + COOLDOWN_MS, w.attemptHash, w.attemptHash != 0, w.attemptHash, 0)
    else
      w.(failures := w.failures + 1, dirty := true, dirtySinceMs := 0, cooldownUntilMs := now + Backoff(w.failures + 1))
  }

  // ---- The system around the watch ----

  /** What the kernel queues: an event for this file, for another one, or the note that events were dropped. */
  datatype Notice = Ours | Other | Overflow

  /**
   * writing: somebody has changed the file and not closed it yet. watching: inotify reports changes.
   * loaded: the content the program runs with. loads: when loads succeeded.
   */
  datatype System = System(
    watch: Watch,
    file: nat,
    writing: bool,
    watching: bool,
    queue: seq<Notice>,
    polling: bool,
    lastPollMs: int,
    loaded: nat,
    loads: seq<int>)

  /** The program at startup has loaded the file and primed the watch. */
  function Primed(file: nat): System {
    System(Prime(file), file, false, false, [], false, 0, file, [])
  }

  datatype Step =
    | Write(content: nat)
    | CloseWrite
    | Replace(newContent: nat)
    | Noise
    | AddWatch(fallback: bool)
    | Fallback
    | Handle(count: nat, handleMs: int)
    | Tick(now: int, readable: bool, loadOk: bool)

  /** One more notice; a full queue drops it and ends in an overflow notice. */
  function Enqueue(queue: seq<Notice>, n: Notice, limit: nat): seq<Notice> {
    if |queue| < limit then queue + [n]
    else if queue != [] && queue[|queue| - 1] == Overflow then queue
    else queue + [Overflow]
  }

  predicate Relevant(queue: seq<Notice>) {
    Ours in queue || Overflow in queue
  }

  /** What a poll compares: the content when it can be read, and else whether one was committed. */
  predicate Differs(s: System, readable: bool) {
    if s.file != 0 && readable then !s.watch.hashReady || s.watch.lastHash != s.file else s.watch.hashReady
  }

  predicate PollDue(s: System, now: int) {
    s.polling && (s.lastPollMs == 0 || now - s.lastPollMs >= POLL_MS)
  }

  /** poll_config_reload_fallback_if_needed. */
  function Poll(s: System, now: int, readable: bool): System {
    if !PollDue(s, now) then s
    else s.(lastPollMs := now, watch := if Differs(s, readable) then Mark(s.watch, now) else s.watch)
  }

  /** process_pending_config_reloads for this file; hashing and loading are one step. */
  function Process(s: System, now: int, readable: bool, loadOk: bool): System {
    var (w, attempt) := Take(s.watch, s.file, readable, now);
    if !attempt then s.(watch := w)
    else if loadOk then s.(watch := Finish(w, true, now), loaded := s.file, loads := s.loads + [now])
    else s.(watch := Finish(w, false, now))
  }

  /** How many notices one read of at most count takes from the queue. */
  function ReadCount(s: System, count: nat): (n: nat)
    ensures n <= |s.queue|
  {
    if count < |s.queue| then count else |s.queue|
  }

  /** A tick that tries to load the file. */
  predicate Attempts(s: System, step: Step) {
    step.Tick? && Take(Poll(s, step.now, step.readable).watch, s.file, step.readable, step.now).1
  }

  /** AddWatch covers this file, and Fallback is inotify failing for it; both may happen. */
  function Next(s: System, step: Step, limit: nat): System {
    match step
    case Write(content) => s.(file := content, writing := true)
    case CloseWrite => s.(writing := false, queue := if s.watching then Enqueue(s.queue, Ours, limit) else s.queue)
    case Replace(content) =>
      s.(file := content, queue := if s.watching then Enqueue(s.queue, Ours, limit) else s.queue)
    case Noise => s.(queue := if s.watching then Enqueue(s.queue, Other, limit) else s.queue)
    case AddWatch(fallback) => s.(watching := true, polling := s.polling || fallback)
    case Fallback => s.(polling := true)
    case Handle(count, now) =>
      var n := ReadCount(s, count);
      s.(queue := s.queue[n..], watch := if Relevant(s.queue[..n]) then Mark(s.watch, now) else s.watch)
    case Tick(now, readable, loadOk) => Process(Poll(s, now, readable), now, readable, loadOk)
  }

  predicate Run(states: seq<System>, steps: seq<Step>, limit: nat) {
    |states| == |steps| + 1
    && forall i :: 0 <= i < |steps| ==> states[i + 1] == Next(states[i], steps[i], limit)
  }

  // ---- No lost update ----

  /** Whatever differs from the committed content is marked, announced, or still being written. */
  predicate NoLostUpdate(s: System) {
    s.watching && s.file != Committed(s.watch) ==> s.watch.dirty || s.writing || Relevant(s.queue)
  }

  /** Nothing is missed by adding the watch now: it is there, the file is as committed, or its closing will tell. */
  predicate SafeToWatch(s: System) {
    s.watching || s.file == Committed(s.watch) || s.writing
  }

  /** The program runs with the committed content. */
  predicate LoadedCommitted(s: System) {
    s.loaded == Committed(s.watch)
  }

  lemma EnqueueRelevant(queue: seq<Notice>, n: Notice, limit: nat)
    ensures Relevant(queue) || n == Ours ==> Relevant(Enqueue(queue, n, limit))
  {
    var q := Enqueue(queue, n, limit);
    if |queue| < limit {
      assert n == q[|queue|];
      assert forall x :: x in queue ==> x in q;
    } else if queue != [] && queue[|queue| - 1] == Overflow {
      assert Overflow in queue;
    } else {
      assert Overflow == q[|queue|];
    }
  }

  lemma HandleRelevant(queue: seq<Notice>, n: nat)
    requires n <= |queue| && Relevant(queue)
    ensures Relevant(queue[..n]) || Relevant(queue[n..])
  {
    assert queue == queue[..n] + queue[n..];
  }

  lemma NextKeeps(s: System, step: Step, limit: nat)
    requires NoLostUpdate(s) && LoadedCommitted(s)
    requires step.AddWatch? ==> SafeToWatch(s)
    ensures NoLostUpdate(Next(s, step, limit)) && LoadedCommitted(Next(s, step, limit))
  {
    hide Relevant, Enqueue, Poll, Process;
    match step {
      case CloseWrite => EnqueueRelevant(s.queue, Ours, limit);
      case Replace(_) => EnqueueRelevant(s.queue, Ours, limit);
      case Noise => EnqueueRelevant(s.queue, Other, limit);
      case Handle(count, _) =>
        if Relevant(s.queue) {
          HandleRelevant(s.queue, ReadCount(s, count));
        }
      case Tick(now, readable, loadOk) =>
        PollKeeps(s, now, readable);
        ProcessKeeps(Poll(s, now, readable), now, readable, loadOk);
      case _ =>
    }
  }

  lemma PollKeeps(s: System, now: int, readable: bool)
    requires NoLostUpdate(s) && LoadedCommitted(s)
    ensures NoLostUpdate(Poll(s, now, readable)) && LoadedCommitted(Poll(s, now, readable))
  {
    hide Relevant;
  }

  lemma ProcessKeeps(s: System, now: int, readable: bool, loadOk: bool)
    requires NoLostUpdate(s) && LoadedCommitted(s)
    ensures NoLostUpdate(Process(s, now, readable, loadOk)) && LoadedCommitted(Process(s, now, readable, loadOk))
  {
    hide Relevant;
  }

  /**
   * Over every run from startup in which each watch is added when that is safe: once the watch is
   * there no update is ever lost, and the program always runs with the committed content.
   */
  lemma {:induction false} NothingLost(states: seq<System>, steps: seq<Step>, limit: nat, n: nat)
    requires Run(states, steps, limit) && n <= |steps|
    requires states[0] == Primed(states[0].file)
    requires forall i :: 0 <= i < |steps| && steps[i].AddWatch? ==> SafeToWatch(states[i])
    ensures NoLostUpdate(states[n]) && LoadedCommitted(states[n])
  {
    if n > 0 {
      NothingLost(states, steps, limit, n - 1);
      NextKeeps(states[n - 1], steps[n - 1], limit);
    }
  }

  // ---- The gap before the watch is added ----

  predicate Quiescent(step: Step) {
    step.Handle? || step.Tick? || step.Noise? || step.AddWatch?
  }

  /** What a change in the gap leaves behind: nothing that would lead to a reload. */
  predicate Missed(s: System) {
    s.watching && !s.polling && !s.watch.dirty && !Relevant(s.queue)
  }

  lemma NoiseIrrelevant(queue: seq<Notice>, limit: nat)
    requires !Relevant(queue) && |queue| < limit
    ensures !Relevant(Enqueue(queue, Other, limit))
  {
  }

  /**
   * Once the watch is added, a change made since priming is reloaded only if a later one is noticed:
   * while nothing further happens to the file or the queue overflows, the program keeps what it has.
   */
  lemma {:induction false} GapIsLost(states: seq<System>, steps: seq<Step>, limit: nat, n: nat)
    requires Run(states, steps, limit) && n <= |steps| && Missed(states[0])
    requires forall i :: 0 <= i < |steps| ==>
               Quiescent(steps[i]) && (steps[i].Noise? ==> |states[i].queue| < limit)
               && (steps[i].AddWatch? ==> !steps[i].fallback)
    ensures Missed(states[n]) && states[n].loaded == states[0].loaded && states[n].file == states[0].file
  {
    if n > 0 {
      GapIsLost(states, steps, limit, n - 1);
      var s, step := states[n - 1], steps[n - 1];
      assert states[n - 1 + 1] == Next(s, step, limit);
      match step {
        case Noise => NoiseIrrelevant(s.queue, limit);
        case Handle(count, _) =>
          var k := ReadCount(s, count);
          assert forall x :: x in s.queue[..k] || x in s.queue[k..] ==> x in s.queue;
        case _ =>
      }
    }
  }

  /** Nothing happens to a run that neither watches nor polls, whatever is written. */
  lemma {:induction false} Unwatched(states: seq<System>, steps: seq<Step>, limit: nat, n: nat)
    requires Run(states, steps, limit) && n <= |steps| && states[0] == Primed(states[0].file)
    requires forall i :: 0 <= i < n ==> !steps[i].AddWatch? && !steps[i].Fallback?
    ensures states[n] == Primed(states[0].file).(file := states[n].file, writing := states[n].writing)
  {
    if n > 0 {
      Unwatched(states, steps, limit, n - 1);
      assert states[n - 1 + 1] == Next(states[n - 1], steps[n - 1], limit);
    }
  }

  /**
   * The first watch of a run loses nothing exactly when the file is still what was loaded at startup,
   * or is open for writing, so that its closing will be announced.
   */
  lemma GapIsSafeWhenUnchanged(states: seq<System>, steps: seq<Step>, limit: nat, n: nat)
    requires Run(states, steps, limit) && n < |steps| && states[0] == Primed(states[0].file)
    requires forall i :: 0 <= i < n ==> !steps[i].AddWatch? && !steps[i].Fallback?
    requires steps[n].AddWatch?
    ensures NoLostUpdate(states[n + 1]) <==> states[n].file == states[n].loaded || states[n].writing
  {
    Unwatched(states, steps, limit, n);
    assert states[n + 1] == Next(states[n], steps[n], limit);
  }

  /** A file replaced between priming and adding the watch. */
  lemma StartupGap(before: nat, after: nat, limit: nat)
    requires before != after
    ensures var s := Next(Next(Primed(before), Replace(after), limit), AddWatch(false), limit);
            Missed(s) && s.loaded != s.file
  {
  }

  /** The program at startup when the file was changed after it was read and before it was hashed. */
  function PrimedUnread(read: nat, file: nat): System {
    Primed(file).(loaded := read)
  }

  /** Such a change is committed unread: the file would have to change again to be loaded, polling or not. */
  lemma {:induction false} UnreadForever(states: seq<System>, steps: seq<Step>, limit: nat, n: nat, read: nat)
    requires Run(states, steps, limit) && n <= |steps|
    requires states[0] == PrimedUnread(read, states[0].file) && states[0].file != 0
    requires forall i :: 0 <= i < |steps| && steps[i].Write? ==> steps[i].content == states[i].file
    requires forall i :: 0 <= i < |steps| && steps[i].Replace? ==> steps[i].newContent == states[i].file
    ensures states[n].loaded == read && states[n].loads == [] && states[n].file == states[0].file
    ensures states[n].watch.hashReady && states[n].watch.lastHash == states[0].file
  {
    hide Next;
    if n > 0 {
      UnreadForever(states, steps, limit, n - 1, read);
      assert states[n - 1 + 1] == Next(states[n - 1], steps[n - 1], limit);
      UnreadStep(states[n - 1], steps[n - 1], limit);
    }
  }

  lemma UnreadStep(s: System, step: Step, limit: nat)
    requires s.watch.hashReady && s.watch.lastHash == s.file != 0
    requires step.Write? ==> step.content == s.file
    requires step.Replace? ==> step.newContent == s.file
    ensures var s' := Next(s, step, limit);
            s'.loaded == s.loaded && s'.loads == s.loads && s'.file == s.file
            && s'.watch.hashReady && s'.watch.lastHash == s.file
  {
    hide Relevant, Enqueue, Backoff;
  }

  // ---- No needless load ----

  /** Reading the queue marks the file exactly when it holds an event of the file, or says that some were dropped. */
  lemma MarkedIff(s: System, count: nat, now: int, limit: nat)
    ensures var s' := Next(s, Handle(count, now), limit);
            var n := if count < |s.queue| then count else |s.queue|;
            && s'.queue == s.queue[n..]
            && (s'.watch.dirty <==> s.watch.dirty || exists k :: 0 <= k < n && s.queue[k] != Other)
            && (s'.watch != s.watch ==> s'.watch == s.watch.(dirty := true, dirtySinceMs := now))
  {
    var n := ReadCount(s, count);
    if exists k :: 0 <= k < n && s.queue[k] != Other {
      var k :| 0 <= k < n && s.queue[k] != Other;
      assert s.queue[..n][k] in s.queue[..n];
    }
  }

  /** A file that still has the committed content is never loaded again. */
  lemma UnchangedNotLoaded(s: System, step: Step)
    requires s.file != 0 && s.file == Committed(s.watch)
    ensures !Attempts(s, step)
  {
  }

  // ---- Loads ----

  /** The committed content changes only when a load succeeds; a failed load leaves it and stays dirty. */
  lemma CommitOnlyOnSuccess(s: System, step: Step, limit: nat)
    ensures var s' := Next(s, step, limit);
            Committed(s'.watch) != Committed(s.watch) || s'.loads != s.loads ==>
              step.Tick? && step.loadOk && s'.loads == s.loads + [step.now] && Committed(s'.watch) == s.file
    ensures step.Tick? && Take(Poll(s, step.now, step.readable).watch, s.file, step.readable, step.now).1
            && !step.loadOk ==>
              var s' := Next(s, step, limit);
              s'.watch.dirty && Committed(s'.watch) == Committed(s.watch) && s'.loaded == s.loaded
  {
  }

  /** Successful loads so far are three seconds apart, and so is the end of the cool-down from the last. */
  predicate Spaced(s: System) {
    && (forall i :: 0 < i < |s.loads| ==> s.loads[i] - s.loads[i - 1] >= COOLDOWN_MS)
    && (s.loads != [] ==> s.watch.cooldownUntilMs >= s.loads[|s.loads| - 1] + COOLDOWN_MS)
  }

  /** The delay doubles from 2 s with each failure and is 30 s from the fifth on. */
  lemma BackoffDoubles(failures: nat)
    ensures Backoff(1) == 2000
    ensures 1 <= failures < 4 ==> Backoff(failures + 1) == 2 * Backoff(failures)
    ensures failures >= 5 ==> Backoff(failures) == MAX_BACKOFF_MS
  {
    BackoffRange(failures);
    assert Shift(1000, 1) == 2000;
    assert Shift(1000, 2) == Shift(2000, 1) == 4000;
    assert Shift(1000, 3) == Shift(2000, 2) == Shift(4000, 1) == 8000;
    assert Shift(1000, 4) == Shift(2000, 3) == Shift(4000, 2) == Shift(8000, 1) == 16000;
    assert Shift(1000, 5) == Shift(2000, 4) == Shift(4000, 3) == Shift(8000, 2) == Shift(16000, 1) == 32000;
  }

  lemma BackoffRange(failures: nat)
    ensures failures >= 1 ==> 2000 <= Backoff(failures) <= MAX_BACKOFF_MS
    ensures 1000 <= Backoff(failures) <= MAX_BACKOFF_MS
  {
    assert Shift(1000, 5) == Shift(2000, 4) == Shift(4000, 3) == Shift(8000, 2) == Shift(16000, 1) == 32000;
    assert Shift(1000, 4) == Shift(2000, 3) == Shift(4000, 2) == Shift(8000, 1) == 16000;
    assert Shift(1000, 3) == Shift(2000, 2) == Shift(4000, 1) == 8000;
    assert Shift(1000, 2) == Shift(2000, 1) == 4000;
    assert Shift(1000, 1) == 2000;
  }

  lemma NextSpaced(s: System, step: Step, limit: nat)
    requires Spaced(s)
    ensures Spaced(Next(s, step, limit))
  {
    hide Relevant, Enqueue, Backoff;
    if step.Tick? {
      BackoffRange(s.watch.failures + 1);
    }
  }

  lemma {:induction false} LoadsSpaced(states: seq<System>, steps: seq<Step>, limit: nat, n: nat)
    requires Run(states, steps, limit) && n <= |steps| && states[0].loads == []
    ensures Spaced(states[n])
  {
    if n > 0 {
      LoadsSpaced(states, steps, limit, n - 1);
      NextSpaced(states[n - 1], steps[n - 1], limit);
    }
  }

  // ---- The watch as the program updates it ----

  class ReloadWatch {
    var dirty: bool
    var dirtySinceMs: int
    var cooldownUntilMs: int
    var lastHash: nat
    var hashReady: bool
    var attemptHash: nat
    var failures: nat

    constructor (file: nat)
      ensures State() == Prime(file)
    {
      dirty, dirtySinceMs, cooldownUntilMs, attemptHash, failures := false, 0, 0, 0, 0;
      lastHash, hashReady := file, file != 0;
    }

    function State(): Watch
      reads this
    {
      Watch(dirty, dirtySinceMs, cooldownUntilMs, lastHash, hashReady, attemptHash, failures)
    }

    method MarkPending(now: int)
      modifies this
      ensures State() == Mark(old(State()), now)
    {
      dirty := true;
      dirtySinceMs := now;
    }

    method TakePending(file: nat, readable: bool, now: int) returns (attempt: bool)
      modifies this
      ensures (State(), attempt) == Take(old(State()), file, readable, now)
    {
      if !dirty {
        return false;
      }
      if dirtySinceMs <= 0 {
        dirtySinceMs := now;
        return false;
      }
      if now < cooldownUntilMs {
        return false;
      }
      if now - dirtySinceMs < DEBOUNCE_MS {
        return false;
      }
      if file == 0 {
        attemptHash := 0;
        return true;
      }
      if !readable {
        return false;
      }
      if hashReady && lastHash == file {
        dirty := false;
        dirtySinceMs := 0;
        return false;
      }
      attemptHash := file;
      return true;
    }

    method FinishReload(ok: bool, now: int)
      modifies this
      ensures State() == Finish(old(State()), ok, now)
    {
      if ok {
        dirty := false;
        dirtySinceMs := 0;
        lastHash := attemptHash;
        hashReady := attemptHash != 0;
        failures := 0;
        cooldownUntilMs := now + COOLDOWN_MS;
        return;
      }
      failures := failures + 1;
      var level := if failures > 5 then 5 else failures;
      var backoff := Shift(1000, level);
      if backoff > MAX_BACKOFF_MS {
        backoff := MAX_BACKOFF_MS;
      }
      dirty := true;
      dirtySinceMs := 0;
      cooldownUntilMs := now + backoff;
    }

    /** The part of handle_inotify_events that concerns this file, for the notices of one read. */
    method HandleNotices(notices: seq<Notice>, now: int)
      modifies this
      ensures State() == if Relevant(notices) then Mark(old(State()), now) else old(State())
    {
      var i := 0;
      while i < |notices|
        invariant 0 <= i <= |notices|
        invariant State() == if Relevant(notices[..i]) then Mark(old(State()), now) else old(State())
      {
        assert notices[..i + 1] == notices[..i] + [notices[i]];
        if notices[i] != Other {
          MarkPending(now);
        }
        i := i + 1;
      }
      assert notices[..i] == notices;
    }
  }
}
