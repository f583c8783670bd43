/**
 * The hand-off of frame times from the queueBuffer signal handler to the FAS engine. Signals fill a
 * bounded queue per surface; the consumer picks a primary surface and feeds what is new on it to the
 * engine. Both run under one mutex, so every handler is one step.
 */
module FrameHandoff {
  import opened Wrappers

  const QUEUE_LIMIT: nat := 240
  const TRACKED_SURFACES: nat := 24
  const STALE_SURFACE_NS: nat := 5_000_000_000
  const PRIMARY_FRESH_MS: nat := 1000
  const PRIMARY_MIN_FRAMES: nat := 12
  const SAMPLE_FRESH_MS: nat := 2000
  const TWO64: nat := 0x1_0000_0000_0000_0000

  /** A frame time. The serial numbers the accepted frames of the whole run; the program has no such field. */
  datatype Frame = Frame(ms: real, serial: nat)

  /**
   * One surface. The program keeps only frames; history holds every frame the surface has accepted
   * and birth says how many frames had been accepted anywhere when the surface was first seen.
   */
  datatype Surface = Surface(
    key: nat,
    lastKtime: nat,
    lastSeenKtime: nat,
    lastWallMs: int,
    accepted: nat,
    interval: real,
    frames: seq<Frame>,
    history: seq<Frame>,
    birth: nat)

  /** The part of the state that signals and syncs share, and the log of all accepted frames. */
  datatype Table = Table(surfaces: seq<Surface>, primaryKey: nat, pid: int, package: string, log: seq<Frame>)

  /** Where the consumer is, and what it has given to the engine. */
  datatype Consumer = Consumer(seen: nat, key: nat, engine: seq<Frame>)

  // ---- The producer ----

  function Find(surfaces: seq<Surface>, key: nat): (r: Option<nat>)
    ensures r.Some? ==> r.value < |surfaces| && surfaces[r.value].key == key
    ensures r.None? ==> forall s :: s in surfaces ==> s.key != key
  {
    if surfaces == [] then None
    else if surfaces[0].key == key then Some(0)
    else
      match Find(surfaces[1..], key)
      case None => None
      case Some(i) => Some(i + 1)
  }

  function NewSurface(key: nat, birth: nat): Surface {
    Surface(key, 0, 0, 0, 0, 0.0, [], [], birth)
  }

  /** The interval between consecutive submissions, smoothed; a gap above a second restarts it. */
  function Smoothed(interval: real, ns: nat): real {
    if ns > 1_000_000_000 then 0.0
    else
      var deltaMs := ns as real / 1_000_000.0;
      if interval > 0.0 then interval * 0.7 + deltaMs * 0.3 else deltaMs
  }

  function Acceptable(ns: nat): bool {
    1_000_000 <= ns <= 200_000_000
  }

  /** The queue after one more frame: at its limit it first drops its oldest. */
  function Enqueue(frames: seq<Frame>, f: Frame): seq<Frame> {
    (if |frames| >= QUEUE_LIMIT then frames[1..] else frames) + [f]
  }

  /** What one submission at ktime does to its surface. */
  function Submit(s: Surface, ktime: nat, nowMs: int, serial: nat): Surface {
    var stamped :=
      if s.lastKtime > 0 && ktime > s.lastKtime then
        var ns := ktime - s.lastKtime;
        var paced := s.(interval := Smoothed(s.interval, ns));
        if Acceptable(ns) then
          var f := Frame(ns as real / 1_000_000.0, serial);
          paced.(frames := Enqueue(s.frames, f), lastWallMs := nowMs, accepted := s.accepted + 1,
                 history := s.history + [f])
        else paced
      else s;
    stamped.(lastKtime := ktime, lastSeenKtime := ktime)
  }

  function SubmitLog(log: seq<Frame>, s: Surface, ktime: nat): seq<Frame> {
    if s.lastKtime > 0 && ktime > s.lastKtime && Acceptable(ktime - s.lastKtime) then
      log + [Frame((ktime - s.lastKtime) as real / 1_000_000.0, |log|)]
    else log
  }

  /** The surface table with one for key in it, and where that is. */
  function FindOrCreate(surfaces: seq<Surface>, key: nat, birth: nat): (r: (seq<Surface>, nat))
    ensures r.1 < |r.0| && r.0[r.1].key == key
  {
    match Find(surfaces, key)
    case Some(i) => (surfaces, i)
    case None => (surfaces + [NewSurface(key, birth)], |surfaces|)
  }

  /** Unsigned 64-bit subtraction, so a surface seen after latest counts as stale. */
  predicate Stale(s: Surface, latest: nat) {
    s.lastSeenKtime == 0 || (latest - s.lastSeenKtime) % TWO64 > STALE_SURFACE_NS
  }

  function DropStale(surfaces: seq<Surface>, latest: nat): seq<Surface> {
    if surfaces == [] then []
    else
      var n := |surfaces| - 1;
      DropStale(surfaces[..n], latest) + (if Stale(surfaces[n], latest) then [] else [surfaces[n]])
  }

  predicate NewestFirst(surfaces: seq<Surface>) {
    forall i, j :: 0 <= i < j < |surfaces| ==> surfaces[i].lastSeenKtime >= surfaces[j].lastSeenKtime
  }

  /** What pruning may leave: sorting does not say which of equally recent surfaces come first. */
  ghost predicate Pruned(surfaces: seq<Surface>, latest: nat, after: seq<Surface>) {
    if |surfaces| <= TRACKED_SURFACES || latest == 0 then after == surfaces
    else
      var kept := DropStale(surfaces, latest);
      if |kept| <= TRACKED_SURFACES then after == kept
      else
        exists sorted: seq<Surface> ::
          multiset(sorted) == multiset(kept) && |sorted| == |kept| && NewestFirst(sorted)
          && after == sorted[..TRACKED_SURFACES]
  }

  /** handle_queuebuffer_frame_signal. */
  ghost predicate Signalled(t: Table, tgid: int, key: nat, ktime: nat, nowMs: int, t': Table) {
    if t.pid <= 0 || tgid != t.pid then t' == t
    else
      var (surfaces, i) := FindOrCreate(t.surfaces, key, |t.log|);
      t'.log == SubmitLog(t.log, surfaces[i], ktime)
      && Pruned(surfaces[i := Submit(surfaces[i], ktime, nowMs, |t.log|)], ktime, t'.surfaces)
      && t' == t.(surfaces := t'.surfaces, log := t'.log)
  }

  // ---- The choice of the primary surface ----

  predicate Live(s: Surface, nowMs: int) {
    s.accepted >= PRIMARY_MIN_FRAMES && s.frames != [] && s.lastWallMs > 0 && nowMs - s.lastWallMs <= PRIMARY_FRESH_MS
  }

  predicate NotFarBehind(s: Surface, t: Surface) {
    s.accepted + s.accepted / 4 >= t.accepted
  }

  predicate Beats(s: Surface, best: Surface) {
    s.accepted > best.accepted
    || (NotFarBehind(s, best) && s.interval > 0.0 && best.interval > 0.0 && s.interval < best.interval)
  }

  /** The loop of select_primary over the first n surfaces. */
  function Best(surfaces: seq<Surface>, n: nat, nowMs: int): (r: Option<nat>)
    requires n <= |surfaces|
    ensures r.Some? ==> r.value < n && Live(surfaces[r.value], nowMs)
    ensures r.None? <==> forall i :: 0 <= i < n ==> !Live(surfaces[i], nowMs)
  {
    if n == 0 then None
    else
      var best := Best(surfaces, n - 1, nowMs);
      if Live(surfaces[n - 1], nowMs) && (best.None? || Beats(surfaces[n - 1], surfaces[best.value])) then Some(n - 1)
      else best
  }

  /** select_primary_queuebuffer_surface: the surface chosen and the new sticky key. */
  function Select(surfaces: seq<Surface>, primaryKey: nat, nowMs: int): (r: (Option<nat>, nat))
    ensures r.0.Some? ==> r.0.value < |surfaces| && Live(surfaces[r.0.value], nowMs)
  {
    match Best(surfaces, |surfaces|, nowMs)
    case None => (None, 0)
    case Some(best) =>
      match Find(surfaces, primaryKey)
      case Some(sticky) =>
        if sticky != best && Live(surfaces[sticky], nowMs) && NotFarBehind(surfaces[sticky], surfaces[best]) then
          (Some(sticky), primaryKey)
        else (Some(best), surfaces[best].key)
      case None => (Some(best), surfaces[best].key)
  }

  // ---- The consumer ----

  /** The cursor moved into the part of the surface's count that the queue still covers. */
  function Clamp(x: nat, lo: nat, hi: nat): (r: nat)
    requires lo <= hi
    ensures lo <= r <= hi
  {
    if x < lo then lo else if x > hi then hi else x
  }

  /** What sync_fas_engine_queuebuffer_samples does with the primary surface. */
  function Consume(c: Consumer, s: Surface): Consumer {
    if s.key != c.key then c.(key := s.key, seen := s.accepted)
    else if s.accepted == 0 || s.frames == [] then c
    else
      var first := if s.accepted > |s.frames| then s.accepted - |s.frames| else 0;
      var from := Clamp(c.seen, first, s.accepted);
      c.(seen := s.accepted, engine := c.engine + s.frames[from - first..s.accepted - first])
  }

  /** A sync for package; the clock reads selectMs while choosing and nowMs afterwards. */
  function Synced(t: Table, c: Consumer, package: string, selectMs: int, nowMs: int): (Table, Consumer) {
    if package == "" || package != t.package then (t, c)
    else
      var (chosen, key) := Select(t.surfaces, t.primaryKey, selectMs);
      var t' := t.(primaryKey := key);
      match chosen
      case None => (t', c)
      case Some(i) =>
        var s := t.surfaces[i];
        if s.lastWallMs <= 0 || nowMs - s.lastWallMs > SAMPLE_FRESH_MS then (t', c) else (t', Consume(c, s))
  }

  // ---- Runs ----

  datatype Event =
    | Signal(tgid: int, key: nat, ktime: nat, nowMs: int)
    | Sync(package: string, selectMs: int, syncMs: int)
    | Reset(pid: int, newPackage: string)
    | Pause

  datatype System = System(table: Table, consumer: Consumer)

  function Started(): System {
    System(Table([], 0, -1, "", []), Consumer(0, 0, []))
  }

  /** Pause stands for both places that clear the cursor: a paused scheduler and a change of app. */
  ghost predicate Next(s: System, e: Event, s': System) {
    match e
    case Signal(tgid, key, ktime, nowMs) =>
      Signalled(s.table, tgid, key, ktime, nowMs, s'.table) && s'.consumer == s.consumer
    case Sync(package, selectMs, syncMs) =>
      (s'.table, s'.consumer) == Synced(s.table, s.consumer, package, selectMs, syncMs)
    case Reset(pid, package) =>
      s' == s.(table := Table([], 0, pid, package, s.table.log))
    case Pause =>
      s' == s.(consumer := s.consumer.(seen := 0, key := 0))
  }

  ghost predicate Run(states: seq<System>, events: seq<Event>) {
    |states| == |events| + 1
    && forall i :: 0 <= i < |events| ==> Next(states[i], events[i], states[i + 1])
  }

  // ---- Invariants ----

  predicate Increasing(frames: seq<Frame>) {
    forall i, j :: 0 <= i < j < |frames| ==> frames[i].serial < frames[j].serial
  }

  /** Every frame is the one the log holds under its serial. */
  predicate Logged(frames: seq<Frame>, log: seq<Frame>) {
    forall f :: f in frames ==> f.serial < |log| && log[f.serial] == f
  }

  function Lost(n: nat): (r: nat)
    ensures r <= n
  {
    if n > QUEUE_LIMIT then n - QUEUE_LIMIT else 0
  }

  /** The queue holds the newest frames of the history, up to its limit. */
  predicate SurfaceOk(s: Surface, log: seq<Frame>) {
    && s.accepted == |s.history|
    && s.frames == s.history[Lost(|s.history|)..]
    && Increasing(s.history)
    && Logged(s.history, log)
    && s.birth <= |log|
    && (forall f :: f in s.history ==> s.birth <= f.serial)
  }

  /** No two surfaces of the table share a key. */
  predicate Unique(surfaces: multiset<Surface>) {
    && (forall s :: s in surfaces ==> surfaces[s] == 1)
    && (forall s, t :: s in surfaces && t in surfaces && s.key == t.key ==> s == t)
  }

  predicate TableOk(t: Table) {
    Unique(multiset(t.surfaces)) && (forall s :: s in t.surfaces ==> SurfaceOk(s, t.log) && s.key != 0)
  }

  /** What the consumer has still to push from s comes after all it has pushed. */
  predicate Ahead(c: Consumer, s: Surface) {
    forall i, f :: c.seen <= i < |s.history| && f in c.engine ==> f.serial < s.history[i].serial
  }

  predicate Inv(s: System) {
    && TableOk(s.table)
    && (forall i :: 0 <= i < |s.table.log| ==> s.table.log[i].serial == i)
    && Increasing(s.consumer.engine)
    && Logged(s.consumer.engine, s.table.log)
    && (forall t :: t in s.table.surfaces && t.key == s.consumer.key ==> Ahead(s.consumer, t))
  }

  // ---- One surface ----

  lemma NewestWith(history: seq<Frame>, f: Frame)
    ensures Enqueue(history[Lost(|history|)..], f) == (history + [f])[Lost(|history| + 1)..]
  {
    var cut := Lost(|history|);
    if |history[cut..]| >= QUEUE_LIMIT {
      assert history[cut..][1..] == history[cut + 1..];
    }
  }

  lemma IncreasingWith(history: seq<Frame>, f: Frame, log: seq<Frame>)
    requires Increasing(history) && Logged(history, log) && f.serial == |log|
    ensures Increasing(history + [f]) && Logged(history + [f], log + [f])
  {
    forall k | 0 <= k < |history| ensures history[k].serial < f.serial {
      assert history[k] in history;
    }
  }

  /** One more accepted frame, with a new serial. */
  lemma AcceptedKeeps(s: Surface, f: Frame, s': Surface, log: seq<Frame>)
    requires SurfaceOk(s, log) && f.serial == |log|
    requires s'.history == s.history + [f] && s'.frames == Enqueue(s.frames, f)
    requires s'.accepted == s.accepted + 1 && s'.birth == s.birth
    ensures SurfaceOk(s', log + [f])
  {
    hide Increasing, Logged, Enqueue, Lost;
    NewestWith(s.history, f);
    IncreasingWith(s.history, f, log);
  }

  lemma SubmitKeepsSurface(s: Surface, ktime: nat, nowMs: int, log: seq<Frame>)
    requires SurfaceOk(s, log) && forall i :: 0 <= i < |log| ==> log[i].serial == i
    ensures SurfaceOk(Submit(s, ktime, nowMs, |log|), SubmitLog(log, s, ktime))
  {
    hide Smoothed, Unique, Increasing, Logged;
    var s' := Submit(s, ktime, nowMs, |log|);
    if s'.history != s.history {
      AcceptedKeeps(s, s'.history[|s.history|], s', log);
    }
  }

  lemma LogGrows(s: Surface, log: seq<Frame>, more: seq<Frame>)
    requires SurfaceOk(s, log) && log <= more
    ensures SurfaceOk(s, more)
  {
  }

  // ---- Tables ----

  lemma UniqueSubset(big: multiset<Surface>, small: multiset<Surface>)
    requires Unique(big) && small <= big
    ensures Unique(small)
  {
    forall s | s in small ensures small[s] == 1 {
      assert s in big;
    }
  }

  lemma UniqueReplace(surfaces: seq<Surface>, i: nat, s: Surface)
    requires Unique(multiset(surfaces)) && i < |surfaces| && s.key == surfaces[i].key
    ensures Unique(multiset(surfaces[i := s]))
  {
    var old_, new_ := multiset(surfaces), multiset(surfaces[i := s]);
    assert new_ == old_ - multiset{surfaces[i]} + multiset{s};
    assert surfaces[i] in old_;
    if s in old_ {
      assert s == surfaces[i];
    }
  }

  lemma UniqueAppend(surfaces: seq<Surface>, s: Surface)
    requires Unique(multiset(surfaces)) && forall t :: t in surfaces ==> t.key != s.key
    ensures Unique(multiset(surfaces + [s]))
  {
    assert multiset(surfaces + [s]) == multiset(surfaces) + multiset{s};
    assert s !in multiset(surfaces);
  }

  lemma {:induction false} DropStaleKeeps(surfaces: seq<Surface>, latest: nat)
    ensures multiset(DropStale(surfaces, latest)) <= multiset(surfaces)
  {
    if surfaces != [] {
      var n := |surfaces| - 1;
      DropStaleKeeps(surfaces[..n], latest);
      assert surfaces == surfaces[..n] + [surfaces[n]];
    }
  }

  lemma PrefixKeeps(s: seq<Surface>, n: nat)
    requires n <= |s|
    ensures multiset(s[..n]) <= multiset(s)
  {
    assert s == s[..n] + s[n..];
  }

  /** Pruning keeps some of the surfaces and changes none. */
  lemma PrunedKeeps(surfaces: seq<Surface>, latest: nat, after: seq<Surface>)
    requires Pruned(surfaces, latest, after)
    ensures multiset(after) <= multiset(surfaces)
  {
    if |surfaces| > TRACKED_SURFACES && latest != 0 {
      var kept := DropStale(surfaces, latest);
      DropStaleKeeps(surfaces, latest);
      if |kept| > TRACKED_SURFACES {
        var sorted: seq<Surface> :|
          multiset(sorted) == multiset(kept) && |sorted| == |kept| && NewestFirst(sorted)
          && after == sorted[..TRACKED_SURFACES];
        PrefixKeeps(sorted, TRACKED_SURFACES);
      }
    }
  }

  lemma SubsetIn(small: seq<Surface>, big: seq<Surface>)
    requires multiset(small) <= multiset(big)
    ensures forall s :: s in small ==> s in big
  {
    forall s | s in small ensures s in big {
      assert s in multiset(small);
    }
  }

  lemma FindOrCreateKeeps(surfaces: seq<Surface>, key: nat, log: seq<Frame>)
    requires Unique(multiset(surfaces)) && key != 0
    requires forall s :: s in surfaces ==> SurfaceOk(s, log) && s.key != 0
    ensures var r := FindOrCreate(surfaces, key, |log|).0;
            Unique(multiset(r)) && forall s :: s in r ==> SurfaceOk(s, log) && s.key != 0
  {
    if Find(surfaces, key).None? {
      UniqueAppend(surfaces, NewSurface(key, |log|));
    }
  }

  // ---- The invariant ----

  /** The table just before pruning. */
  function Submitted(t: Table, key: nat, ktime: nat, nowMs: int): seq<Surface> {
    var (surfaces, i) := FindOrCreate(t.surfaces, key, |t.log|);
    surfaces[i := Submit(surfaces[i], ktime, nowMs, |t.log|)]
  }

  lemma SubmittedOk(t: Table, key: nat, ktime: nat, nowMs: int)
    requires TableOk(t) && key != 0 && forall i :: 0 <= i < |t.log| ==> t.log[i].serial == i
    ensures var (surfaces, i) := FindOrCreate(t.surfaces, key, |t.log|);
            TableOk(t.(surfaces := Submitted(t, key, ktime, nowMs), log := SubmitLog(t.log, surfaces[i], ktime)))
  {
    var (surfaces, i) := FindOrCreate(t.surfaces, key, |t.log|);
    var s' := Submit(surfaces[i], ktime, nowMs, |t.log|);
    var log' := SubmitLog(t.log, surfaces[i], ktime);
    FindOrCreateKeeps(t.surfaces, key, t.log);
    UniqueReplace(surfaces, i, s');
    SubmitKeepsSurface(surfaces[i], ktime, nowMs, t.log);
    forall s | s in surfaces[i := s'] ensures SurfaceOk(s, log') && s.key != 0 {
      if s != s' {
        assert s in surfaces;
        LogGrows(s, t.log, log');
      }
    }
  }

  /** The surface a submission went to; every other one is as it was. */
  lemma SubmittedFrom(t: Table, key: nat, ktime: nat, nowMs: int, s': Surface)
    requires s' in Submitted(t, key, ktime, nowMs)
    ensures s' in t.surfaces
            || exists s :: (s in t.surfaces || s == NewSurface(key, |t.log|))
                           && s.key == s'.key && s' == Submit(s, ktime, nowMs, |t.log|)
  {
    var (surfaces, i) := FindOrCreate(t.surfaces, key, |t.log|);
    assert surfaces[i] in t.surfaces || surfaces[i] == NewSurface(key, |t.log|);
    if s' !in t.surfaces {
      assert s' in surfaces[i := Submit(surfaces[i], ktime, nowMs, |t.log|)];
      var j :| 0 <= j < |surfaces| && s' == surfaces[i := Submit(surfaces[i], ktime, nowMs, |t.log|)][j];
    }
  }

  lemma SignalKeeps(s: System, tgid: int, key: nat, ktime: nat, nowMs: int, s': System)
    requires Inv(s) && key != 0 && Next(s, Signal(tgid, key, ktime, nowMs), s')
    ensures Inv(s')
  {
    hide Submit, SubmitLog, SurfaceOk, Unique, FindOrCreate, Pruned;
    var t, t', c := s.table, s'.table, s.consumer;
    if t.pid > 0 && tgid == t.pid {
      SubmittedOk(t, key, ktime, nowMs);
      SignalledParts(t, key, ktime, nowMs, t');
      var submitted := Submitted(t, key, ktime, nowMs);
      PrunedKeeps(submitted, ktime, t'.surfaces);
      SubsetIn(t'.surfaces, submitted);
      UniqueSubset(multiset(submitted), multiset(t'.surfaces));
      forall x | x in t'.surfaces && x.key == c.key ensures Ahead(c, x) {
        SubmittedFrom(t, key, ktime, nowMs, x);
        if x !in t.surfaces {
          var x0 :| (x0 in t.surfaces || x0 == NewSurface(key, |t.log|)) && x0.key == x.key
            && x == Submit(x0, ktime, nowMs, |t.log|);
          SubmitAhead(c, x0, ktime, nowMs, t.log);
        }
      }
    }
  }

  lemma SignalledParts(t: Table, key: nat, ktime: nat, nowMs: int, t': Table)
    requires t.pid > 0 && Signalled(t, t.pid, key, ktime, nowMs, t')
    ensures Pruned(Submitted(t, key, ktime, nowMs), ktime, t'.surfaces)
    ensures var (surfaces, i) := FindOrCreate(t.surfaces, key, |t.log|);
            t' == t.(surfaces := t'.surfaces, log := SubmitLog(t.log, surfaces[i], ktime))
            && t.log <= t'.log && forall j :: |t.log| <= j < |t'.log| ==> t'.log[j].serial == j
  {
  }

  lemma SubmitAhead(c: Consumer, s: Surface, ktime: nat, nowMs: int, log: seq<Frame>)
    requires Logged(c.engine, log) && Ahead(c, s)
    ensures Ahead(c, Submit(s, ktime, nowMs, |log|))
  {
    var s' := Submit(s, ktime, nowMs, |log|);
    forall i, f | c.seen <= i < |s'.history| && f in c.engine ensures f.serial < s'.history[i].serial {
      assert i < |s.history| ==> s'.history[i] == s.history[i];
    }
  }

  /** Where pushing starts, in a history of n frames, when seen of them were pushed before. */
  function From(seen: nat, n: nat): (r: nat)
    ensures r <= n
  {
    Clamp(seen, Lost(n), n)
  }

  /** What Consume pushes from the surface it has been following: all that is new and still queued. */
  lemma ConsumeMeaning(c: Consumer, s: Surface, log: seq<Frame>)
    requires SurfaceOk(s, log) && s.key == c.key
    ensures var c' := Consume(c, s);
            c'.engine == c.engine + s.history[From(c.seen, |s.history|)..] && c'.key == c.key
            && (|s.history| > 0 ==> c'.seen == |s.history|)
  {
    hide SurfaceOk, Clamp, Lost;
    SurfaceCounts(s, log);
    var cut, from := Lost(|s.history|), From(c.seen, |s.history|);
    DropTwice(s.history, cut, from);
    if |s.history| == 0 {
      assert c.engine + s.history[from..] == c.engine;
    } else {
      assert s.frames[from - cut..s.accepted - cut] == s.frames[from - cut..];
    }
  }

  lemma SurfaceCounts(s: Surface, log: seq<Frame>)
    requires SurfaceOk(s, log)
    ensures s.accepted == |s.history| && s.frames == s.history[Lost(|s.history|)..]
    ensures |s.frames| == s.accepted - Lost(|s.history|) && (|s.frames| == 0 <==> |s.history| == 0)
  {
  }

  lemma DropTwice(s: seq<Frame>, i: nat, j: nat)
    requires i <= j <= |s|
    ensures s[i..][j - i..] == s[j..]
  {
  }

  lemma ConsumeKeeps(c: Consumer, s: Surface, log: seq<Frame>)
    requires SurfaceOk(s, log) && Increasing(c.engine) && Logged(c.engine, log)
    requires s.key == c.key ==> Ahead(c, s)
    ensures var c' := Consume(c, s);
            Increasing(c'.engine) && Logged(c'.engine, log) && Ahead(c', s) && c'.key == s.key
  {
    hide Logged, Increasing;
    if s.key == c.key {
      ConsumeMeaning(c, s, log);
      assert Increasing(s.history) && Logged(s.history, log);
      var from := From(c.seen, |s.history|);
      AppendIncreasing(c.engine, s.history, from);
      AppendLogged(c.engine, s.history, from, log);
    }
  }

  lemma AppendIncreasing(done: seq<Frame>, history: seq<Frame>, from: nat)
    requires Increasing(done) && Increasing(history) && from <= |history|
    requires forall i, f :: from <= i < |history| && f in done ==> f.serial < history[i].serial
    ensures Increasing(done + history[from..])
  {
    var all := done + history[from..];
    forall i, j | 0 <= i < j < |all| ensures all[i].serial < all[j].serial {
      if i < |done| <= j {
        assert done[i] in done && all[j] == history[from + (j - |done|)];
      }
    }
  }

  lemma AppendLogged(done: seq<Frame>, history: seq<Frame>, from: nat, log: seq<Frame>)
    requires Logged(done, log) && Logged(history, log) && from <= |history|
    ensures Logged(done + history[from..], log)
  {
    forall f | f in done + history[from..] ensures f.serial < |log| && log[f.serial] == f {
      if f !in done {
        assert f in history[from..];
        assert f in history;
      }
    }
  }

  lemma SyncKeeps(s: System, package: string, selectMs: int, syncMs: int, s': System)
    requires Inv(s) && Next(s, Sync(package, selectMs, syncMs), s')
    ensures Inv(s')
  {
    var t, c, c' := s.table, s.consumer, s'.consumer;
    if package != "" && package == t.package {
      var chosen := Select(t.surfaces, t.primaryKey, selectMs).0;
      if chosen.Some? {
        var x := t.surfaces[chosen.value];
        ConsumeKeeps(c, x, t.log);
        if c' == Consume(c, x) {
          forall y | y in t.surfaces && y.key == c'.key ensures Ahead(c', y) {
            assert x in multiset(t.surfaces) && y in multiset(t.surfaces);
          }
        }
      }
    }
  }

  predicate Keyed(e: Event) {
    e.Signal? ==> e.key != 0
  }

  lemma NextKeeps(s: System, e: Event, s': System)
    requires Inv(s) && Keyed(e) && Next(s, e, s')
    ensures Inv(s') && s.table.log <= s'.table.log && s.consumer.engine <= s'.consumer.engine
  {
    match e {
      case Signal(tgid, key, ktime, nowMs) => SignalKeeps(s, tgid, key, ktime, nowMs, s');
      case Sync(package, selectMs, syncMs) => SyncKeeps(s, package, selectMs, syncMs, s');
      case Reset(_, _) =>
      case Pause =>
        assert s'.consumer.key == 0;
    }
  }

  lemma {:induction false} RunKeeps(states: seq<System>, events: seq<Event>, n: nat)
    requires Run(states, events) && Inv(states[0]) && forall e :: e in events ==> Keyed(e)
    requires n <= |events|
    ensures Inv(states[n])
  {
    if n > 0 {
      RunKeeps(states, events, n - 1);
      assert events[n - 1] in events;
      NextKeeps(states[n - 1], events[n - 1], states[n]);
    }
  }

  /**
   * Over every run in any interleaving, the frames given to the engine are accepted ones, each at
   * most once and in the order they were accepted.
   */
  lemma AtMostOnceInOrder(states: seq<System>, events: seq<Event>)
    requires Run(states, events) && states[0] == Started() && forall e :: e in events ==> Keyed(e)
    ensures var last := states[|events|];
            Increasing(last.consumer.engine) && Logged(last.consumer.engine, last.table.log)
  {
    RunKeeps(states, events, |events|);
  }

  // ---- What is lost between two syncs ----

  /** From a surface of that key and birth, whose history was h, only longer histories follow. */
  predicate Follows(t: Table, key: nat, birth: nat, h: seq<Frame>) {
    (h != [] ==> birth < |t.log|)
    && forall s :: s in t.surfaces && s.key == key && s.birth == birth ==> h <= s.history
  }

  lemma SignalFollows(s: System, tgid: int, k: nat, ktime: nat, nowMs: int, s': System, key: nat, birth: nat,
                      h: seq<Frame>)
    requires Inv(s) && k != 0 && Next(s, Signal(tgid, k, ktime, nowMs), s') && Follows(s.table, key, birth, h)
    ensures Follows(s'.table, key, birth, h)
  {
    var t, t' := s.table, s'.table;
    if t.pid > 0 && tgid == t.pid {
      var submitted := Submitted(t, k, ktime, nowMs);
      PrunedKeeps(submitted, ktime, t'.surfaces);
      SubsetIn(t'.surfaces, submitted);
      forall x | x in t'.surfaces && x.key == key && x.birth == birth ensures h <= x.history {
        SubmittedFrom(t, k, ktime, nowMs, x);
      }
    }
  }

  /** A signal of a real surface, or a sync that gives the engine nothing and leaves the cursor where it is. */
  predicate Idle(s: System, e: Event, s': System) {
    (e.Signal? && e.key != 0) || (e.Sync? && s'.consumer == s.consumer)
  }

  /** A sync for another package, or one that finds no surface to follow, is such a sync. */
  lemma IdleSync(s: System, e: Event, s': System)
    requires e.Sync? && Next(s, e, s')
    requires e.package == "" || e.package != s.table.package
             || Select(s.table.surfaces, s.table.primaryKey, e.selectMs).0.None?
    ensures Idle(s, e, s')
  {
    hide Select;
  }

  lemma SyncFollows(s: System, e: Event, s': System, key: nat, birth: nat, h: seq<Frame>)
    requires e.Sync? && Next(s, e, s') && Follows(s.table, key, birth, h)
    ensures Follows(s'.table, key, birth, h)
  {
    hide Select, Consume;
  }

  lemma {:induction false} SignalsFollow(states: seq<System>, events: seq<Event>, n: nat, key: nat, birth: nat,
                                         h: seq<Frame>)
    requires Run(states, events) && Inv(states[0]) && n <= |events|
    requires forall i :: 0 <= i < n ==> Idle(states[i], events[i], states[i + 1])
    requires Follows(states[0].table, key, birth, h)
    ensures Inv(states[n]) && states[n].consumer == states[0].consumer && Follows(states[n].table, key, birth, h)
  {
    if n > 0 {
      hide Inv, Follows, Signalled, Synced;
      SignalsFollow(states, events, n - 1, key, birth, h);
      var s, e, s' := states[n - 1], events[n - 1], states[n];
      assert states[n - 1 + 1] == s' && Idle(s, e, s') && Next(s, e, s');
      NextKeeps(s, e, s');
      if e.Signal? {
        SignalFollows(s, e.tgid, e.key, e.ktime, e.nowMs, s', key, birth, h);
      } else {
        SyncFollows(s, e, s', key, birth, h);
      }
    }
  }

  lemma ConsumeAfter(c: Consumer, h: seq<Frame>, y: Surface, log: seq<Frame>)
    requires SurfaceOk(y, log) && y.key == c.key && h <= y.history && c.seen == |h|
    ensures var accepted := y.history[|h|..];
            Consume(c, y).engine == c.engine + accepted[Lost(|accepted|)..]
  {
    ConsumeMeaning(c, y, log);
    var accepted := y.history[|h|..];
    DropTwice(y.history, |h|, |h| + Lost(|accepted|));
  }

  /**
   * After a sync that followed surface x, let only signals arrive, on any surfaces, and syncs that
   * give the engine nothing; then let a sync follow the same surface, now y. It gives the engine
   * exactly what y accepted in between, less the oldest frames beyond the queue limit.
   */
  lemma LostBetweenSyncs(states: seq<System>, events: seq<Event>, x: Surface, y: Surface)
    requires Run(states, events) && Inv(states[0])
    requires forall i :: 0 <= i < |events| ==> Idle(states[i], events[i], states[i + 1])
    requires x in states[0].table.surfaces && x.key == y.key && x.birth == y.birth
    requires states[0].consumer.key == x.key && states[0].consumer.seen == x.accepted
    requires y in states[|events|].table.surfaces
    ensures x.history <= y.history
    ensures var accepted := y.history[|x.history|..];
            Consume(states[|events|].consumer, y).engine
            == states[0].consumer.engine + accepted[Lost(|accepted|)..]
  {
    var n := |events|;
    var s0 := states[0].table;
    assert Follows(s0, x.key, x.birth, x.history) by {
      if x.history != [] {
        assert x.history[0] in x.history;
      }
      forall s | s in s0.surfaces && s.key == x.key && s.birth == x.birth ensures x.history <= s.history {
        assert x in multiset(s0.surfaces) && s in multiset(s0.surfaces);
      }
    }
    SignalsFollow(states, events, n, x.key, x.birth, x.history);
    ConsumeAfter(states[n].consumer, x.history, y, states[n].table.log);
  }

  // ---- A surface key of zero ----

  /**
   * After a pause the next sync pushes nothing, unless the surface key is zero: then it pushes the
   * whole queue again.
   */
  lemma AfterPause(c: Consumer, s: Surface, log: seq<Frame>)
    requires SurfaceOk(s, log)
    ensures var paused := c.(seen := 0, key := 0);
            Consume(paused, s).engine == c.engine + (if s.key == 0 then s.frames else [])
  {
    var paused := c.(seen := 0, key := 0);
    if s.key == 0 {
      ConsumeMeaning(paused, s, log);
    } else {
      assert c.engine + [] == c.engine;
    }
  }

  /** So the engine's frames stay in order exactly when the key is not zero, or none of the queue was pushed before. */
  lemma ZeroKeyRepeats(c: Consumer, s: Surface, log: seq<Frame>)
    requires SurfaceOk(s, log) && Increasing(c.engine)
    ensures Increasing(Consume(c.(seen := 0, key := 0), s).engine)
       <==> s.key != 0 || forall f, g :: f in c.engine && g in s.frames ==> f.serial < g.serial
  {
    AfterPause(c, s, log);
    assert c.engine + [] == c.engine;
    assert Increasing(s.frames);
    hide Consume, SurfaceOk, Increasing;
    ConcatIncreasing(c.engine, s.frames);
  }

  lemma ConcatIncreasing(a: seq<Frame>, b: seq<Frame>)
    requires Increasing(a) && Increasing(b)
    ensures Increasing(a + b) <==> forall f, g :: f in a && g in b ==> f.serial < g.serial
  {
    var e := a + b;
    if Increasing(e) {
      forall f, g | f in a && g in b ensures f.serial < g.serial {
        var i :| 0 <= i < |a| && a[i] == f;
        var j :| 0 <= j < |b| && b[j] == g;
        assert e[i] == f && e[|a| + j] == g;
      }
    } else {
      var i, j :| 0 <= i < j < |e| && e[i].serial >= e[j].serial;
      assert i < |a| <= j ==> e[i] in a && e[j] in b;
    }
  }

  function Tens(n: nat): seq<Frame> {
    seq(n, i requires 0 <= i => Frame(10.0, i))
  }

  /** The table after n signals, 10 ms apart, of the surface with key zero. */
  function ZeroTable(n: nat): Table {
    if n == 0 then Table([], 0, 1, "game", [])
    else
      Table([Surface(0, n * 10_000_000, n * 10_000_000, if n > 1 then 1000 else 0, n - 1,
                     if n > 1 then 10.0 else 0.0, Tens(n - 1), Tens(n - 1), 0)],
            0, 1, "game", Tens(n - 1))
  }

  lemma {:induction false} ZeroSignal(n: nat)
    requires n < QUEUE_LIMIT
    ensures Signalled(ZeroTable(n), 1, 0, (n + 1) * 10_000_000, 1000, ZeroTable(n + 1))
  {
    if n > 0 {
      assert Tens(n) == Tens(n - 1) + [Frame(10.0, n - 1)];
    } else {
      assert Tens(0) == [];
    }
  }

  /** Start, reset, 13 signals, sync, pause and sync again. */
  function ZeroEvent(i: nat): Event {
    if i == 0 then Reset(1, "game")
    else if i <= 13 then Signal(1, 0, i * 10_000_000, 1000)
    else if i == 15 then Pause
    else Sync("game", 1000, 1000)
  }

  function ZeroState(i: nat): System {
    if i == 0 then Started()
    else if i <= 14 then System(ZeroTable(i - 1), Consumer(0, 0, []))
    else
      System(ZeroTable(13),
             if i == 15 then Consumer(12, 0, Tens(12))
             else if i == 16 then Consumer(0, 0, Tens(12))
             else Consumer(12, 0, Tens(12) + Tens(12)))
  }

  lemma ZeroSync(engine: seq<Frame>)
    ensures Synced(ZeroTable(13), Consumer(0, 0, engine), "game", 1000, 1000)
         == (ZeroTable(13), Consumer(12, 0, engine + Tens(12)))
  {
    var surfaces := ZeroTable(13).surfaces;
    assert Best(surfaces, 0, 1000) == None;
    assert Best(surfaces, 1, 1000) == Some(0);
    assert Find(surfaces, 0) == Some(0);
    assert surfaces[0].frames[0..12] == Tens(12);
  }

  /** A run in which the engine is given frames twice. */
  lemma ZeroKeyRun()
    ensures exists states: seq<System>, events: seq<Event> ::
              Run(states, events) && |states| == |events| + 1 && states[0] == Started()
              && !Increasing(states[|events|].consumer.engine)
  {
    var states := seq(18, i requires 0 <= i => ZeroState(i));
    var events := seq(17, i requires 0 <= i => ZeroEvent(i));
    var engine := Tens(12) + Tens(12);
    assert ZeroState(17).consumer.engine == engine && ZeroState(0) == Started();
    assert engine[0].serial == engine[12].serial;
    hide Next, ZeroState, ZeroEvent, Tens;
    forall i | 0 <= i < 17 ensures Next(states[i], events[i], states[i + 1]) {
      ZeroStep(i);
    }
    assert Run(states, events) && states[|events|] == ZeroState(17);
  }

  lemma {:induction false} ZeroStep(i: nat)
    requires i < 17
    ensures Next(ZeroState(i), ZeroEvent(i), ZeroState(i + 1))
  {
    if 1 <= i <= 13 {
      ZeroSignal(i - 1);
    } else if i == 14 {
      ZeroSync([]);
      assert [] + Tens(12) == Tens(12);
    } else if i == 16 {
      ZeroSync(Tens(12));
    }
    hide ZeroTable, Synced, Signalled, Tens;
    assert i == 0 ==> Table([], 0, 1, "game", []) == ZeroTable(0) by {
      ZeroStart();
    }
  }

  lemma ZeroStart()
    ensures ZeroTable(0) == Table([], 0, 1, "game", [])
  {
  }
}
