/**
 * What the frame hand-off promises, said without the functions that compute it: which surface is
 * followed, what it gives the engine, which frames there are and which surfaces are forgotten.
 */
module FrameLaws {
  import opened FrameHandoff
  import opened Wrappers

  // ---- Which surface is followed ----

  /** Twelve frames so far, some of them queued, and the last one at most a second ago. */
  predicate Active(s: Surface, nowMs: int) {
    s.accepted >= 12 && |s.frames| > 0 && 0 < s.lastWallMs && nowMs <= s.lastWallMs + 1000
  }

  /** A count of b is at most a quarter above a. */
  predicate Near(a: nat, b: nat) {
    4 * b <= 5 * a
  }

  /** No active surface has the sticky key. */
  predicate NoSticky(surfaces: seq<Surface>, primaryKey: nat, nowMs: int) {
    forall s :: s in surfaces && Active(s, nowMs) ==> s.key != primaryKey
  }

  /** A surface is chosen exactly when one is active, it is active, and its key becomes the sticky one. */
  lemma ChosenIsActive(surfaces: seq<Surface>, primaryKey: nat, nowMs: int)
    ensures var (chosen, key) := Select(surfaces, primaryKey, nowMs);
            && (chosen.None? <==> forall s :: s in surfaces ==> !Active(s, nowMs))
            && (chosen.None? ==> key == 0)
            && (chosen.Some? ==> Active(surfaces[chosen.value], nowMs) && key == surfaces[chosen.value].key)
  {
    var chosen := Select(surfaces, primaryKey, nowMs).0;
    if chosen.Some? {
      assert surfaces[chosen.value] in surfaces;
    } else {
      forall s | s in surfaces ensures !Active(s, nowMs) {
        var i :| 0 <= i < |surfaces| && surfaces[i] == s;
        assert !Live(surfaces[i], nowMs);
      }
    }
  }

  /** Surface i has more frames than every other active one and a quarter. */
  predicate Dominant(surfaces: seq<Surface>, i: nat, nowMs: int)
    requires i < |surfaces|
  {
    && Active(surfaces[i], nowMs)
    && forall j :: 0 <= j < |surfaces| && j != i && Active(surfaces[j], nowMs) ==>
         !Near(surfaces[j].accepted, surfaces[i].accepted)
  }

  lemma {:induction false} BestDominant(surfaces: seq<Surface>, n: nat, nowMs: int, i: nat)
    requires i < n <= |surfaces| && Dominant(surfaces, i, nowMs)
    ensures Best(surfaces, n, nowMs) == Some(i)
  {
    if i < n - 1 {
      BestDominant(surfaces, n - 1, nowMs, i);
      assert Active(surfaces[n - 1], nowMs) ==> !Near(surfaces[n - 1].accepted, surfaces[i].accepted);
    } else {
      var best := Best(surfaces, n - 1, nowMs);
      assert best.Some? ==> Active(surfaces[best.value], nowMs);
    }
  }

  /** Such a surface is chosen whatever the sticky key. */
  lemma DominantChosen(surfaces: seq<Surface>, primaryKey: nat, nowMs: int, i: nat)
    requires i < |surfaces| && Dominant(surfaces, i, nowMs)
    ensures Select(surfaces, primaryKey, nowMs) == (Some(i), surfaces[i].key)
  {
    BestDominant(surfaces, |surfaces|, nowMs, i);
    var sticky := Find(surfaces, primaryKey);
    if sticky.Some? && sticky.value != i && Active(surfaces[sticky.value], nowMs) {
      assert !Near(surfaces[sticky.value].accepted, surfaces[i].accepted);
    }
  }

  lemma NoStickyBest(surfaces: seq<Surface>, primaryKey: nat, nowMs: int)
    requires NoSticky(surfaces, primaryKey, nowMs)
    ensures Select(surfaces, primaryKey, nowMs).0 == Best(surfaces, |surfaces|, nowMs)
  {
    var sticky := Find(surfaces, primaryKey);
    if sticky.Some? {
      assert !Active(surfaces[sticky.value], nowMs);
    }
  }

  lemma {:induction false} BestLargest(surfaces: seq<Surface>, n: nat, nowMs: int)
    requires n <= |surfaces|
    requires forall s :: s in surfaces && Active(s, nowMs) ==> s.interval <= 0.0
    ensures var best := Best(surfaces, n, nowMs);
            best.Some? ==> forall j :: 0 <= j < n && Active(surfaces[j], nowMs) ==>
              surfaces[j].accepted <= surfaces[best.value].accepted
              && (j < best.value ==> surfaces[j].accepted < surfaces[best.value].accepted)
  {
    if n > 0 {
      BestLargest(surfaces, n - 1, nowMs);
      assert surfaces[n - 1] in surfaces;
    }
  }

  /** Without a pace and without a sticky surface it is the first of those with the most frames. */
  lemma LargestChosen(surfaces: seq<Surface>, primaryKey: nat, nowMs: int)
    requires NoSticky(surfaces, primaryKey, nowMs)
    requires forall s :: s in surfaces && Active(s, nowMs) ==> s.interval <= 0.0
    ensures var chosen := Select(surfaces, primaryKey, nowMs).0;
            chosen.Some? ==> forall j :: 0 <= j < |surfaces| && Active(surfaces[j], nowMs) ==>
              surfaces[j].accepted <= surfaces[chosen.value].accepted
              && (j < chosen.value ==> surfaces[j].accepted < surfaces[chosen.value].accepted)
  {
    NoStickyBest(surfaces, primaryKey, nowMs);
    BestLargest(surfaces, |surfaces|, nowMs);
  }

  /** The surfaces f and s are the active ones; f is faster, and near in count. */
  predicate TwoPaced(surfaces: seq<Surface>, nowMs: int, f: nat, s: nat) {
    && f < |surfaces| && s < |surfaces| && f != s
    && Active(surfaces[f], nowMs) && Active(surfaces[s], nowMs)
    && (forall j :: 0 <= j < |surfaces| && Active(surfaces[j], nowMs) ==> j == f || j == s)
    && 0.0 < surfaces[f].interval < surfaces[s].interval && Near(surfaces[f].accepted, surfaces[s].accepted)
  }

  lemma {:induction false} BestOfTwo(surfaces: seq<Surface>, n: nat, nowMs: int, f: nat, s: nat)
    requires n <= |surfaces| && TwoPaced(surfaces, nowMs, f, s)
    ensures f < n && s >= n ==> Best(surfaces, n, nowMs) == Some(f)
    ensures s < n && f >= n ==> Best(surfaces, n, nowMs) == Some(s)
    ensures s < n && f < n ==>
              Best(surfaces, n, nowMs)
              == if s < f || surfaces[f].accepted >= surfaces[s].accepted then Some(f) else Some(s)
  {
    if n > 0 {
      BestOfTwo(surfaces, n - 1, nowMs, f, s);
    }
  }

  /**
   * Of two active surfaces near in count the faster one is chosen exactly when it comes later in the
   * table or has no fewer frames: a slower one that comes later and is ahead by one frame wins.
   */
  lemma FasterChosenIff(surfaces: seq<Surface>, primaryKey: nat, nowMs: int, f: nat, s: nat)
    requires TwoPaced(surfaces, nowMs, f, s) && NoSticky(surfaces, primaryKey, nowMs)
    ensures Select(surfaces, primaryKey, nowMs).0
         == if s < f || surfaces[f].accepted >= surfaces[s].accepted then Some(f) else Some(s)
  {
    NoStickyBest(surfaces, primaryKey, nowMs);
    BestOfTwo(surfaces, |surfaces|, nowMs, f, s);
  }

  function SlowFrames(n: nat): seq<Frame> {
    seq(n, i requires 0 <= i => Frame(20.0, i))
  }

  function FastFrames(n: nat): seq<Frame> {
    seq(n, i requires 0 <= i => Frame(10.0, 14 + i))
  }

  /** A surface of one frame per 20 ms, after n signals. */
  function SlowSurface(n: nat): Surface
    requires n > 0
  {
    Surface(2, n * 20_000_000, n * 20_000_000, if n > 1 then 1000 else 0, n - 1, if n > 1 then 20.0 else 0.0,
            SlowFrames(n - 1), SlowFrames(n - 1), 0)
  }

  /** One of a frame per 10 ms, first signalled long before, after n further signals. */
  function FastSurface(n: nat): Surface {
    if n == 0 then Surface(1, 10_000_000, 10_000_000, 0, 0, 0.0, [], [], 0)
    else
      var at := 10_000_000_000 + (n - 1) * 10_000_000;
      Surface(1, at, at, if n > 1 then 1000 else 0, n - 1, if n > 1 then 10.0 else 0.0,
              FastFrames(n - 1), FastFrames(n - 1), 0)
  }

  /** Reset, a signal of the fast surface, 15 of the slow one, 13 more of the fast one, and a sync. */
  function PacedEvent(i: nat): Event {
    if i == 0 then Reset(1, "game")
    else if i == 1 then Signal(1, 1, 10_000_000, 1000)
    else if i <= 16 then Signal(1, 2, (i - 1) * 20_000_000, 1000)
    else if i <= 29 then Signal(1, 1, 10_000_000_000 + (i - 17) * 10_000_000, 1000)
    else Sync("game", 1000, 1000)
  }

  function PacedTable(i: nat): Table {
    if i == 0 then Table([], 0, -1, "", [])
    else if i == 1 then Table([], 0, 1, "game", [])
    else if i == 2 then Table([FastSurface(0)], 0, 1, "game", [])
    else if i <= 17 then Table([FastSurface(0), SlowSurface(i - 2)], 0, 1, "game", SlowFrames(i - 3))
    else if i <= 30 then
      Table([FastSurface(i - 17), SlowSurface(15)], 0, 1, "game", SlowFrames(14) + FastFrames(i - 18))
    else PacedTable(30).(primaryKey := 2)
  }

  function PacedState(i: nat): System {
    System(PacedTable(i), if i <= 30 then Consumer(0, 0, []) else Consumer(14, 2, []))
  }

  lemma SlowSignal(i: nat)
    requires 2 <= i <= 16
    ensures Next(PacedState(i), PacedEvent(i), PacedState(i + 1))
  {
    if i > 2 {
      assert SlowFrames(i - 2) == SlowFrames(i - 3) + [Frame(20.0, i - 3)];
    } else {
      assert SlowFrames(0) == [];
    }
  }

  lemma FastSignal(i: nat)
    requires 17 <= i <= 29
    ensures Next(PacedState(i), PacedEvent(i), PacedState(i + 1))
  {
    if i > 17 {
      assert FastFrames(i - 17) == FastFrames(i - 18) + [Frame(10.0, 14 + (i - 18))];
    } else {
      assert FastFrames(0) == [];
    }
  }

  lemma PacedTwo()
    ensures TwoPaced(PacedTable(30).surfaces, 1000, 0, 1) && NoSticky(PacedTable(30).surfaces, 0, 1000)
    ensures Synced(PacedTable(30), Consumer(0, 0, []), "game", 1000, 1000) == (PacedTable(31), Consumer(14, 2, []))
  {
    var t := PacedTable(30);
    assert t.surfaces == [FastSurface(13), SlowSurface(15)] && |SlowFrames(14)| == 14 && |FastFrames(12)| == 12;
    assert TwoPaced(t.surfaces, 1000, 0, 1);
    FasterChosenIff(t.surfaces, 0, 1000, 0, 1);
    ChosenIsActive(t.surfaces, 0, 1000);
    hide Select;
  }

  /** In such a run the engine is fed from the slower of two active surfaces near in count. */
  lemma SlowerFollowed()
    ensures exists states: seq<System>, events: seq<Event> ::
              Run(states, events) && states[0] == Started() && |events| == 31
              && TwoPaced(states[30].table.surfaces, 1000, 0, 1) && states[30].table.surfaces[1].key == 2
              && events[30] == Sync("game", 1000, 1000) && states[31].consumer.key == 2
  {
    var states, events := seq(32, i requires 0 <= i => PacedState(i)), seq(31, i requires 0 <= i => PacedEvent(i));
    PacedTwo();
    assert PacedState(30).table.surfaces[1].key == 2 && PacedState(31).consumer.key == 2 && PacedState(0) == Started();
    assert PacedEvent(30) == Sync("game", 1000, 1000);
    forall i | 0 <= i < 31 ensures Next(states[i], events[i], states[i + 1]) {
      if i < 2 {
        PacedStart(i);
      } else if i <= 16 {
        SlowSignal(i);
      } else if i <= 29 {
        FastSignal(i);
      } else {
        assert i == 30;
      }
    }
    hide Next, PacedState, PacedEvent, TwoPaced;
    assert Run(states, events);
  }

  lemma PacedStart(i: nat)
    requires i < 2
    ensures Next(PacedState(i), PacedEvent(i), PacedState(i + 1))
  {
  }

  /** A sticky surface that is active and not far behind any active one is kept, with its key. */
  lemma StickyKept(surfaces: seq<Surface>, k: nat, nowMs: int)
    requires k < |surfaces| && Active(surfaces[k], nowMs)
    requires forall j :: 0 <= j < |surfaces| && j != k ==> surfaces[j].key != surfaces[k].key
    requires forall s :: s in surfaces && Active(s, nowMs) ==> Near(surfaces[k].accepted, s.accepted)
    ensures Select(surfaces, surfaces[k].key, nowMs) == (Some(k), surfaces[k].key)
  {
    var best := Best(surfaces, |surfaces|, nowMs);
    assert best.Some?;
    assert surfaces[best.value] in surfaces;
  }

  // ---- What a sync gives the engine ----

  /** Where the new frames of a history of n begin, when seen were pushed and 240 are queued. */
  predicate Newest(seen: nat, n: nat, from: nat) {
    from <= n && n <= from + 240 && (from == seen || (seen < from && from + 240 == n) || (seen > n && from == n))
  }

  /**
   * A sync of the followed package gives the engine what is new on the surface it chooses, unless it
   * has just begun to follow that surface or the surface has been silent for two seconds.
   */
  lemma SyncGives(t: Table, c: Consumer, package: string, selectMs: int, nowMs: int, i: nat)
    requires package == t.package && package != "" && Select(t.surfaces, t.primaryKey, selectMs).0 == Some(i)
    requires SurfaceOk(t.surfaces[i], t.log)
    ensures var (t', c') := Synced(t, c, package, selectMs, nowMs);
            var s := t.surfaces[i];
            && t' == t.(primaryKey := s.key)
            && (nowMs > s.lastWallMs + 2000 ==> c' == c)
            && (nowMs <= s.lastWallMs + 2000 ==> c'.key == s.key && c'.seen == |s.history|)
            && (nowMs <= s.lastWallMs + 2000 && c.key != s.key ==> c'.engine == c.engine)
            && (nowMs <= s.lastWallMs + 2000 && c.key == s.key ==>
                  exists from: nat :: Newest(c.seen, |s.history|, from) && c'.engine == c.engine + s.history[from..])
  {
    ChosenIsActive(t.surfaces, t.primaryKey, selectMs);
    hide Select, SurfaceOk, Consume, Lost;
    var s := t.surfaces[i];
    SurfaceCounts(s, t.log);
    if s.key == c.key {
      ConsumeMeaning(c, s, t.log);
      FromIsNewest(c.seen, |s.history|);
    } else {
      FollowsAnew(c, s);
    }
  }

  lemma FromIsNewest(seen: nat, n: nat)
    ensures Newest(seen, n, From(seen, n))
  {
  }

  lemma FollowsAnew(c: Consumer, s: Surface)
    requires s.key != c.key
    ensures Consume(c, s) == c.(key := s.key, seen := s.accepted)
  {
  }

  /** A dominant surface is the one the engine is fed from, whatever was followed before. */
  lemma DominantFed(t: Table, c: Consumer, selectMs: int, nowMs: int, i: nat)
    requires t.package != "" && i < |t.surfaces| && Dominant(t.surfaces, i, selectMs)
    requires SurfaceOk(t.surfaces[i], t.log) && nowMs <= t.surfaces[i].lastWallMs + 2000
    ensures var (t', c') := Synced(t, c, t.package, selectMs, nowMs);
            var s := t.surfaces[i];
            && t'.primaryKey == c'.key == s.key && c'.seen == |s.history|
            && (c.key != s.key ==> c'.engine == c.engine)
            && (c.key == s.key ==>
                  exists from: nat :: Newest(c.seen, |s.history|, from) && c'.engine == c.engine + s.history[from..])
  {
    DominantChosen(t.surfaces, t.primaryKey, selectMs, i);
    SyncGives(t, c, t.package, selectMs, nowMs, i);
  }

  /** At every sync of the run the sticky surface is active and not far behind. */
  predicate StickyAlive(s: System, e: Event, key: nat) {
    e.Sync? ==>
      exists k: nat :: k < |s.table.surfaces| && s.table.surfaces[k].key == key
                  && Active(s.table.surfaces[k], e.selectMs)
                  && forall x :: x in s.table.surfaces && Active(x, e.selectMs) ==>
                       Near(s.table.surfaces[k].accepted, x.accepted)
  }

  /** As long as that holds there is no going back and forth between surfaces. */
  lemma {:induction false} PrimaryKept(states: seq<System>, events: seq<Event>, n: nat)
    requires Run(states, events) && Inv(states[0]) && n <= |events|
    requires forall i :: 0 <= i < |events| ==>
               !events[i].Reset? && Keyed(events[i])
               && StickyAlive(states[i], events[i], states[0].table.primaryKey)
    ensures Inv(states[n]) && states[n].table.primaryKey == states[0].table.primaryKey
  {
    hide Inv, Next, Select, StickyAlive;
    if n > 0 {
      PrimaryKept(states, events, n - 1);
      var s, e, s' := states[n - 1], events[n - 1], states[n];
      assert Next(s, e, states[n - 1 + 1]);
      NextKeeps(s, e, s');
      PrimaryStep(s, e, s');
    }
  }

  lemma PrimaryStep(s: System, e: Event, s': System)
    requires Inv(s) && Next(s, e, s') && !e.Reset? && StickyAlive(s, e, s.table.primaryKey)
    ensures s'.table.primaryKey == s.table.primaryKey
  {
    hide Select;
    if e.Sync? {
      var t := s.table;
      var k: nat :| k < |t.surfaces| && t.surfaces[k].key == t.primaryKey && Active(t.surfaces[k], e.selectMs)
        && forall x :: x in t.surfaces && Active(x, e.selectMs) ==> Near(t.surfaces[k].accepted, x.accepted);
      KeysApart(t.surfaces);
      StickyKept(t.surfaces, k, e.selectMs);
    }
  }

  lemma KeysApart(surfaces: seq<Surface>)
    requires Unique(multiset(surfaces))
    ensures forall i, j :: 0 <= i < j < |surfaces| ==> surfaces[i].key != surfaces[j].key
  {
    forall i, j | 0 <= i < j < |surfaces| ensures surfaces[i].key != surfaces[j].key {
      var a, b := surfaces[i], surfaces[j];
      assert a in multiset(surfaces) && b in multiset(surfaces);
      var front := surfaces[..j];
      assert front[i] == a && a in multiset(front);
      assert surfaces == front + surfaces[j..] && surfaces[j..] == [b] + surfaces[j + 1..];
      assert multiset(surfaces) == multiset(front) + multiset{b} + multiset(surfaces[j + 1..]);
    }
  }

  // ---- Which frames there are ----

  /** Event i is a signal of the target process for the surface key. */
  predicate OfSurface(states: seq<System>, events: seq<Event>, i: nat, key: nat)
    requires i < |events| < |states|
  {
    events[i].Signal? && events[i].key == key && events[i].tgid == states[i].table.pid && events[i].tgid > 0
  }

  /** Event i is the last such signal before event n, and no reset came after it. */
  predicate LastOf(states: seq<System>, events: seq<Event>, i: nat, n: nat, key: nat)
    requires n <= |events| < |states|
  {
    && i < n && OfSurface(states, events, i, key)
    && forall k :: i < k < n ==> !events[k].Reset? && !OfSurface(states, events, k, key)
  }

  /** The surface was last signalled at its time stamp. */
  ghost predicate StampOf(states: seq<System>, events: seq<Event>, n: nat, s: Surface)
    requires n <= |events| < |states|
  {
    exists i: nat :: LastOf(states, events, i, n, s.key) && s.lastKtime == events[i].ktime
  }

  ghost predicate Stamped(states: seq<System>, events: seq<Event>, n: nat)
    requires n <= |events| < |states|
  {
    forall s :: s in states[n].table.surfaces ==> StampOf(states, events, n, s)
  }

  lemma LastOfMore(states: seq<System>, events: seq<Event>, i: nat, n: nat, key: nat)
    requires n < |events| < |states| && LastOf(states, events, i, n, key)
    requires !events[n].Reset? && !OfSurface(states, events, n, key)
    ensures LastOf(states, events, i, n + 1, key)
  {
  }

  lemma LastOfHere(states: seq<System>, events: seq<Event>, n: nat, key: nat)
    requires n < |events| < |states| && OfSurface(states, events, n, key)
    ensures LastOf(states, events, n, n + 1, key)
  {
  }

  /** After a signal of the target process its surface has the new stamp, and the others are as they were. */
  lemma SignalStamps(t: Table, key: nat, ktime: nat, nowMs: int, t': Table, x: Surface)
    requires t.pid > 0 && Signalled(t, t.pid, key, ktime, nowMs, t') && Unique(multiset(t.surfaces))
    requires x in t'.surfaces
    ensures x.key == key ==> x.lastKtime == ktime
    ensures x.key != key ==> x in t.surfaces
  {
    hide Pruned, Submit;
    SignalledParts(t, key, ktime, nowMs, t');
    var submitted := Submitted(t, key, ktime, nowMs);
    PrunedKeeps(submitted, ktime, t'.surfaces);
    SubsetIn(t'.surfaces, submitted);
    var (surfaces, i) := FindOrCreate(t.surfaces, key, |t.log|);
    SubmitStamps(surfaces[i], ktime, nowMs, |t.log|);
    var j :| 0 <= j < |submitted| && submitted[j] == x;
    if j != i {
      OtherKeys(t.surfaces, key, |t.log|, j);
    }
  }

  lemma SubmitStamps(s: Surface, ktime: nat, nowMs: int, serial: nat)
    ensures Submit(s, ktime, nowMs, serial).key == s.key && Submit(s, ktime, nowMs, serial).lastKtime == ktime
  {
  }

  lemma OtherKeys(surfaces: seq<Surface>, key: nat, birth: nat, j: nat)
    requires Unique(multiset(surfaces))
    requires j < |FindOrCreate(surfaces, key, birth).0| && j != FindOrCreate(surfaces, key, birth).1
    ensures FindOrCreate(surfaces, key, birth).0[j].key != key && FindOrCreate(surfaces, key, birth).0[j] in surfaces
  {
    KeysApart(surfaces);
  }

  lemma RunStep(states: seq<System>, events: seq<Event>, n: nat)
    requires Run(states, events) && n < |events|
    ensures |states| == |events| + 1 && Next(states[n], events[n], states[n + 1])
  {
  }

  lemma StartStamped(states: seq<System>, events: seq<Event>)
    requires |events| < |states| && states[0] == Started()
    ensures Inv(states[0]) && Stamped(states, events, 0)
  {
  }

  lemma {:induction false} RunStamped(states: seq<System>, events: seq<Event>, n: nat)
    requires Run(states, events) && states[0] == Started() && forall e :: e in events ==> Keyed(e)
    requires n <= |events|
    ensures |states| == |events| + 1 && Inv(states[n]) && Stamped(states, events, n)
  {
    RunSize(states, events);
    StartStamped(states, events);
    hide *;
    RunKeeps(states, events, n);
    if n > 0 {
      RunStamped(states, events, n - 1);
      StampedNext(states, events, n - 1);
    }
  }

  lemma RunSize(states: seq<System>, events: seq<Event>)
    requires Run(states, events)
    ensures |states| == |events| + 1
  {
  }

  lemma StampedNext(states: seq<System>, events: seq<Event>, n: nat)
    requires Run(states, events) && n < |events| < |states| && Inv(states[n]) && Stamped(states, events, n)
    ensures Stamped(states, events, n + 1)
  {
    RunStep(states, events, n);
    UniqueTable(states[n]);
    hide Next, StampOf, Unique;
    var surfaces := states[n + 1].table.surfaces;
    forall x | x in surfaces ensures StampOf(states, events, n + 1, x) {
      StampedStep(states, events, n, x);
    }
  }

  lemma UniqueTable(s: System)
    requires Inv(s)
    ensures Unique(multiset(s.table.surfaces))
  {
  }

  lemma StampedStep(states: seq<System>, events: seq<Event>, n: nat, x: Surface)
    requires n < |events| < |states| && Next(states[n], events[n], states[n + 1])
    requires Unique(multiset(states[n].table.surfaces)) && Stamped(states, events, n)
    requires x in states[n + 1].table.surfaces
    ensures StampOf(states, events, n + 1, x)
  {
    var e, t, t' := events[n], states[n].table, states[n + 1].table;
    hide LastOf, Unique, Synced;
    if e.Signal? && e.tgid == t.pid && t.pid > 0 && x.key == e.key {
      SignalStamps(t, e.key, e.ktime, e.nowMs, t', x);
      LastOfHere(states, events, n, x.key);
    } else {
      assert x in t.surfaces by {
        if e.Signal? && e.tgid == t.pid && t.pid > 0 {
          SignalStamps(t, e.key, e.ktime, e.nowMs, t', x);
        } else {
          UnchangedTable(states[n], e, states[n + 1]);
        }
      }
      var i: nat :| LastOf(states, events, i, n, x.key) && x.lastKtime == events[i].ktime;
      LastOfMore(states, events, i, n, x.key);
    }
  }

  lemma UnchangedTable(s: System, e: Event, s': System)
    requires Next(s, e, s') && !(e.Signal? && e.tgid == s.table.pid && s.table.pid > 0) && !e.Reset?
    ensures s'.table.surfaces == s.table.surfaces && s'.table.log == s.table.log
  {
    hide Select, Consume;
  }

  /** Events i and j are consecutive signals of one surface, 1 to 200 ms apart. */
  predicate Interval(states: seq<System>, events: seq<Event>, i: nat, j: nat)
    requires j < |events| < |states|
  {
    && events[j].Signal? && OfSurface(states, events, j, events[j].key)
    && i < j && events[i].Signal? && LastOf(states, events, i, j, events[j].key)
    && 0 < events[i].ktime && 1_000_000 <= events[j].ktime - events[i].ktime <= 200_000_000
  }

  /**
   * In every run a frame is accepted exactly when a signal follows another one of a surface still in the
   * table by 1 to 200 ms, and it is the time between the two.
   */
  lemma AcceptedIff(states: seq<System>, events: seq<Event>, n: nat)
    requires Run(states, events) && states[0] == Started() && (forall e :: e in events ==> Keyed(e))
    requires n < |events|
    ensures |states| > |events|
    ensures states[n + 1].table.log != states[n].table.log
       <==> exists i: nat :: Interval(states, events, i, n)
                        && exists s :: s in states[n].table.surfaces && s.key == events[n].key
    ensures forall i: nat :: Interval(states, events, i, n) && states[n + 1].table.log != states[n].table.log ==>
              states[n + 1].table.log
              == states[n].table.log + [Frame((events[n].ktime - events[i].ktime) as real / 1_000_000.0,
                                              |states[n].table.log|)]
  {
    RunStamped(states, events, n);
    RunStep(states, events, n);
    hide Stamped, Inv, Run, LastOf, Signalled, Synced;
    var s, e, s' := states[n], events[n], states[n + 1];
    if e.Signal? && e.tgid == s.table.pid && s.table.pid > 0 {
      SignalLogs(s.table, e.key, e.ktime, e.nowMs, s'.table);
      var found := Find(s.table.surfaces, e.key);
      hide Find, Next;
      if found.Some? {
        var x := s.table.surfaces[found.value];
        assert x in s.table.surfaces && x.key == e.key;
        StampedAt(states, events, n, x);
        OnlyLast(states, events, n, e.key);
        var i: nat :| LastOf(states, events, i, n, e.key) && x.lastKtime == events[i].ktime;
        LastIsBefore(states, events, i, n, e.key);
        assert Interval(states, events, i, n) <==> 0 < x.lastKtime && 1_000_000 <= e.ktime - x.lastKtime <= 200_000_000;
        assert forall j: nat :: Interval(states, events, j, n) ==> j == i;
        assert s'.table.log != s.table.log <==> Interval(states, events, i, n);
      }
    } else if e.Reset? {
      ResetLog(s, e, s');
    } else {
      UnchangedTable(s, e, s');
    }
  }

  lemma LastIsBefore(states: seq<System>, events: seq<Event>, i: nat, n: nat, key: nat)
    requires n <= |events| < |states| && LastOf(states, events, i, n, key)
    ensures i < n && events[i].Signal?
  {
  }

  lemma ResetLog(s: System, e: Event, s': System)
    requires Next(s, e, s') && e.Reset?
    ensures s'.table.log == s.table.log
  {
  }

  lemma StampedAt(states: seq<System>, events: seq<Event>, n: nat, x: Surface)
    requires n <= |events| < |states| && Stamped(states, events, n) && x in states[n].table.surfaces
    ensures StampOf(states, events, n, x)
  {
  }

  lemma OnlyLast(states: seq<System>, events: seq<Event>, n: nat, key: nat)
    requires n <= |events| < |states|
    ensures forall i: nat, j: nat :: LastOf(states, events, i, n, key) && LastOf(states, events, j, n, key) ==> i == j
  {
  }

  /** What a signal of the target process adds to the log. */
  lemma SignalLogs(t: Table, key: nat, ktime: nat, nowMs: int, t': Table)
    requires t.pid > 0 && Signalled(t, t.pid, key, ktime, nowMs, t')
    ensures var found := Find(t.surfaces, key);
            t'.log == if found.None? then t.log
                      else
                        var last := t.surfaces[found.value].lastKtime;
                        if 0 < last && 1_000_000 <= ktime - last <= 200_000_000 then
                          t.log + [Frame((ktime - last) as real / 1_000_000.0, |t.log|)]
                        else t.log
  {
    hide Pruned;
  }

  /** So everything the engine is given is the time between two consecutive signals of one surface. */
  lemma {:induction false} LogIsIntervals(states: seq<System>, events: seq<Event>, n: nat)
    requires Run(states, events) && states[0] == Started() && (forall e :: e in events ==> Keyed(e))
    requires n <= |events|
    ensures |states| > |events|
    ensures forall f :: f in states[n].table.log ==>
              exists i: nat, j: nat ::
                j < n && Interval(states, events, i, j)
                && f.ms == (events[j].ktime - events[i].ktime) as real / 1_000_000.0
  {
    hide Interval;
    RunSize(states, events);
    if n > 0 {
      LogIsIntervals(states, events, n - 1);
      AcceptedIff(states, events, n - 1);
      hide Run;
    } else {
      hide Run;
    }
  }

  lemma EngineGetsIntervals(states: seq<System>, events: seq<Event>)
    requires Run(states, events) && states[0] == Started() && (forall e :: e in events ==> Keyed(e))
    ensures |states| > |events|
    ensures forall f :: f in states[|events|].consumer.engine ==>
              exists i: nat, j: nat ::
                j < |events| && Interval(states, events, i, j)
                && f.ms == (events[j].ktime - events[i].ktime) as real / 1_000_000.0
  {
    AtMostOnceInOrder(states, events);
    LogIsIntervals(states, events, |events|);
    hide Run, Interval;
  }

  // ---- The pace of a surface ----

  function Power(x: real, n: nat): real {
    if n == 0 then 1.0 else x * Power(x, n - 1)
  }

  /** The surface after n further signals, each ns after the last. */
  function Paced(s: Surface, ns: nat, n: nat, nowMs: int): Surface {
    if n == 0 then s
    else
      var p := Paced(s, ns, n - 1, nowMs);
      Submit(p, p.lastKtime + ns, nowMs, 0)
  }

  /** At a steady pace the interval of a surface closes in on it by three tenths with every signal. */
  lemma {:induction false} PaceConverges(s: Surface, ns: nat, n: nat, nowMs: int)
    requires s.lastKtime > 0 && s.interval > 0.0 && 0 < ns <= 1_000_000_000
    ensures var p, pace := Paced(s, ns, n, nowMs), ns as real / 1_000_000.0;
            && p.lastKtime > 0 && p.interval > 0.0
            && p.interval - pace == Power(0.7, n) * (s.interval - pace)
  {
    if n > 0 {
      PaceConverges(s, ns, n - 1, nowMs);
      var p, pace := Paced(s, ns, n - 1, nowMs), ns as real / 1_000_000.0;
      PaceStep(p, ns, nowMs);
      Regroup(0.7, Power(0.7, n - 1), s.interval - pace);
      hide Submit;
    }
  }

  lemma PaceStep(s: Surface, ns: nat, nowMs: int)
    requires s.lastKtime > 0 && s.interval > 0.0 && 0 < ns <= 1_000_000_000
    ensures var s', pace := Submit(s, s.lastKtime + ns, nowMs, 0), ns as real / 1_000_000.0;
            s'.lastKtime > 0 && s'.interval > 0.0 && s'.interval - pace == 0.7 * (s.interval - pace)
  {
  }

  lemma Regroup(a: real, b: real, c: real)
    ensures (a * b) * c == a * (b * c)
  {
  }

  /** After a gap of more than a second the next short one is taken as the pace. */
  lemma PaceRestarts(s: Surface, k1: nat, k2: nat, nowMs: int)
    requires 0 < s.lastKtime && s.lastKtime + 1_000_000_000 < k1 < k2 <= k1 + 1_000_000_000
    ensures Submit(s, k1, nowMs, 0).interval == 0.0
    ensures Submit(Submit(s, k1, nowMs, 0), k2, nowMs, 0).interval == (k2 - k1) as real / 1_000_000.0
  {
  }

  // ---- Which surfaces are forgotten ----

  /** Signalled at most five seconds before latest. */
  predicate Recent(s: Surface, latest: nat) {
    0 < s.lastSeenKtime <= latest <= s.lastSeenKtime + 5_000_000_000
  }

  lemma {:induction false} DropStaleIs(surfaces: seq<Surface>, latest: nat)
    requires latest < 0x8000_0000_0000_0000
    requires forall s :: s in surfaces ==> s.lastSeenKtime < 0x8000_0000_0000_0000
    ensures forall s :: s in DropStale(surfaces, latest) <==> s in surfaces && Recent(s, latest)
  {
    if surfaces != [] {
      var n := |surfaces| - 1;
      assert forall s :: s in surfaces <==> s in surfaces[..n] || s == surfaces[n];
      DropStaleIs(surfaces[..n], latest);
      StaleMeans(surfaces[n], latest);
    }
  }

  lemma StaleMeans(s: Surface, latest: nat)
    requires latest < 0x8000_0000_0000_0000 && s.lastSeenKtime < 0x8000_0000_0000_0000
    ensures Stale(s, latest) <==> !Recent(s, latest)
  {
    var d := latest - s.lastSeenKtime;
    if d < 0 {
      assert d % TWO64 == d + TWO64;
    } else {
      assert d % TWO64 == d;
    }
  }

  /**
   * Up to 24 surfaces none is forgotten. Beyond that, those silent for five seconds are; and of the
   * others one is forgotten only when 24 are kept that were all signalled no earlier.
   */
  lemma ForgottenIff(surfaces: seq<Surface>, latest: nat, after: seq<Surface>)
    requires Pruned(surfaces, latest, after) && 0 < latest < 0x8000_0000_0000_0000
    requires forall s :: s in surfaces ==> s.lastSeenKtime < 0x8000_0000_0000_0000
    ensures |surfaces| <= 24 ==> after == surfaces
    ensures |surfaces| > 24 ==>
              && |after| <= 24
              && (forall s :: s in after ==> s in surfaces && Recent(s, latest))
              && (forall s :: s in surfaces && Recent(s, latest) && s !in after ==>
                    |after| == 24 && forall t :: t in after ==> t.lastSeenKtime >= s.lastSeenKtime)
  {
    if |surfaces| > TRACKED_SURFACES {
      var kept := DropStale(surfaces, latest);
      DropStaleIs(surfaces, latest);
      if |kept| > TRACKED_SURFACES {
        var sorted: seq<Surface> :|
          multiset(sorted) == multiset(kept) && |sorted| == |kept| && NewestFirst(sorted)
          && after == sorted[..TRACKED_SURFACES];
        assert forall s :: s in kept <==> s in multiset(kept);
        assert forall s :: s in sorted <==> s in multiset(sorted);
        hide DropStale, Pruned;
        forall s | s in kept && s !in after ensures forall t :: t in after ==> t.lastSeenKtime >= s.lastSeenKtime {
          var j :| 0 <= j < |sorted| && sorted[j] == s;
          assert j < 24 ==> after[j] == s;
        }
      }
    }
  }
}
