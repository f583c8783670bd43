/**
 * The frame hand-off as the program runs it: the surface table with its loops, and the consumer's
 * cursor. Each method is the step of FrameHandoff it is named after.
 */
module FrameCache {
  import opened FrameHandoff
  import opened Wrappers

  lemma DropStaleStep(surfaces: seq<Surface>, n: nat, latest: nat)
    requires n < |surfaces|
    ensures DropStale(surfaces[..n + 1], latest)
         == DropStale(surfaces[..n], latest) + (if Stale(surfaces[n], latest) then [] else [surfaces[n]])
  {
    assert surfaces[..n + 1][..n] == surfaces[..n];
  }

  /** One insertion of a sort by the most recent submission. */
  method Insert(sorted: seq<Surface>, s: Surface) returns (more: seq<Surface>)
    requires NewestFirst(sorted)
    ensures multiset(more) == multiset(sorted) + multiset{s} && |more| == |sorted| + 1 && NewestFirst(more)
  {
    var p := 0;
    while p < |sorted| && sorted[p].lastSeenKtime >= s.lastSeenKtime
      invariant 0 <= p <= |sorted|
      invariant forall i :: 0 <= i < p ==> sorted[i].lastSeenKtime >= s.lastSeenKtime
    {
      p := p + 1;
    }
    more := sorted[..p] + [s] + sorted[p..];
    InsertKeepsOrder(sorted, p, s);
    assert sorted == sorted[..p] + sorted[p..];
    hide NewestFirst;
  }

  lemma InsertKeepsOrder(sorted: seq<Surface>, p: nat, s: Surface)
    requires NewestFirst(sorted) && p <= |sorted|
    requires forall i :: 0 <= i < p ==> sorted[i].lastSeenKtime >= s.lastSeenKtime
    requires p < |sorted| ==> sorted[p].lastSeenKtime < s.lastSeenKtime
    ensures NewestFirst(sorted[..p] + [s] + sorted[p..])
  {
    var more := sorted[..p] + [s] + sorted[p..];
    forall i, j | 0 <= i < j < |more| ensures more[i].lastSeenKtime >= more[j].lastSeenKtime {
      var a, b := if i < p then i else i - 1, if j < p then j else j - 1;
      assert i != p ==> more[i] == sorted[a];
      assert j != p ==> more[j] == sorted[b];
    }
  }

  /** Stands for std::sort. */
  method SortNewestFirst(surfaces: seq<Surface>) returns (sorted: seq<Surface>)
    ensures multiset(sorted) == multiset(surfaces) && |sorted| == |surfaces| && NewestFirst(sorted)
  {
    hide NewestFirst;
    sorted := [];
    SortedNothing();
    var n := 0;
    while n < |surfaces|
      invariant 0 <= n <= |surfaces| && |sorted| == n
      invariant multiset(sorted) == multiset(surfaces[..n]) && NewestFirst(sorted)
    {
      sorted := Insert(sorted, surfaces[n]);
      assert surfaces[..n + 1] == surfaces[..n] + [surfaces[n]];
      n := n + 1;
    }
    assert surfaces[..n] == surfaces;
  }

  lemma SortedNothing()
    ensures NewestFirst([])
  {
  }

  lemma {:induction false} FindAt(surfaces: seq<Surface>, key: nat, n: nat)
    requires n <= |surfaces| && forall i :: 0 <= i < n ==> surfaces[i].key != key
    ensures n < |surfaces| && surfaces[n].key == key ==> Find(surfaces, key) == Some(n)
    ensures n == |surfaces| ==> Find(surfaces, key) == None
  {
    if n > 0 {
      FindAt(surfaces[1..], key, n - 1);
    }
  }

  class Cache {
    var surfaces: seq<Surface>
    var primaryKey: nat
    var pid: int
    var package: string
    /** All frames accepted so far; the program keeps only how many. */
    var log: seq<Frame>

    constructor ()
      ensures State() == Started().table
    {
      surfaces, primaryKey, pid, package, log := [], 0, -1, "", [];
    }

    function State(): Table
      reads this
    {
      Table(surfaces, primaryKey, pid, package, log)
    }

    method FindSurface(key: nat) returns (found: Option<nat>)
      ensures found == Find(surfaces, key)
    {
      var i := 0;
      while i < |surfaces| && surfaces[i].key != key
        invariant 0 <= i <= |surfaces|
        invariant forall j :: 0 <= j < i ==> surfaces[j].key != key
      {
        i := i + 1;
      }
      FindAt(surfaces, key, i);
      found := if i < |surfaces| then Some(i) else None;
    }

    /** prune_queuebuffer_surface_states. */
    method Prune(latest: nat)
      modifies this`surfaces
      ensures Pruned(old(surfaces), latest, surfaces)
    {
      if |surfaces| <= TRACKED_SURFACES || latest == 0 {
        return;
      }
      var kept: seq<Surface> := [];
      var n := 0;
      while n < |surfaces|
        invariant 0 <= n <= |surfaces| && surfaces == old(surfaces)
        invariant kept == DropStale(surfaces[..n], latest)
      {
        DropStaleStep(surfaces, n, latest);
        if !Stale(surfaces[n], latest) {
          kept := kept + [surfaces[n]];
        }
        n := n + 1;
      }
      assert surfaces[..n] == surfaces;
      surfaces := kept;
      if |surfaces| <= TRACKED_SURFACES {
        return;
      }
      var sorted := SortNewestFirst(surfaces);
      surfaces := sorted[..TRACKED_SURFACES];
    }

    /** handle_queuebuffer_frame_signal. */
    method HandleFrameSignal(tgid: int, key: nat, ktime: nat, nowMs: int)
      modifies this
      ensures Signalled(old(State()), tgid, key, ktime, nowMs, State())
    {
      hide Pruned, Smoothed;
      if pid <= 0 {
        return;
      }
      if tgid != pid {
        return;
      }
      var found := FindSurface(key);
      var i;
      if found.Some? {
        i := found.value;
      } else {
        i := |surfaces|;
        surfaces := surfaces + [NewSurface(key, |log|)];
      }
      var s := surfaces[i];
      if s.lastKtime > 0 && ktime > s.lastKtime {
        var ns := ktime - s.lastKtime;
        s := s.(interval := Smoothed(s.interval, ns));
        if ns >= 1_000_000 && ns <= 200_000_000 {
          var f := Frame(ns as real / 1_000_000.0, |log|);
          if |s.frames| >= QUEUE_LIMIT {
            s := s.(frames := s.frames[1..]);
          }
          s := s.(frames := s.frames + [f], history := s.history + [f]);
          s := s.(lastWallMs := nowMs);
          s := s.(accepted := s.accepted + 1);
          log := log + [f];
        }
      }
      s := s.(lastKtime := ktime);
      s := s.(lastSeenKtime := ktime);
      surfaces := surfaces[i := s];
      Prune(ktime);
    }

    /** select_primary_queuebuffer_surface. */
    method SelectPrimary(nowMs: int) returns (chosen: Option<nat>)
      modifies this`primaryKey
      ensures (chosen, primaryKey) == Select(surfaces, old(primaryKey), nowMs)
    {
      var best: Option<nat> := None;
      var n := 0;
      while n < |surfaces|
        invariant 0 <= n <= |surfaces| && primaryKey == old(primaryKey)
        invariant best == Best(surfaces, n, nowMs)
      {
        if Live(surfaces[n], nowMs) {
          if best.None? {
            best := Some(n);
          } else if surfaces[n].accepted > surfaces[best.value].accepted {
            best := Some(n);
          } else if NotFarBehind(surfaces[n], surfaces[best.value])
                    && surfaces[n].interval > 0.0 && surfaces[best.value].interval > 0.0
                    && surfaces[n].interval < surfaces[best.value].interval {
            best := Some(n);
          }
        }
        n := n + 1;
      }
      if best.None? {
        primaryKey := 0;
        return None;
      }
      var sticky := FindSurface(primaryKey);
      if sticky.Some? && sticky.value != best.value && Live(surfaces[sticky.value], nowMs)
         && NotFarBehind(surfaces[sticky.value], surfaces[best.value]) {
        return sticky;
      }
      primaryKey := surfaces[best.value].key;
      return best;
    }

    /** reset_queuebuffer_frame_cache. */
    method Reset(newPid: int, newPackage: string)
      modifies this
      ensures State() == Table([], 0, newPid, newPackage, old(log))
    {
      surfaces := [];
      primaryKey := 0;
      pid := newPid;
      package := newPackage;
    }
  }

  class Cursor {
    var seen: nat
    var key: nat
    /** The frames given to fas_engine_push_frame. */
    var engine: seq<Frame>

    constructor ()
      ensures State() == Started().consumer
    {
      seen, key, engine := 0, 0, [];
    }

    function State(): Consumer
      reads this
    {
      Consumer(seen, key, engine)
    }

    method Pause()
      modifies this
      ensures State() == old(State()).(seen := 0, key := 0)
    {
      seen, key := 0, 0;
    }

    /** sync_fas_engine_queuebuffer_samples, with the surface table locked. */
    method Sync(cache: Cache, package: string, selectMs: int, nowMs: int)
      modifies this, cache`primaryKey
      ensures (cache.State(), State()) == Synced(old(cache.State()), old(State()), package, selectMs, nowMs)
    {
      hide Select;
      if package == "" || package != cache.package {
        return;
      }
      var chosen := cache.SelectPrimary(selectMs);
      if chosen.None? {
        return;
      }
      var s := cache.surfaces[chosen.value];
      if s.lastWallMs <= 0 || nowMs - s.lastWallMs > SAMPLE_FRESH_MS {
        return;
      }
      Take(s);
    }

    /** The part of the sync that moves the cursor and pushes. */
    method Take(s: Surface)
      modifies this
      ensures State() == Consume(old(State()), s)
    {
      if s.key != key {
        key := s.key;
        seen := s.accepted;
        return;
      }
      var total, size := s.accepted, |s.frames|;
      if total == 0 || size == 0 {
        return;
      }
      var first := if total > size then total - size else 0;
      if seen < first {
        seen := first;
      }
      if seen > total {
        seen := total;
      }
      PushFrames(s.frames, seen - first, total - first);
      seen := total;
    }

    /** The loop that pushes what the cursor has not passed. */
    method PushFrames(frames: seq<Frame>, from: nat, to: nat)
      requires from <= to <= |frames|
      modifies this`engine
      ensures engine == old(engine) + frames[from..to]
    {
      var slot := from;
      assert engine + frames[from..slot] == engine;
      while slot < to
        invariant from <= slot <= to
        invariant engine == old(engine) + frames[from..slot]
      {
        assert frames[from..slot + 1] == frames[from..slot] + [frames[slot]];
        engine := engine + [frames[slot]];
        slot := slot + 1;
      }
    }
  }
}
