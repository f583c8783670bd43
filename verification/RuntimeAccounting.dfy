/**
 * Per-thread run time from sched_switch events: each CPU remembers when it last switched, and a
 * switch charges the thread it ends with the time since then, if the thread belongs to the target.
 */
module RuntimeAccounting {
  import opened Wrappers

  /** One switch: the thread that stops, its process, and the thread that starts. */
  datatype Switch = Switch(cpu: nat, prev: nat, prevTgid: nat, next: nat, now: nat)

  /** A switch, and what the target was when it was handled; user space changes it at any time. */
  datatype Event = Event(target: nat, s: Switch)

  /** The per-CPU time stamps and the per-thread totals; a missing entry reads as zero. */
  datatype Maps = Maps(lastTs: map<nat, nat>, runtime: map<nat, nat>)

  function Get(m: map<nat, nat>, k: nat): nat {
    if k in m then m[k] else 0
  }

  /** handle_sched_switch. */
  function Handle(m: Maps, target: nat, s: Switch): Maps {
    if target == 0 then m
    else
      var last := Get(m.lastTs, s.cpu);
      var charged :=
        if s.prevTgid == target && last > 0 && s.now > last then
          m.(runtime := m.runtime[s.prev := Get(m.runtime, s.prev) + (s.now - last)])
        else m;
      charged.(lastTs := charged.lastTs[s.cpu := s.now])
  }

  function After(events: seq<Event>): Maps {
    if events == [] then Maps(map[], map[])
    else Handle(After(Earlier(events)), Latest(events).target, Latest(events).s)
  }

  function Earlier(events: seq<Event>): seq<Event>
    requires events != []
  {
    events[..|events| - 1]
  }

  function Latest(events: seq<Event>): Event
    requires events != []
  {
    events[|events| - 1]
  }

  // ---- What really ran ----

  /** When the CPU switched last in these events. */
  function LastSwitch(events: seq<Event>, cpu: nat): Option<Event> {
    if events == [] then None
    else if Latest(events).s.cpu == cpu then Some(Latest(events))
    else LastSwitch(Earlier(events), cpu)
  }

  function FirstSwitch(events: seq<Event>, cpu: nat): Option<Event> {
    if events == [] then None
    else if events[0].s.cpu == cpu then Some(events[0])
    else FirstSwitch(events[1..], cpu)
  }

  /** On every CPU time does not go back, and the thread that stops is the one that was started. */
  predicate Scheduled(events: seq<Event>) {
    events != [] ==>
      var s := Latest(events).s;
      var before := LastSwitch(Earlier(events), s.cpu);
      && s.now > 0
      && (before.Some? ==> before.value.s.now <= s.now && before.value.s.next == s.prev)
      && Scheduled(Earlier(events))
  }

  /** No CPU switches twice at the same time. */
  predicate Advancing(events: seq<Event>) {
    events != [] ==>
      var before := LastSwitch(Earlier(events), Latest(events).s.cpu);
      (before.Some? ==> before.value.s.now < Latest(events).s.now) && Advancing(Earlier(events))
  }

  /** The latest switch ends a slice of its target. */
  predicate OfTarget(e: Event) {
    e.target != 0 && e.s.prevTgid == e.target
  }

  /** The slice that the latest switch completes: from when its CPU switched to the thread. */
  function Slice(events: seq<Event>): int
    requires events != []
  {
    var s := Latest(events).s;
    match LastSwitch(Earlier(events), s.cpu)
    case None => 0
    case Some(start) => s.now - start.s.now
  }

  /** The completed slices of a thread while its process was the target, on all CPUs. */
  function Slices(events: seq<Event>, tid: nat): int {
    if events == [] then 0
    else
      Slices(Earlier(events), tid)
      + (if Latest(events).s.prev == tid && OfTarget(Latest(events)) then Slice(events) else 0)
  }

  // ---- What the handler charges ----

  /** What handling the latest switch adds to the total of the thread it stops. */
  function Charged(events: seq<Event>): int
    requires events != []
  {
    var tid := Latest(events).s.prev;
    Get(After(events).runtime, tid) - Get(After(Earlier(events)).runtime, tid)
  }

  /** What the switches of one CPU have added. */
  function ChargedOn(events: seq<Event>, cpu: nat): int {
    if events == [] then 0
    else ChargedOn(Earlier(events), cpu) + (if Latest(events).s.cpu == cpu then Charged(events) else 0)
  }

  /** The completed slices of one CPU that are charged to nobody. */
  function UnchargedOn(events: seq<Event>, cpu: nat): int {
    if events == [] then 0
    else
      UnchargedOn(Earlier(events), cpu)
      + (if Latest(events).s.cpu == cpu && !OfTarget(Latest(events)) then Slice(events) else 0)
  }

  /** The switch that began the latest slice was handled while there was a target, if it was seen at all. */
  predicate StartHandled(events: seq<Event>)
    requires events != []
  {
    var start := LastSwitch(Earlier(events), Latest(events).s.cpu);
    start.Some? ==> start.value.target != 0
  }

  /** The last switch of the CPU that was handled while there was a target: the one its stamp is from. */
  function LastHandled(events: seq<Event>, cpu: nat): (r: Option<Event>)
    ensures r.Some? ==> r.value.target != 0 && r.value.s.cpu == cpu
  {
    if events == [] then None
    else if Latest(events).s.cpu == cpu && Latest(events).target != 0 then Some(Latest(events))
    else LastHandled(Earlier(events), cpu)
  }

  /** Each CPU remembers the time of its last handled switch, which is no later than its last. */
  lemma {:induction false} StampsFollow(events: seq<Event>, cpu: nat)
    requires Scheduled(events)
    ensures Get(After(events).lastTs, cpu) == (match LastHandled(events, cpu) case None => 0 case Some(e) => e.s.now)
    ensures LastHandled(events, cpu).Some? ==> LastHandled(events, cpu).value.s.now > 0 && LastSwitch(events, cpu).Some?
    ensures LastSwitch(events, cpu).Some? && LastHandled(events, cpu).Some? ==>
              LastHandled(events, cpu).value.s.now <= LastSwitch(events, cpu).value.s.now
              && (Advancing(events) && LastSwitch(events, cpu).value.target == 0 ==>
                    LastHandled(events, cpu).value.s.now < LastSwitch(events, cpu).value.s.now)
    ensures LastSwitch(events, cpu).Some? && LastSwitch(events, cpu).value.target != 0 ==>
              LastHandled(events, cpu) == LastSwitch(events, cpu)
  {
    if events != [] {
      StampsFollow(Earlier(events), cpu);
    }
  }

  /**
   * Exactly the slice just completed is charged if the switch that began it was handled while there
   * was a target, and only then, as long as time advances between the switches of a CPU.
   */
  lemma ChargedIsSlice(events: seq<Event>)
    requires Scheduled(events) && events != [] && OfTarget(Latest(events))
    ensures StartHandled(events) ==> Charged(events) == Slice(events)
    ensures Advancing(events) ==> (Charged(events) == Slice(events) <==> StartHandled(events))
  {
    StampsFollow(Earlier(events), Latest(events).s.cpu);
  }

  /**
   * What is charged in every case: the time since the CPU's last handled switch, which is too much
   * when switches without a target came between, and nothing when all its switches were such.
   */
  lemma ChargedSinceStamp(events: seq<Event>)
    requires Scheduled(events) && events != []
    ensures Charged(events)
         == if !OfTarget(Latest(events)) then 0
            else match LastHandled(Earlier(events), Latest(events).s.cpu)
                 case None => 0
                 case Some(e) => Latest(events).s.now - e.s.now
    ensures Advancing(events) && OfTarget(Latest(events)) && !StartHandled(events) ==>
              if LastHandled(Earlier(events), Latest(events).s.cpu).Some? then Charged(events) > Slice(events)
              else Charged(events) == 0 < Slice(events)
  {
    StampsFollow(Earlier(events), Latest(events).s.cpu);
  }

  // ---- Conservation ----

  /** Every slice charged so far began with a handled switch. */
  predicate AllStartsHandled(events: seq<Event>) {
    events != [] ==> (OfTarget(Latest(events)) ==> StartHandled(events)) && AllStartsHandled(Earlier(events))
  }

  /** With targets that may change, each thread's total is the sum of its completed slices if all began handled. */
  lemma {:induction false} TotalsAreSlices(events: seq<Event>, tid: nat)
    requires Scheduled(events) && AllStartsHandled(events)
    ensures Get(After(events).runtime, tid) == Slices(events, tid)
  {
    if events != [] {
      TotalsAreSlices(Earlier(events), tid);
      OthersKeep(events, tid);
      if OfTarget(Latest(events)) {
        ChargedIsSlice(events);
      } else {
        ChargedSinceStamp(events);
      }
    }
  }

  lemma OthersKeep(events: seq<Event>, tid: nat)
    requires events != []
    ensures Get(After(events).runtime, tid)
         == Get(After(Earlier(events)).runtime, tid) + (if Latest(events).s.prev == tid then Charged(events) else 0)
  {
  }

  /** While there is always a target, the same one or not, every start is handled. */
  lemma {:induction false} AlwaysTargeted(events: seq<Event>)
    requires forall e :: e in events ==> e.target != 0
    ensures AllStartsHandled(events)
    ensures forall cpu :: LastSwitch(events, cpu).Some? ==> LastSwitch(events, cpu).value.target != 0
  {
    if events != [] {
      assert forall e :: e in Earlier(events) ==> e in events;
      AlwaysTargeted(Earlier(events));
    }
  }

  lemma {:induction false} FirstOfMore(events: seq<Event>, e: Event, cpu: nat)
    ensures FirstSwitch(events + [e], cpu)
         == if FirstSwitch(events, cpu).Some? then FirstSwitch(events, cpu)
            else if e.s.cpu == cpu then Some(e)
            else None
  {
    if events == [] {
      assert ([e])[1..] == [];
    } else {
      assert (events + [e])[1..] == events[1..] + [e];
      FirstOfMore(events[1..], e, cpu);
    }
  }

  /** On every CPU what is charged and the slices charged to nobody make up its last minus its first time stamp. */
  lemma {:induction false} CpuTimeTelescopes(events: seq<Event>, cpu: nat)
    requires Scheduled(events) && AllStartsHandled(events)
    ensures FirstSwitch(events, cpu).Some? <==> LastSwitch(events, cpu).Some?
    ensures ChargedOn(events, cpu) + UnchargedOn(events, cpu)
         == (match LastSwitch(events, cpu)
             case None => 0
             case Some(e) => e.s.now - FirstSwitch(events, cpu).value.s.now)
  {
    if events != [] {
      CpuTimeTelescopes(Earlier(events), cpu);
      FirstOfMore(Earlier(events), Latest(events), cpu);
      assert events == Earlier(events) + [Latest(events)];
      if OfTarget(Latest(events)) {
        ChargedIsSlice(events);
      } else {
        ChargedSinceStamp(events);
      }
    }
  }

  /**
   * Whatever the targets do, a CPU is charged at most the time from its first switch to its last
   * handled one, so never more than has passed.
   */
  lemma {:induction false} ChargedWithinTime(events: seq<Event>, cpu: nat)
    requires Scheduled(events)
    ensures LastHandled(events, cpu).Some? ==> FirstSwitch(events, cpu).Some?
    ensures 0 <= ChargedOn(events, cpu)
         <= (match LastHandled(events, cpu)
             case None => 0
             case Some(e) => e.s.now - FirstSwitch(events, cpu).value.s.now)
    ensures FirstSwitch(events, cpu).Some? ==>
              LastSwitch(events, cpu).Some?
              && FirstSwitch(events, cpu).value.s.now <= LastSwitch(events, cpu).value.s.now
  {
    if events != [] {
      ChargedWithinTime(Earlier(events), cpu);
      FirstOfMore(Earlier(events), Latest(events), cpu);
      assert events == Earlier(events) + [Latest(events)];
      ChargedSinceStamp(events);
      StampsFollow(Earlier(events), cpu);
    }
  }

  /** The totals of the first n threads. */
  function ThreadTotals(runtime: map<nat, nat>, n: nat): nat {
    if n == 0 then 0 else ThreadTotals(runtime, n - 1) + Get(runtime, n - 1)
  }

  /** What the first n CPUs have charged. */
  function CpuTotals(events: seq<Event>, n: nat): int {
    if n == 0 then 0 else CpuTotals(events, n - 1) + ChargedOn(events, n - 1)
  }

  lemma {:induction false} ThreadTotalsStep(events: seq<Event>, n: nat)
    requires events != []
    ensures ThreadTotals(After(events).runtime, n)
         == ThreadTotals(After(Earlier(events)).runtime, n) + (if Latest(events).s.prev < n then Charged(events) else 0)
  {
    if n > 0 {
      ThreadTotalsStep(events, n - 1);
      OthersKeep(events, n - 1);
    }
  }

  lemma {:induction false} CpuTotalsStep(events: seq<Event>, n: nat)
    requires events != []
    ensures CpuTotals(events, n) == CpuTotals(Earlier(events), n)
            + (if Latest(events).s.cpu < n then Charged(events) else 0)
  {
    if n > 0 {
      CpuTotalsStep(events, n - 1);
    }
  }

  lemma {:induction false} NothingYet(n: nat)
    ensures ThreadTotals(map[], n) == 0 && CpuTotals([], n) == 0
  {
    if n > 0 {
      NothingYet(n - 1);
    }
  }

  /** In every run, whatever the target does, the totals of all threads are what all CPUs have charged. */
  lemma {:induction false} ThreadsEqualCpus(events: seq<Event>, tids: nat, cpus: nat)
    requires forall e :: e in events ==> e.s.prev < tids && e.s.cpu < cpus
    ensures ThreadTotals(After(events).runtime, tids) == CpuTotals(events, cpus)
  {
    if events == [] {
      NothingYet(tids);
      NothingYet(cpus);
    } else {
      assert forall e :: e in Earlier(events) ==> e in events;
      ThreadsEqualCpus(Earlier(events), tids, cpus);
      ThreadTotalsStep(events, tids);
      CpuTotalsStep(events, cpus);
    }
  }

  // ---- A gap in the target ----

  /** Thread 7 of process 5 starts at time 20 in a gap after a handled switch at 10: 20 ns are charged for 10. */
  lemma GapOvercharges()
    ensures var events := [Event(5, Switch(0, 1, 1, 2, 10)), Event(0, Switch(0, 2, 2, 7, 20)),
                           Event(5, Switch(0, 7, 5, 1, 30))];
            Scheduled(events) && Slice(events) == 10 && Charged(events) == 20
  {
    var e0, e1, e2 := Event(5, Switch(0, 1, 1, 2, 10)), Event(0, Switch(0, 2, 2, 7, 20)),
      Event(5, Switch(0, 7, 5, 1, 30));
    assert Earlier([e0, e1, e2]) == [e0, e1] && Earlier([e0, e1]) == [e0] && Earlier([e0]) == [];
    assert Scheduled([e0]) && Scheduled([e0, e1]);
    assert LastHandled([e0], 0) == Some(e0) && LastHandled([e0, e1], 0) == Some(e0);
    ChargedSinceStamp([e0, e1, e2]);
  }

  /** When the CPU had no handled switch before the gap, the same slice is not charged at all. */
  lemma GapUndercharges()
    ensures var events := [Event(0, Switch(0, 2, 2, 7, 20)), Event(5, Switch(0, 7, 5, 1, 30))];
            Scheduled(events) && Slice(events) == 10 && Charged(events) == 0
  {
    var e1, e2 := Event(0, Switch(0, 2, 2, 7, 20)), Event(5, Switch(0, 7, 5, 1, 30));
    assert Earlier([e1, e2]) == [e1] && Earlier([e1]) == [];
    assert Scheduled([e1]);
    assert LastHandled([e1], 0) == LastHandled([], 0) == None;
    ChargedSinceStamp([e1, e2]);
  }

  class Accounting {
    var targetTgid: nat
    var lastTs: map<nat, nat>
    var runtime: map<nat, nat>

    constructor (target: nat)
      ensures targetTgid == target && State() == Maps(map[], map[])
    {
      targetTgid, lastTs, runtime := target, map[], map[];
    }

    function State(): Maps
      reads this
    {
      Maps(lastTs, runtime)
    }

    method HandleSchedSwitch(s: Switch)
      modifies this`lastTs, this`runtime
      ensures State() == Handle(old(State()), targetTgid, s)
    {
      if targetTgid == 0 {
        return;
      }
      if s.prevTgid == targetTgid {
        var last := if s.cpu in lastTs then lastTs[s.cpu] else 0;
        if last > 0 && s.now > last {
          var ran := s.now - last;
          if s.prev in runtime {
            runtime := runtime[s.prev := runtime[s.prev] + ran];
          } else {
            runtime := runtime[s.prev := ran];
          }
        }
      }
      lastTs := lastTs[s.cpu := s.now];
    }
  }
}
