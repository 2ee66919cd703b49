/** What one call of schedule() on one CPU does to the threads, and when it chooses one. */
module SchedulerEffects {
  import opened Options
  import opened SchedulerTypes
  import opened SchedulerSelection

  // ----- when a thread is found

  /** A search from (l, high) that finds nothing scans list `m` twice. */
  predicate ScansTwice(l: nat, high: nat, m: nat) {
    high == 0 && (m == 3 || (l != 3 && m <= l))
  }

  /**
   A thread of list `m` that a search from (l, high) can choose: it is runnable, or the first of two scans
   of its list gives it its slices back.
   */
  predicate Eligible(t: Thread, cpu: nat, l: nat, high: nat, m: nat) {
    && WillScan(l, high, m)
    && (ThreadCanRun(t, cpu) || (ScansTwice(l, high, m) && ThreadCanRun(Scanned(t), cpu)))
  }

  ghost predicate NoneEligible(threads: seq<Thread>, lists: seq<seq<nat>>, cpu: nat, l: nat, high: nat)
    requires ListsOk(lists, |threads|)
  {
    forall m: nat, k: nat :: m < 4 && k < |lists[m]| ==> !Eligible(threads[lists[m][k]], cpu, l, high, m)
  }

  /** Scanning a list that holds nothing runnable leaves the same threads to be chosen later. */
  lemma EligibleLater(threads: seq<Thread>, lists: seq<seq<nat>>, cpu: nat, l: nat, high: nat, m: nat, k: nat)
    requires ListsOk(lists, |threads|) && l < 4 && high < 2 && m < 4 && k < |lists[m]|
    requires Oldest(threads, lists[l], cpu).None? && (l == 3 ==> high == 0)
    ensures var scanned := ScanAll(threads, lists[l]);
      Eligible(threads[lists[m][k]], cpu, l, high, m) <==>
      Eligible(scanned[lists[m][k]], cpu, PrevList(l), if l == 3 then high + 1 else high, m)
  {
    var u := lists[m][k];
    ScanAllAt(threads, lists[l], u);
    OldestIsOldest(threads, lists[l], cpu);
    assert u in lists[m];
    if m == l {
      assert !ThreadCanRun(threads[lists[l][k]], cpu);
    } else {
      assert u !in lists[l];
    }
  }

  /** A search finds a thread if and only if some thread can be chosen. */
  lemma {:induction false} FindsIff(threads: seq<Thread>, lists: seq<seq<nat>>, cpu: nat, l: nat, high: nat)
    requires ListsOk(lists, |threads|) && l < 4 && high < 2
    ensures Search(threads, lists, cpu, l, high).1.None? <==> NoneEligible(threads, lists, cpu, l, high)
    decreases ScansLeft(l, high)
  {
    var best, high' := Oldest(threads, lists[l], cpu), if l == 3 then high + 1 else high;
    OldestIsOldest(threads, lists[l], cpu);
    if best.Some? {
      var k :| 0 <= k < |lists[l]| && lists[l][k] == best.value;
      assert Eligible(threads[lists[l][k]], cpu, l, high, l);
    } else if high' == 2 {
      LastScan(threads, lists, cpu);
    } else {
      var scanned := ScanAll(threads, lists[l]);
      FindsIff(scanned, lists, cpu, PrevList(l), high');
      forall m: nat, k: nat | m < 4 && k < |lists[m]|
        ensures Eligible(threads[lists[m][k]], cpu, l, high, m) <==>
          Eligible(scanned[lists[m][k]], cpu, PrevList(l), high', m)
      {
        EligibleLater(threads, lists, cpu, l, high, m, k);
      }
    }
  }

  lemma LastScan(threads: seq<Thread>, lists: seq<seq<nat>>, cpu: nat)
    requires ListsOk(lists, |threads|) && IsOldest(threads, lists[3], cpu, None)
    ensures NoneEligible(threads, lists, cpu, 3, 1)
  {
    forall m: nat, k: nat | m < 4 && k < |lists[m]| ensures !Eligible(threads[lists[m][k]], cpu, 3, 1, m) {
      if m == 3 { assert !ThreadCanRun(threads[lists[3][k]], cpu); }
    }
  }

  const EXHAUSTED := Thread(Status(false, true, false, false, true, false), 2, 2, 0, {0}, {0})

  /** A thread that could not run when the search began can be found: the first scan recharges it. */
  lemma RechargedWitness()
    ensures !ThreadCanRun(EXHAUSTED, 0) && ListsOk([[], [], [], [0]], 1)
    ensures Search([EXHAUSTED], [[], [], [], [0]], 0, 3, 0).1.Some?
  {
    var lists: seq<seq<nat>> := [[], [], [], [0]];
    FindsIff([EXHAUSTED], lists, 0, 3, 0);
    assert Scanned(EXHAUSTED) == Thread(READY, 2, 0, 0, {0}, {0});
    assert Eligible([EXHAUSTED][lists[3][0]], 0, 3, 0, 3);
  }

  // ----- what a call leaves

  /** The thread found by a search is in a list and can run. */
  lemma {:induction false} FoundRuns(threads: seq<Thread>, lists: seq<seq<nat>>, cpu: nat, l: nat, high: nat)
    requires ListsOk(lists, |threads|) && l < 4 && high < 2
    ensures var (threads', r) := Search(threads, lists, cpu, l, high);
      r.Some? ==> Listed(lists, r.value) && ThreadCanRun(threads'[r.value], cpu)
    decreases ScansLeft(l, high)
  {
    var best, high' := Oldest(threads, lists[l], cpu), if l == 3 then high + 1 else high;
    if best.Some? {
      ScanAllAt(threads, lists[l], best.value);
    } else if high' < 2 {
      FoundRuns(ScanAll(threads, lists[l]), lists, cpu, PrevList(l), high');
    }
  }

  /** What the search starts with: a thread that ran is stamped and ready, and callbacks have cleared BLOCKED. */
  lemma ReadyAt(s: Sched, wake: set<nat>, u: nat)
    requires Valid(s) && u < |s.threads|
    ensures var t, r := s.threads[u], Ready(s, wake)[u];
      && r.priority == t.priority && r.timeSlice == t.timeSlice && r.ogAffinity == t.ogAffinity
      && r.status.dead == t.status.dead && r.status.paused == t.status.paused && r.status.recharge == t.status.recharge
      && r.status.blocked == (t.status.blocked && !(Listed(s.lists, u) && u in wake))
      && r.lastPreempted == (if s.current == Some(u) then s.ticks + 1 else t.lastPreempted)
      && r.affinity == (if s.current == Some(u) then t.ogAffinity else t.affinity)
      && r.status.running == (t.status.running && s.current != Some(u))
      && r.status.canRun == (t.status.canRun || (s.current == Some(u) && !t.status.dead))
  {
    WokenAt(Stopped(s.threads, s.current, s.ticks + 1), s.lists, wake, u);
  }

  /**
   A call that chooses: it runs a listed thread that can run, if there is one to choose, and the idle
   thread otherwise. The thread it runs is marked running and pinned to the CPU; if it is another one
   than before, it has used up one more slice. All other threads are left as the search left them.
   */
  lemma CallChooses(s: Sched, wake: set<nat>)
    requires Valid(s) && !IdleWaits(s)
    ensures var ready, l, s' := Ready(s, wake), StartList(s), Schedule(s, wake);
      var searched := Search(ready, s.lists, CPU, l, 0).0;
      && s'.current.Some? && s'.current.value < |s.threads|
      && var t := s'.current.value;
      && (if NoneEligible(ready, s.lists, CPU, l, 0) then t == s.idle
          else Listed(s.lists, t) && ThreadCanRun(searched[t], CPU))
      && s'.threads[t].timeSlice == searched[t].timeSlice + (if s.current == Some(t) then 0 else 1)
      && s'.threads[t].status == searched[t].status.(canRun := false, running := true)
      && s'.threads[t].affinity == {0} && s'.threads[t].ogAffinity == searched[t].ogAffinity
      && s'.threads[t].lastPreempted == searched[t].lastPreempted && s'.threads[t].priority == searched[t].priority
      && (forall u :: 0 <= u < |s.threads| && u != t ==> s'.threads[u] == searched[u])
  {
    var ready, l := Ready(s, wake), StartList(s);
    FindsIff(ready, s.lists, CPU, l, 0);
    FoundRuns(ready, s.lists, CPU, l, 0);
  }
}
