/** How schedule() chooses the next thread, on the boot CPU of a machine with one CPU. */
module SchedulerSelection {
  import opened Options
  import opened SchedulerTypes
  import opened SchedulerRoundRobin
  import LinkedList

  /** The boot CPU, which also counts the timer ticks. */
  const CPU: nat := 0

  datatype Sched = Sched(
    threads: seq<Thread>,
    lists: seq<seq<nat>>,   // run lists, tail to head
    iterations: seq<nat>,
    current: Option<nat>,
    idle: nat,
    ticks: nat)

  ghost predicate ListsOk(lists: seq<seq<nat>>, n: nat) {
    && |lists| == 4
    && (forall l :: 0 <= l < 4 ==> InRange(lists[l], n) && LinkedList.PairsDiffer(lists[l]))
    && (forall l, m, t :: 0 <= l < m < 4 && t in lists[l] ==> t !in lists[m])
  }

  ghost predicate Valid(s: Sched) {
    && ListsOk(s.lists, |s.threads|) && |s.iterations| == 4
    && s.lists[0] != []
    && s.idle < |s.threads| && (s.current.Some? ==> s.current.value < |s.threads|)
    && (forall t :: 0 <= t < |s.threads| ==> s.threads[t].lastPreempted <= s.ticks)
    && (forall t :: 0 <= t < |s.threads| && s.threads[t].status.running ==> s.current == Some(t))
  }

  // ----- one list

  /** What a scan leaves of a thread: an exhausted thread is marked, a marked one gets its slices back. */
  function Scanned(t: Thread): Thread {
    var marked := if t.timeSlice >= t.priority then t.(status := t.status.(recharge := true)) else t;
    if t.status.recharge then marked.(status := marked.status.(recharge := false), timeSlice := 0) else marked
  }

  function ScanAll(threads: seq<Thread>, list: seq<nat>): (r: seq<Thread>)
    requires InRange(list, |threads|)
    ensures |r| == |threads|
  {
    if list == [] then threads
    else
      var t := list[|list| - 1];
      var r := ScanAll(threads, list[..|list| - 1]);
      r[t := Scanned(r[t])]
  }

  predicate InRange(list: seq<nat>, n: nat) {
    forall k :: 0 <= k < |list| ==> list[k] < n
  }

  /** `r` is the runnable thread of the list that was preempted longest ago, the first of these in list order. */
  ghost predicate IsOldest(threads: seq<Thread>, list: seq<nat>, cpu: nat, r: Option<nat>)
    requires InRange(list, |threads|)
  {
    match r
    case None => forall j :: 0 <= j < |list| ==> !ThreadCanRun(threads[list[j]], cpu)
    case Some(t) =>
      && t < |threads| && ThreadCanRun(threads[t], cpu)
      && exists k :: 0 <= k < |list| && list[k] == t && Leads(threads, list, cpu, k)
  }

  /** No runnable thread of the list was preempted before the one at `k`, and none before it in the list as early. */
  ghost predicate Leads(threads: seq<Thread>, list: seq<nat>, cpu: nat, k: nat)
    requires InRange(list, |threads|) && k < |list|
  {
    forall j :: 0 <= j < |list| ==> LeadsAt(threads, list, cpu, k, j)
  }

  predicate LeadsAt(threads: seq<Thread>, list: seq<nat>, cpu: nat, k: nat, j: nat)
    requires k < |list| && j < |list| && list[k] < |threads| && list[j] < |threads|
  {
    ThreadCanRun(threads[list[j]], cpu) ==>
      if j < k then threads[list[k]].lastPreempted < threads[list[j]].lastPreempted
      else threads[list[k]].lastPreempted <= threads[list[j]].lastPreempted
  }

  function Oldest(threads: seq<Thread>, list: seq<nat>, cpu: nat): (r: Option<nat>)
    requires InRange(list, |threads|)
    ensures r.Some? ==> r.value in list && ThreadCanRun(threads[r.value], cpu)
  {
    if list == [] then None
    else
      var n := |list| - 1;
      var best := Oldest(threads, list[..n], cpu);
      if ThreadCanRun(threads[list[n]], cpu)
         && (best.None? || threads[list[n]].lastPreempted < threads[best.value].lastPreempted)
      then Some(list[n]) else best
  }

  lemma {:induction false} ScanAllAt(threads: seq<Thread>, list: seq<nat>, u: nat)
    requires InRange(list, |threads|) && LinkedList.PairsDiffer(list) && u < |threads|
    ensures ScanAll(threads, list)[u] == if u in list then Scanned(threads[u]) else threads[u]
  {
    if list != [] {
      var n := |list| - 1;
      ScanAllAt(threads, list[..n], u);
      assert list == list[..n] + [list[n]];
      assert list[n] !in list[..n];
    }
  }

  /** One more thread in a scan. */
  lemma ScanStep(threads: seq<Thread>, list: seq<nat>, k: nat)
    requires InRange(list, |threads|) && LinkedList.PairsDiffer(list) && k < |list|
    ensures InRange(list[..k], |threads|)
    ensures var scanned, t := ScanAll(threads, list[..k]), list[k];
      scanned[t] == threads[t] && ScanAll(threads, list[..k + 1]) == scanned[t := Scanned(threads[t])]
  {
    assert list[..k + 1][..k] == list[..k];
    ScanAllAt(threads, list[..k], list[k]);
    assert list[k] !in list[..k];
  }

  lemma OldestStep(threads: seq<Thread>, list: seq<nat>, cpu: nat, k: nat)
    requires InRange(list, |threads|) && LinkedList.PairsDiffer(list) && k < |list|
    ensures var scanned, best, t := ScanAll(threads, list[..k]), Oldest(threads, list[..k], cpu), list[k];
      && (best.Some? ==>
            best.value < |threads| && scanned[best.value].lastPreempted == threads[best.value].lastPreempted)
      && Oldest(threads, list[..k + 1], cpu) ==
           if ThreadCanRun(threads[t], cpu)
              && (best.None? || threads[t].lastPreempted < threads[best.value].lastPreempted)
           then Some(t) else best
  {
    assert list[..k + 1][..k] == list[..k];
    var best := Oldest(threads, list[..k], cpu);
    if best.Some? { ScanAllAt(threads, list[..k], best.value); }
  }

  lemma {:induction false} OldestIsOldest(threads: seq<Thread>, list: seq<nat>, cpu: nat)
    requires InRange(list, |threads|)
    ensures IsOldest(threads, list, cpu, Oldest(threads, list, cpu))
  {
    if list != [] {
      var n := |list| - 1;
      OldestIsOldest(threads, list[..n], cpu);
      var best, r := Oldest(threads, list[..n], cpu), Oldest(threads, list, cpu);
      if r.Some? {
        var k := n;
        if r == best {
          k :| 0 <= k < n && list[..n][k] == r.value && Leads(threads, list[..n], cpu, k);
        }
        forall j | 0 <= j < |list| ensures LeadsAt(threads, list, cpu, k, j) {
          if j < n {
            assert list[..n][j] == list[j];
            if r == best { assert LeadsAt(threads, list[..n], cpu, k, j); }
            else if best.Some? {
              var m :| 0 <= m < n && list[..n][m] == best.value && Leads(threads, list[..n], cpu, m);
              assert LeadsAt(threads, list[..n], cpu, m, j);
            }
          }
        }
        assert Leads(threads, list, cpu, k);
      } else {
        assert forall j :: 0 <= j < n ==> list[..n][j] == list[j];
      }
    }
  }

  // ----- all lists

  /** How many scans a search that is about to scan list `l` makes at most. */
  function ScansLeft(l: nat, high: nat): nat {
    (if high == 0 then 4 else 0) + if l == 3 then 1 else l + 2
  }

  /** Scans from list `l` on; `high` counts the failed scans of list 3. None is the idle thread. */
  function Search(threads: seq<Thread>, lists: seq<seq<nat>>, cpu: nat, l: nat, high: nat)
    : (r: (seq<Thread>, Option<nat>))
    requires ListsOk(lists, |threads|) && l < 4 && high < 2
    ensures |r.0| == |threads| && (r.1.Some? ==> r.1.value < |threads|)
    decreases ScansLeft(l, high)
  {
    assert InRange(lists[l], |threads|);
    var scanned := ScanAll(threads, lists[l]);
    var best := Oldest(threads, lists[l], cpu);
    var high' := if l == 3 then high + 1 else high;
    if best.Some? || high' == 2 then (scanned, best) else Search(scanned, lists, cpu, PrevList(l), high')
  }

  lemma SearchStep(threads: seq<Thread>, lists: seq<seq<nat>>, cpu: nat, l: nat, high: nat)
    requires ListsOk(lists, |threads|) && l < 4 && high < 2
    ensures InRange(lists[l], |threads|) && LinkedList.PairsDiffer(lists[l])
    ensures var scanned, best, high' :=
        ScanAll(threads, lists[l]), Oldest(threads, lists[l], cpu), if l == 3 then high + 1 else high;
      Search(threads, lists, cpu, l, high)
        == if best.Some? || high' == 2 then (scanned, best) else Search(scanned, lists, cpu, PrevList(l), high')
  {
    assert InRange(lists[l], |threads|);
  }

  /** Lists that a search from (l, high) is bound to scan if it finds nothing. */
  predicate WillScan(l: nat, high: nat, m: nat) {
    m < 4 && (high == 0 || m == 3 || (l != 3 && m <= l))
  }

  /** A search falls back to the idle thread only if no thread of any list was runnable. */
  lemma {:induction false} FallBackOnlyIfNone(threads: seq<Thread>, lists: seq<seq<nat>>, cpu: nat, l: nat, high: nat,
                                              m: nat, k: nat)
    requires ListsOk(lists, |threads|) && l < 4 && high < 2
    requires Search(threads, lists, cpu, l, high).1.None?
    requires WillScan(l, high, m) && k < |lists[m]|
    ensures !ThreadCanRun(threads[lists[m][k]], cpu)
    decreases ScansLeft(l, high)
  {
    assert InRange(lists[l], |threads|);
    OldestIsOldest(threads, lists[l], cpu);
    var high' := if l == 3 then high + 1 else high;
    if m != l && high' < 2 {
      assert lists[m][k] in lists[m];
      assert lists[m][k] !in lists[l];
      ScanAllAt(threads, lists[l], lists[m][k]);
      FallBackOnlyIfNone(ScanAll(threads, lists[l]), lists, cpu, PrevList(l), high', m, k);
    }
  }

  /** Scans do not touch preemption times, nor anything of a runnable thread. */
  lemma {:induction false} SearchKeeps(threads: seq<Thread>, lists: seq<seq<nat>>, cpu: nat, l: nat, high: nat, u: nat)
    requires ListsOk(lists, |threads|) && l < 4 && high < 2 && u < |threads|
    ensures var threads' := Search(threads, lists, cpu, l, high).0;
      SameWait(threads'[u], threads[u]) && (ThreadCanRun(threads[u], cpu) ==> threads'[u] == threads[u])
    decreases ScansLeft(l, high)
  {
    var high' := if l == 3 then high + 1 else high;
    ScanAllAt(threads, lists[l], u);
    if Oldest(threads, lists[l], cpu).None? && high' < 2 {
      SearchKeeps(ScanAll(threads, lists[l]), lists, cpu, PrevList(l), high', u);
    }
  }

  /** While thread `t` of list `p` is runnable the search finds a thread, and in list `p` none preempted after `t`. */
  lemma {:induction false} SearchFinds(threads: seq<Thread>, lists: seq<seq<nat>>, cpu: nat, l: nat, high: nat,
                                       p: nat, t: nat)
    requires ListsOk(lists, |threads|) && l < 4 && high < 2 && p < 4
    requires t in lists[p] && ThreadCanRun(threads[t], cpu)
    requires WillScan(l, high, p)
    ensures var (threads', r) := Search(threads, lists, cpu, l, high);
      && r.Some? && r.value < |threads|
      && (l == p ==> r.value in lists[p])
      && ThreadCanRun(threads'[r.value], cpu)
      && (r.value in lists[p] ==> threads[r.value].lastPreempted <= threads[t].lastPreempted)
    decreases ScansLeft(l, high)
  {
    var k :| 0 <= k < |lists[p]| && lists[p][k] == t;
    assert InRange(lists[l], |threads|);
    var best := Oldest(threads, lists[l], cpu);
    OldestIsOldest(threads, lists[l], cpu);
    if best.Some? {
      assert best.value in lists[l];
      ScanAllAt(threads, lists[l], best.value);
      if best.value in lists[p] {
        assert l == p;
        var j :| 0 <= j < |lists[p]| && lists[p][j] == best.value && Leads(threads, lists[p], cpu, j);
        assert LeadsAt(threads, lists[p], cpu, j, k);
      }
    } else {
      assert l != p;
      var scanned := ScanAll(threads, lists[l]);
      ScanAllAt(threads, lists[l], t);
      SearchFinds(scanned, lists, cpu, PrevList(l), if l == 3 then high + 1 else high, p, t);
      var r := Search(threads, lists, cpu, l, high).1;
      ScanAllAt(threads, lists[l], r.value);
    }
  }

  predicate SameWait(t: Thread, u: Thread) {
    t.lastPreempted == u.lastPreempted && t.status.running == u.status.running
  }

  // ----- one call

  /** The preempted thread goes back to the ready threads, stamped with the time. */
  function Preempted(t: Thread, now: nat): Thread {
    t.(lastPreempted := now, affinity := t.ogAffinity,
       status := t.status.(running := false, canRun := t.status.canRun || !t.status.dead))
  }

  /** Clears BLOCKED of the listed threads whose block callback answers true; `wake` holds these threads. */
  function WakeList(threads: seq<Thread>, list: seq<nat>, wake: set<nat>): (r: seq<Thread>)
    requires InRange(list, |threads|)
    ensures |r| == |threads|
  {
    if list == [] then threads
    else
      var r := WakeList(threads, list[1..], wake);
      if r[list[0]].status.blocked && list[0] in wake then r[list[0] := Unblocked(r[list[0]])] else r
  }

  function Woken(threads: seq<Thread>, lists: seq<seq<nat>>, wake: set<nat>): (r: seq<Thread>)
    requires ListsOk(lists, |threads|)
    ensures |r| == |threads|
  {
    WakeList(WakeList(WakeList(WakeList(threads, lists[3], wake), lists[2], wake), lists[1], wake), lists[0], wake)
  }

  /** A listed thread loses BLOCKED if and only if its callback answers true; all others stay as they are. */
  lemma {:induction false} WakeListAt(threads: seq<Thread>, list: seq<nat>, wake: set<nat>, u: nat)
    requires InRange(list, |threads|) && u < |threads|
    ensures WakeList(threads, list, wake)[u] ==
      if u in list && u in wake && threads[u].status.blocked then Unblocked(threads[u]) else threads[u]
  {
    if list != [] {
      WakeListAt(threads, list[1..], wake, u);
      assert list == [list[0]] + list[1..];
    }
  }

  /** Exactly the listed threads that are blocked and whose callback answers true lose BLOCKED; nothing else changes. */
  lemma WokenAt(threads: seq<Thread>, lists: seq<seq<nat>>, wake: set<nat>, u: nat)
    requires ListsOk(lists, |threads|) && u < |threads|
    ensures Woken(threads, lists, wake)[u] ==
      if Listed(lists, u) && u in wake && threads[u].status.blocked then Unblocked(threads[u]) else threads[u]
  {
    var t3 := WakeList(threads, lists[3], wake);
    var t2 := WakeList(t3, lists[2], wake);
    var t1 := WakeList(t2, lists[1], wake);
    WakeListAt(threads, lists[3], wake, u);
    WakeListAt(t3, lists[2], wake, u);
    WakeListAt(t2, lists[1], wake, u);
    WakeListAt(t1, lists[0], wake, u);
  }

  function Full(lists: seq<seq<nat>>): (r: seq<bool>)
    requires |lists| == 4
    ensures |r| == 4
  {
    [lists[0] != [], lists[1] != [], lists[2] != [], lists[3] != []]
  }

  /** The threads that the search looks at. */
  function Ready(s: Sched, wake: set<nat>): (r: seq<Thread>)
    requires Valid(s)
    ensures |r| == |s.threads|
  {
    Woken(Stopped(s.threads, s.current, s.ticks + 1), s.lists, wake)
  }

  /** The current thread, if there is one, has been preempted at time `now`. */
  function Stopped(threads: seq<Thread>, current: Option<nat>, now: nat): (r: seq<Thread>)
    requires current.Some? ==> current.value < |threads|
    ensures |r| == |threads|
  {
    if current.Some? then threads[current.value := Preempted(threads[current.value], now)] else threads
  }

  /** A thread that is made the current one. It uses up a time slice unless it was current before. */
  function Taken(t: Thread, cpu: nat, kept: bool): Thread {
    t.(affinity := if kept then {cpu} else Mask64(cpu), timeSlice := if kept then t.timeSlice else t.timeSlice + 1,
       status := t.status.(canRun := false, running := true))
  }

  function Dispatch(s: Sched, t: nat): Sched
    requires t < |s.threads|
  {
    s.(threads := s.threads[t := Taken(s.threads[t], CPU, s.current == Some(t))], current := Some(t))
  }

  /** The start list; with a non-empty list 0 it always exists. */
  function StartList(s: Sched): (l: nat)
    requires Valid(s)
    ensures l < 4
  {
    Pick(Full(s.lists), s.iterations)
  }

  /** The idle thread is current and blocked: the call only waits for it to be unblocked. */
  predicate IdleWaits(s: Sched)
    requires s.idle < |s.threads|
  {
    s.current == Some(s.idle) && s.threads[s.idle].status.blocked
  }

  /** The state after one call of schedule(). */
  function Schedule(s: Sched, wake: set<nat>): (s': Sched)
    requires Valid(s)
    ensures s'.lists == s.lists && s'.idle == s.idle && |s'.threads| == |s.threads| && s'.ticks == s.ticks + 1
    ensures s'.iterations == if IdleWaits(s) then s.iterations else Counted(Full(s.lists), s.iterations)
  {
    if IdleWaits(s) then s.(threads := s.threads[s.idle := Unblocked(s.threads[s.idle])], ticks := s.ticks + 1)
    else Select(s, wake)
  }

  /** A call that chooses a thread. */
  function Select(s: Sched, wake: set<nat>): (s': Sched)
    requires Valid(s)
    ensures s'.lists == s.lists && s'.idle == s.idle && |s'.threads| == |s.threads| && s'.ticks == s.ticks + 1
    ensures s'.iterations == Counted(Full(s.lists), s.iterations)
  {
    var (threads, found) := Search(Ready(s, wake), s.lists, CPU, StartList(s), 0);
    var s1 := s.(threads := threads, iterations := Counted(Full(s.lists), s.iterations), ticks := s.ticks + 1);
    Dispatch(s1, if found.Some? then found.value else s.idle)
  }

  class Scheduler {
    var threads: seq<Thread>
    const lists: seq<seq<nat>>
    var iterations: seq<nat>
    var current: Option<nat>
    const idle: nat
    var ticks: nat

    function View(): Sched
      reads this
    {
      Sched(threads, lists, iterations, current, idle, ticks)
    }

    /** Scans one list for the runnable thread that was preempted longest ago. */
    method FindRunnableThreadInList(list: seq<nat>) returns (ret: Option<nat>)
      requires InRange(list, |threads|) && LinkedList.PairsDiffer(list)
      modifies this`threads
      ensures ret == Oldest(old(threads), list, CPU)
      ensures threads == ScanAll(old(threads), list)
    {
      ret := None;
      var k := 0;
      while k < |list|
        invariant 0 <= k <= |list|
        invariant threads == ScanAll(old(threads), list[..k])
        invariant ret == Oldest(old(threads), list[..k], CPU)
      {
        var t := list[k];
        ScanStep(old(threads), list, k);
        OldestStep(old(threads), list, CPU, k);
        var canRun := ScanThread(t);
        if canRun {
          if ret.None? || threads[t].lastPreempted < threads[ret.value].lastPreempted {
            ret := Some(t);
          }
        }
        k := k + 1;
      }
      assert list[..k] == list;
    }

    /** The body of the scan: marks, tests and recharges one thread. */
    method ScanThread(t: nat) returns (canRun: bool)
      requires t < |threads|
      modifies this`threads
      ensures threads == old(threads)[t := Scanned(old(threads)[t])]
      ensures canRun == ThreadCanRun(old(threads)[t], CPU)
    {
      var clearTimeSliceIndex := threads[t].status.recharge;
      if threads[t].timeSlice >= threads[t].priority {
        threads := threads[t := threads[t].(status := threads[t].status.(recharge := true))];
      }
      canRun := ThreadCanRun(threads[t], CPU);
      if clearTimeSliceIndex {
        threads := threads[t := threads[t].(status := threads[t].status.(recharge := false))];
        threads := threads[t := threads[t].(timeSlice := 0)];
      }
    }

    /** Picks a list and counts it. The measure shows that the call recurses at most once. */
    method FindThreadPriorityList() returns (i: int)
      requires |lists| == |iterations| == 4
      modifies this`iterations
      ensures |iterations| == 4
      ensures i == Pick(Full(lists), old(iterations))
      ensures iterations == Counted(Full(lists), old(iterations))
      decreases if iterations[0] >= 1 then 1 else 0
    {
      i := 3;
      while i > -1
        invariant -1 <= i <= 3
        invariant forall j :: i < j <= 3 ==> !(|lists[j]| > 0 && iterations[j] < Weight(j))
      {
        if |lists[i]| > 0 && iterations[i] < Weight(i) {
          break;
        }
        i := i - 1;
      }
      if iterations[0] >= 1 {
        var j := 0;
        while j < 4
          invariant 0 <= j <= 4 && |iterations| == 4
          invariant forall k :: 0 <= k < j ==> iterations[k] == 0
        {
          iterations := iterations[j := 0];
          j := j + 1;
        }
        assert iterations == [0, 0, 0, 0];
        i := FindThreadPriorityList();
        return;
      }
      if i >= 0 {
        iterations := iterations[i := iterations[i] + 1];
      }
    }

    /** Calls the block callbacks of the blocked threads of one list; `wake` holds those that answer true. */
    method CallBlockCallbacksOnList(list: seq<nat>, wake: set<nat>)
      requires InRange(list, |threads|)
      modifies this`threads
      ensures threads == WakeList(old(threads), list, wake)
    {
      var k := |list|;
      while k > 0
        invariant 0 <= k <= |list|
        invariant threads == WakeList(old(threads), list[k..], wake)
      {
        k := k - 1;
        assert list[k..][1..] == list[k + 1..];
        var t := list[k];
        if threads[t].status.blocked && t in wake {
          threads := threads[t := Unblocked(threads[t])];
        }
      }
      assert list[0..] == list;
    }

    /** Searches from list `start` on, in at most eight scans. */
    method FindThread(start: nat) returns (newThread: Option<nat>, ghost scans: nat)
      requires ListsOk(lists, |threads|) && start < 4
      modifies this`threads
      ensures (threads, newThread) == Search(old(threads), lists, CPU, start, 0)
      ensures 1 <= scans <= 8
    {
      var list, foundHighPriority := start, 0;
      ghost var goal := Search(threads, lists, CPU, start, 0);
      scans := 0;
      newThread := None;
      while newThread.None? && foundHighPriority < 2
        invariant list < 4 && ListsOk(lists, |threads|)
        invariant newThread.None? && foundHighPriority < 2 ==>
          goal == Search(threads, lists, CPU, list, foundHighPriority)
        invariant newThread.Some? || foundHighPriority >= 2 ==> goal == (threads, newThread) && 1 <= scans <= 8
        invariant newThread.None? && foundHighPriority < 2 ==> scans + ScansLeft(list, foundHighPriority) <= 8
        decreases if newThread.Some? || foundHighPriority >= 2 then 0 else ScansLeft(list, foundHighPriority)
      {
        SearchStep(threads, lists, CPU, list, foundHighPriority);
        newThread := FindRunnableThreadInList(lists[list]);
        scans := scans + 1;
        if newThread.None? {
          foundHighPriority := foundHighPriority + if list == 3 then 1 else 0;
          list := PrevList(list);
        }
      }
    }

    method CallBlockCallbacks(wake: set<nat>)
      requires ListsOk(lists, |threads|)
      modifies this`threads
      ensures threads == Woken(old(threads), lists, wake)
    {
      CallBlockCallbacksOnList(lists[3], wake);
      CallBlockCallbacksOnList(lists[2], wake);
      CallBlockCallbacksOnList(lists[1], wake);
      CallBlockCallbacksOnList(lists[0], wake);
    }

    /** One call of schedule() with no other CPU in the scheduler. */
    method Call(wake: set<nat>)
      requires Valid(View())
      modifies this
      ensures View() == Schedule(old(View()), wake)
    {
      ghost var s := View();
      ticks := ticks + 1;
      if current == Some(idle) && threads[idle].status.blocked {
        // the block callback is called until it answers true
        threads := threads[idle := Unblocked(threads[idle])];
        return;
      }
      if current.Some? {
        PreemptThread(current.value);
      }
      CallBlockCallbacks(wake);
      ghost var ready := threads;
      assert ready == Ready(s, wake);
      var list := FindThreadPriorityList();
      assert list == StartList(s);
      var newThread, _ := FindThread(list);
      assert (threads, newThread) == Search(ready, s.lists, CPU, StartList(s), 0);
      ghost var s1 := View();
      RunThread(if newThread.Some? then newThread.value else idle);
      assert View() == Dispatch(s1, if newThread.Some? then newThread.value else s.idle);
    }

    method PreemptThread(t: nat)
      requires t < |threads|
      modifies this`threads
      ensures threads == old(threads)[t := Preempted(old(threads)[t], ticks)]
    {
      threads := threads[t := threads[t].(lastPreempted := ticks)];
      if !threads[t].status.dead {
        threads := threads[t := threads[t].(status := threads[t].status.(canRun := true))];
      }
      threads := threads[t := threads[t].(status := threads[t].status.(running := false))];
      threads := threads[t := threads[t].(affinity := threads[t].ogAffinity)];
    }

    method RunThread(t: nat)
      requires t < |threads|
      modifies this`threads, this`current
      ensures View() == Dispatch(old(View()), t)
    {
      threads := threads[t := threads[t].(affinity := {CPU})];
      if Some(t) != current {
        threads := threads[t := threads[t].(affinity := Mask64(CPU))];
        current := Some(t);
        threads := threads[t := threads[t].(timeSlice := threads[t].timeSlice + 1)];
      }
      threads := threads[t := threads[t].(status := threads[t].status.(canRun := false, running := true))];
    }
  }
}
