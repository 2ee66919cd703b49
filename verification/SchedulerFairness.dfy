/** On one CPU every runnable thread gets the CPU after a bounded number of calls of schedule(). */
module SchedulerFairness {
  import opened Options
  import opened SchedulerTypes
  import opened SchedulerRoundRobin
  import opened SchedulerSelection

  /** Thread `t` of list `p` is runnable and not running. */
  ghost predicate Waiting(s: Sched, t: nat, p: nat)
    requires Valid(s)
  {
    p < 4 && t in s.lists[p] && t < |s.threads| && ThreadCanRun(s.threads[t], CPU) && s.current != Some(t)
  }

  /** The other threads of list `p`, not running now, that were preempted no later than `t`. */
  ghost function Ahead(s: Sched, t: nat, p: nat): set<nat>
    requires Valid(s) && p < 4 && t < |s.threads|
  {
    set u | u in s.lists[p] && u < |s.threads| && u != t && s.current != Some(u)
            && s.threads[u].lastPreempted <= s.threads[t].lastPreempted
  }

  /** What the threads look like to the search of the next call. */
  lemma ReadyThreads(s: Sched, wake: set<nat>, u: nat)
    requires Valid(s) && u < |s.threads|
    ensures var r := Ready(s, wake);
      && !r[u].status.running
      && r[u].lastPreempted == (if s.current == Some(u) then s.ticks + 1 else s.threads[u].lastPreempted)
      && (ThreadCanRun(s.threads[u], CPU) && s.current != Some(u) ==> r[u] == s.threads[u])
  {
    var stopped := Stopped(s.threads, s.current, s.ticks + 1);
    WokenAt(stopped, s.lists, wake, u);
  }

  /** Every call keeps the scheduler valid. */
  lemma CallValid(s: Sched, wake: set<nat>)
    requires Valid(s)
    ensures Valid(Schedule(s, wake))
  {
    if !IdleWaits(s) {
      var ready := Ready(s, wake);
      var l := StartList(s);
      var (threads, found) := Search(ready, s.lists, CPU, l, 0);
      forall u | 0 <= u < |s.threads| ensures threads[u].lastPreempted <= s.ticks + 1 && !threads[u].status.running {
        ReadyThreads(s, wake, u);
        SearchKeeps(ready, s.lists, CPU, l, 0, u);
      }
    }
  }

  /** A call that runs thread `r` leaves the preemption time of a thread that is neither `r` nor running. */
  lemma CallKeeps(s: Sched, wake: set<nat>, u: nat)
    requires Valid(s) && !IdleWaits(s) && u < |s.threads| && Schedule(s, wake).current != Some(u)
    ensures var s' := Schedule(s, wake);
      && (s'.threads[u].lastPreempted == if s.current == Some(u) then s.ticks + 1 else s.threads[u].lastPreempted)
      && (ThreadCanRun(s.threads[u], CPU) && s.current != Some(u) ==> s'.threads[u] == s.threads[u])
  {
    ReadyThreads(s, wake, u);
    SearchKeeps(Ready(s, wake), s.lists, CPU, StartList(s), 0, u);
  }

  /** The thread a call runs while `t` waits: of the start list if that is the list of `t`, and then ahead of `t`. */
  lemma CallRuns(s: Sched, wake: set<nat>, t: nat, p: nat)
    requires Valid(s) && Waiting(s, t, p) && !IdleWaits(s)
    ensures var r := Schedule(s, wake).current;
      r.Some? && (StartList(s) == p && r != Some(t) ==> r.value in Ahead(s, t, p))
    ensures !IdleWaits(Schedule(s, wake))
  {
    var ready := Ready(s, wake);
    ReadyThreads(s, wake, t);
    SearchFinds(ready, s.lists, CPU, StartList(s), 0, p, t);
    var r := Search(ready, s.lists, CPU, StartList(s), 0).1.value;
    ReadyThreads(s, wake, r);
  }

  /** A call that waits for the idle thread changes nothing for a waiting thread. */
  lemma IdleCall(s: Sched, wake: set<nat>, t: nat, p: nat)
    requires Valid(s) && Waiting(s, t, p) && IdleWaits(s)
    ensures var s' := Schedule(s, wake);
      Valid(s') && Waiting(s', t, p) && Ahead(s', t, p) == Ahead(s, t, p) && !IdleWaits(s')
  {
    CallValid(s, wake);
  }

  /**
   What one call does to a waiting thread: it runs it, or leaves it waiting with no new thread ahead of
   it and, if a thread was chosen from its list, one fewer. No later call waits for the idle thread.
   */
  lemma CallProgress(s: Sched, wake: set<nat>, t: nat, p: nat)
    requires Valid(s) && Waiting(s, t, p)
    ensures var s' := Schedule(s, wake);
      && Valid(s') && !IdleWaits(s')
      && (s'.current == Some(t) ||
          (Waiting(s', t, p) && Ahead(s', t, p) <= Ahead(s, t, p)
           && (!IdleWaits(s) && StartList(s) == p ==> Ahead(s', t, p) < Ahead(s, t, p))))
  {
    CallValid(s, wake);
    if IdleWaits(s) {
      IdleCall(s, wake, t, p);
    } else {
      CallRuns(s, wake, t, p);
      var s' := Schedule(s, wake);
      if s'.current != Some(t) {
        CallKeeps(s, wake, t);
        forall u | u in Ahead(s', t, p) ensures u in Ahead(s, t, p) {
          CallKeeps(s, wake, u);
        }
        assert s'.current.value !in Ahead(s', t, p);
      }
    }
  }

  /** The states after the calls with the given wake-ups. */
  ghost function Calls(s: Sched, wakes: seq<set<nat>>): (s': Sched)
    requires Valid(s)
    ensures Valid(s')
    decreases |wakes|
  {
    if wakes == [] then s
    else
      CallValid(s, wakes[0]);
      Calls(Schedule(s, wakes[0]), wakes[1..])
  }

  /** Thread `t` is the current thread after one of the calls. */
  ghost predicate Chosen(s: Sched, wakes: seq<set<nat>>, t: nat)
    requires Valid(s)
  {
    exists k :: 1 <= k <= |wakes| && Calls(s, wakes[..k]).current == Some(t)
  }

  lemma ChosenNow(s: Sched, wakes: seq<set<nat>>, t: nat)
    requires Valid(s) && wakes != [] && Schedule(s, wakes[0]).current == Some(t)
    ensures Chosen(s, wakes, t)
  {
    CallValid(s, wakes[0]);
    assert wakes[..1][1..] == [];
    assert Calls(s, wakes[..1]).current == Some(t);
  }

  lemma ChosenLater(s: Sched, s': Sched, wakes: seq<set<nat>>, t: nat)
    requires Valid(s) && wakes != [] && Valid(s') && s' == Schedule(s, wakes[0])
    requires Chosen(s', wakes[1..], t)
    ensures Chosen(s, wakes, t)
  {
    var rest := wakes[1..];
    var k :| 1 <= k <= |rest| && Calls(s', rest[..k]).current == Some(t);
    CallsCons(s, wakes[0], rest[..k]);
    TakeCons(wakes, k);
    assert Calls(s, wakes[..k + 1]).current == Some(t);
  }

  lemma TakeCons<T>(s: seq<T>, k: nat)
    requires k < |s|
    ensures s[..k + 1] == [s[0]] + s[1..][..k]
  {
  }

  lemma CallsCons(s: Sched, wake: set<nat>, wakes: seq<set<nat>>)
    requires Valid(s) && Valid(Schedule(s, wake))
    ensures Calls(s, [wake] + wakes) == Calls(Schedule(s, wake), wakes)
  {
    assert ([wake] + wakes)[1..] == wakes;
  }

  lemma CountTail(full: seq<bool>, iterations: seq<nat>, n: nat, p: nat)
    requires |full| == |iterations| == 4 && n > 0
    ensures Count(Picks(full, iterations, n), p)
         == (if Pick(full, iterations) == p then 1 else 0) + Count(Picks(full, Counted(full, iterations), n - 1), p)
  {
    assert Picks(full, iterations, n)[1..] == Picks(full, Counted(full, iterations), n - 1);
  }

  /** Enough picks of its own list bring the thread to the CPU. */
  lemma {:induction false} ChosenAfterPicks(s: Sched, wakes: seq<set<nat>>, t: nat, p: nat)
    requires Valid(s) && Waiting(s, t, p) && !IdleWaits(s)
    requires Count(Picks(Full(s.lists), s.iterations, |wakes|), p) > |Ahead(s, t, p)|
    ensures Chosen(s, wakes, t)
    decreases |wakes|
  {
    var s' := Schedule(s, wakes[0]);
    CallProgress(s, wakes[0], t, p);
    if s'.current == Some(t) {
      ChosenNow(s, wakes, t);
    } else {
      CountTail(Full(s.lists), s.iterations, |wakes|, p);
      SubsetSize(Ahead(s', t, p), Ahead(s, t, p));
      ChosenAfterPicks(s', wakes[1..], t, p);
      ChosenLater(s, s', wakes, t);
    }
  }

  lemma SubsetSize(a: set<nat>, b: set<nat>)
    ensures a <= b ==> |a| <= |b|
    ensures a < b ==> |a| < |b|
  {
    if a <= b {
      assert b == a + (b - a);
      if a < b { var x :| x in b - a; }
    }
  }

  /** The counters are at some position of a round, as they are after any number of calls from boot. */
  ghost predicate Settled(full: seq<bool>, iterations: seq<nat>)
    requires |full| == |iterations| == 4
  {
    exists q: nat :: q <= Round(full) && iterations == Position(full, q)
  }

  lemma SettledRound(full: seq<bool>, iterations: seq<nat>, p: nat)
    requires |full| == |iterations| == 4 && full[0] && p < 4 && Settled(full, iterations)
    ensures Settled(full, CountedBy(full, iterations, Round(full)))
    ensures Count(Picks(full, iterations, Round(full)), p) == Share(full, p)
  {
    var q: nat :| q <= Round(full) && iterations == Position(full, q);
    FairRound(full, q, p);
    var q' := Positioned(full, q, Round(full));
  }

  lemma MulStep(a: nat, n: nat)
    requires n > 0
    ensures a * n == a + a * (n - 1)
  {
  }

  /** `rounds` rounds pick each list `rounds` times its weight; `w` and `share` name the two factors. */
  lemma {:induction false} PicksInRounds(full: seq<bool>, iterations: seq<nat>, rounds: nat, p: nat, w: nat, share: nat)
    requires |full| == |iterations| == 4 && full[0] && p < 4 && Settled(full, iterations)
    requires w == Round(full) && share == Share(full, p)
    ensures Count(Picks(full, iterations, w * rounds), p) == share * rounds
    decreases rounds
  {
    if rounds > 0 {
      SettledRound(full, iterations, p);
      var next := CountedBy(full, iterations, w);
      MulStep(w, rounds);
      MulStep(share, rounds);
      PicksInRounds(full, next, rounds - 1, p, w, share);
      PicksSplit(full, iterations, w, w * (rounds - 1));
      CountSum(Picks(full, iterations, w), Picks(full, next, w * (rounds - 1)), p);
    }
  }

  lemma MulGrows(share: nat, n: nat)
    requires share >= 1
    ensures share * n >= n
  {
  }

  /** The call that waits for a blocked idle thread, if there is one, comes first. */
  function IdleCalls(s: Sched): nat
    requires s.idle < |s.threads|
  {
    if IdleWaits(s) then 1 else 0
  }

  lemma ChosenAfterIdle(s: Sched, wakes: seq<set<nat>>, t: nat, p: nat)
    requires Valid(s) && Waiting(s, t, p) && |wakes| >= IdleCalls(s)
    requires Count(Picks(Full(s.lists), s.iterations, |wakes| - IdleCalls(s)), p) > |Ahead(s, t, p)|
    ensures Chosen(s, wakes, t)
  {
    if IdleWaits(s) {
      var s' := Schedule(s, wakes[0]);
      IdleCall(s, wakes[0], t, p);
      ChosenAfterPicks(s', wakes[1..], t, p);
      ChosenLater(s, s', wakes, t);
    } else {
      ChosenAfterPicks(s, wakes, t, p);
    }
  }

  /**
   Bounded waiting: a waiting thread becomes the current thread within W * (r + 1) calls, where W is
   the total weight of the non-empty lists and r the number of threads ahead of it in its list. One
   more call is needed if the first one waits for a blocked idle thread. Block callbacks may wake any
   threads in any call.
   */
  lemma BoundedWaiting(s: Sched, wakes: seq<set<nat>>, t: nat, p: nat)
    requires Valid(s) && Waiting(s, t, p) && Settled(Full(s.lists), s.iterations)
    requires |wakes| == Round(Full(s.lists)) * (|Ahead(s, t, p)| + 1) + IdleCalls(s)
    ensures Chosen(s, wakes, t)
  {
    var full, r := Full(s.lists), |Ahead(s, t, p)|;
    var share := Share(full, p);
    PicksInRounds(full, s.iterations, r + 1, p, Round(full), share);
    assert s.lists[p] != [];
    assert full[p];
    MulGrows(share, r + 1);
    ChosenAfterIdle(s, wakes, t, p);
  }

  /** Calls from counters at a position of a round, such as cleared ones, leave them at one. */
  lemma {:induction false} CallsSettled(s: Sched, wakes: seq<set<nat>>)
    requires Valid(s) && Settled(Full(s.lists), s.iterations)
    ensures Settled(Full(s.lists), Calls(s, wakes).iterations) && Calls(s, wakes).lists == s.lists
    decreases |wakes|
  {
    if wakes != [] {
      var full, s' := Full(s.lists), Schedule(s, wakes[0]);
      CallValid(s, wakes[0]);
      if !IdleWaits(s) {
        var q: nat :| q <= Round(full) && s.iterations == Position(full, q);
        Advance(full, q);
        assert s'.iterations == Position(full, From(full, q) + 1);
      }
      CallsSettled(s', wakes[1..]);
    }
  }

  lemma BootSettled(boot: Sched, calls: seq<set<nat>>)
    requires Valid(boot) && boot.iterations == [0, 0, 0, 0]
    ensures var s := Calls(boot, calls); Settled(Full(s.lists), s.iterations)
  {
    assert boot.iterations == Position(Full(boot.lists), 0);
    CallsSettled(boot, calls);
  }

  /** From boot, with cleared counters, the bound holds after any number of calls. */
  lemma BoundedFromBoot(boot: Sched, calls: seq<set<nat>>, s: Sched, wakes: seq<set<nat>>, t: nat, p: nat)
    requires Valid(boot) && boot.iterations == [0, 0, 0, 0] && s == Calls(boot, calls) && Waiting(s, t, p)
    requires |wakes| == Round(Full(s.lists)) * (|Ahead(s, t, p)| + 1) + IdleCalls(s)
    ensures Chosen(s, wakes, t)
  {
    BootSettled(boot, calls);
    BoundedWaiting(s, wakes, t, p);
  }

  lemma CountPrefix(full: seq<bool>, iterations: seq<nat>, m: nat, n: nat, p: nat)
    requires |full| == |iterations| == 4
    ensures Count(Picks(full, iterations, m + n), p) >= Count(Picks(full, iterations, m), p)
    ensures Count(Picks(full, iterations, m + n), p) >= Count(Picks(full, CountedBy(full, iterations, m), n), p)
  {
    PicksSplit(full, iterations, m, n);
    CountSum(Picks(full, iterations, m), Picks(full, CountedBy(full, iterations, m), n), p);
  }

  /** Calls before list 0 has its turn and calls in excess can only add picks. */
  lemma PicksAround(full: seq<bool>, iterations: seq<nat>, k: nat, n: nat, w: nat, p: nat)
    requires |full| == |iterations| == 4 && k <= w && CountedBy(full, iterations, k)[0] >= 1
    ensures Count(Picks(full, iterations, w + n), p) >= Count(Picks(full, [0, 0, 0, 0], n), p)
  {
    PicksCleared(full, CountedBy(full, iterations, k), n);
    CountPrefix(full, iterations, k, n, p);
    CountPrefix(full, iterations, k + n, w - k, p);
  }

  /** From any counters one more round suffices: list 0 has its turn in it, and then a new round begins. */
  lemma PicksFromAnywhere(full: seq<bool>, iterations: seq<nat>, rounds: nat, p: nat, w: nat, share: nat)
    requires |full| == |iterations| == 4 && full[0] && p < 4 && w == Round(full) && share == Share(full, p)
    ensures Count(Picks(full, iterations, w + w * rounds), p) >= share * rounds
  {
    IdleReached(full, iterations);
    PicksAround(full, iterations, UntilIdle(full, iterations), w * rounds, w, p);
    assert [0, 0, 0, 0] == Position(full, 0);
    PicksInRounds(full, [0, 0, 0, 0], rounds, p, w, share);
  }

  /** Bounded waiting from any counters, with one round more. */
  lemma BoundedFromAnywhere(s: Sched, wakes: seq<set<nat>>, t: nat, p: nat)
    requires Valid(s) && Waiting(s, t, p)
    requires |wakes| == Round(Full(s.lists)) * (|Ahead(s, t, p)| + 2) + IdleCalls(s)
    ensures Chosen(s, wakes, t)
  {
    var full, r := Full(s.lists), |Ahead(s, t, p)|;
    var share, w := Share(full, p), Round(full);
    PicksFromAnywhere(full, s.iterations, r + 1, p, w, share);
    MulStep(w, r + 2);
    assert s.lists[p] != [];
    assert full[p];
    MulGrows(share, r + 1);
    ChosenAfterIdle(s, wakes, t, p);
  }

  // ----- recharging

  function ScannedTimes(t: Thread, n: nat): Thread
    decreases n
  {
    if n == 0 then t else ScannedTimes(Scanned(t), n - 1)
  }

  /** A ready thread out of time slices can run again after exactly two scans of its list, and then stays so. */
  lemma {:induction false} RechargedByTwoScans(t: Thread, n: nat)
    requires t.status == READY && CPU in t.affinity && t.timeSlice >= t.priority > 0
    ensures ThreadCanRun(ScannedTimes(t, n), CPU) <==> n >= 2
  {
    if n == 1 {
      assert ScannedTimes(t, 1) == ScannedTimes(Scanned(t), 0);
    } else if n >= 2 {
      assert ScannedTimes(t, n) == ScannedTimes(Scanned(Scanned(t)), n - 2);
      RunnableStays(Scanned(Scanned(t)), n - 2);
    }
  }

  lemma {:induction false} RunnableStays(t: Thread, n: nat)
    requires ThreadCanRun(t, CPU)
    ensures ScannedTimes(t, n) == t
    decreases n
  {
    if n > 0 {
      RunnableStays(Scanned(t), n - 1);
    }
  }
}
