/**
 The 64-bit shift that builds the mask of a running thread gives CPU 64 the mask of CPU 0. With more
 than 64 CPUs a thread that CPU 64 is still releasing can be taken by CPU 0, so exclusive holding is
 exactly the property of systems with at most 64 CPUs.
 */
module SchedulerLimit {
  import opened Options
  import opened SchedulerTypes
  import opened SchedulerProtocol
  import opened SchedulerExclusion
  import opened SchedulerOwnership

  lemma {:induction false} RunAppend(s: State, events: seq<Event>, e: Event)
    requires WellFormed(s)
    ensures Run(s, events + [e]) == Step(Run(s, events), e)
    decreases |events|
  {
    if events == [] {
      assert [e][1..] == [];
    } else {
      assert (events + [e])[1..] == events[1..] + [e];
      RunAppend(Step(s, events[0]), events[1..], e);
    }
  }

  /** Idle thread `c` of CPU `c`, as it is set up at boot. */
  function IdleThread(c: nat): Thread {
    Thread(READY, 1, 0, 0, Mask64(c), Mask64(c))
  }

  /** The contested thread, running on CPU 64. */
  const VICTIM := Thread(Status(false, false, false, false, false, true), 4, 0, 0, {0}, {64})

  /** CPU 64 runs the only thread besides the idle threads; it is in the normal priority list. */
  function Start(n: nat): State
    requires n > 64
  {
    State(seq(n, _ => false), seq(n, _ => Outside), seq(n, _ => None)[64 := Some(n)], seq(n, c => c),
          seq(n, c requires 0 <= c => IdleThread(c)) + [VICTIM], [[], [], [n], []], 0)
  }

  lemma StartInit(n: nat)
    requires n > 64
    ensures Init(Start(n))
  {
    var s := Start(n);
    assert RunningStart(s.threads[n], 64);
    forall t | 0 <= t < |s.threads| && (forall c :: 0 <= c < |s.pcs| ==> s.current[c] != Some(t))
      ensures FreeStart(s.threads[t])
    {
      assert s.current[64] == Some(n);
    }
  }

  /** The program counter of CPU 64 after `b` of its steps: it counts two flags and gives up. */
  function Pc64(n: nat, b: nat): Pc {
    if b == 0 then Outside
    else if b == 1 then Raise
    else if b == 2 then CheckIdle
    else if b <= n + 3 then Counting(b - 3, (if b > 3 then 1 else 0) + (if b > 67 then 1 else 0))
    else if b == n + 4 then LostLower
    else if b == n + 5 then LostTest
    else if b == n + 6 then LostStamp
    else if b == n + 7 then LostReady
    else if b == n + 8 then LostStop
    else LostAffinity
  }

  /** The program counter of CPU 0 after `a` of its steps: it counts one flag, finds and takes thread `n`. */
  function Pc0(n: nat, a: nat): Pc {
    if a == 0 then Outside
    else if a == 1 then Raise
    else if a == 2 then CheckIdle
    else if a <= n + 3 then Counting(a - 3, if a > 3 then 1 else 0)
    else if a == n + 4 then Callbacks
    else if a <= n + 12 then ScanPc(n, a - n - 5)
    else if a == n + 13 then Found(2, n, 0)
    else if a == n + 14 then TakeAffinity(n)
    else if a == n + 15 then TakeSwitch(n)
    else if a == n + 16 then TakeSlice(n)
    else if a == n + 17 then TakeRun(n)
    else Lower
  }

  function ScanPc(n: nat, i: nat): Pc {
    if i == 0 then Scan(2, 0, None, 0, false, ReadRecharge)
    else if i == 1 then Scan(2, 0, None, 0, false, Mark)
    else if i == 2 then Scan(2, 0, None, 0, false, TestStatus)
    else if i == 3 then Scan(2, 0, None, 0, false, TestAffinity)
    else if i == 4 then Scan(2, 0, None, 0, false, TestSlice)
    else if i == 5 then Scan(2, 0, None, 0, false, Compare)
    else if i == 6 then Scan(2, 0, Some(n), 0, false, ClearMark)
    else Scan(2, 1, Some(n), 0, false, ReadRecharge)
  }

  function ThreadAt(n: nat, b: nat): Thread {
    if b <= n + 7 then VICTIM else if b == n + 8 then MadeReady(VICTIM) else Stopped(MadeReady(VICTIM))
  }

  /** CPU 0 has made `a` steps and CPU 64 has made `b`; no other CPU has moved. */
  ghost predicate Path(s: State, n: nat, a: nat, b: nat) {
    && n > 64 && WellFormed(s) && |s.pcs| == n && |s.threads| == n + 1
    && s.pcs[0] == Pc0(n, a) && s.pcs[64] == Pc64(n, b)
    && (forall c :: 0 <= c < n ==> s.flags[c] == ((c == 0 && FlagUp(s.pcs[0])) || (c == 64 && FlagUp(s.pcs[64]))))
    && s.current[0] == (if a <= n + 15 then None else Some(n)) && s.current[64] == Some(n)
    && s.idle[64] == 64
    && (a <= n + 13 ==> s.threads[n].(lastPreempted := 0) == ThreadAt(n, b))
    && s.lists == [[], [], [n], []]
  }

  /** CPU 64 counts two raised flags, lowers its own and begins to release its thread. */
  lemma Step64(s: State, n: nat, b: nat)
    requires Path(s, n, 2, b) && b < n + 9
    ensures Path(Step(s, E(64)), n, 2, b + 1)
  {
    assert PcInRange(s.pcs[64], s.current[64].Some?, |s.threads|, s.lists);
    assert s.flags[64] == FlagUp(s.pcs[64]);
    if 3 <= b < n + 3 { assert s.flags[b - 3] == (b == 3 || b == 67); }
  }

  lemma Begin0(s: State, n: nat, a: nat, b: nat)
    requires Path(s, n, a, b) && (a < 2 || (b == n + 9 && a == 2))
    ensures Path(Step(s, E(0)), n, a + 1, b)
  {
    assert PcInRange(s.pcs[0], s.current[0].Some?, |s.threads|, s.lists);
    assert s.flags[0] == FlagUp(s.pcs[0]);
  }

  lemma Count0(s: State, n: nat, a: nat)
    requires Path(s, n, a, n + 9) && 3 <= a < n + 3
    ensures Path(Step(s, E(0)), n, a + 1, n + 9)
  {
    assert PcInRange(s.pcs[0], s.current[0].Some?, |s.threads|, s.lists);
    assert s.flags[a - 3] == (a == 3);
  }

  lemma Enter0(s: State, n: nat, a: nat)
    requires Path(s, n, a, n + 9) && n + 3 <= a < n + 5
    ensures Path(Step(s, E(0)), n, a + 1, n + 9)
  {
    assert PcInRange(s.pcs[0], s.current[0].Some?, |s.threads|, s.lists);
    assert s.flags[0];
  }

  lemma Scan0(s: State, n: nat, a: nat)
    requires Path(s, n, a, n + 9) && n + 5 <= a < n + 9
    ensures Path(Step(s, E(0)), n, a + 1, n + 9)
  {
    assert PcInRange(s.pcs[0], s.current[0].Some?, |s.threads|, s.lists);
    assert s.flags[0];
  }

  lemma Choose0(s: State, n: nat, a: nat)
    requires Path(s, n, a, n + 9) && n + 9 <= a < n + 13
    ensures Path(Step(s, E(0)), n, a + 1, n + 9)
  {
    assert PcInRange(s.pcs[0], s.current[0].Some?, |s.threads|, s.lists);
    assert s.flags[0];
  }

  lemma Take0(s: State, n: nat, a: nat)
    requires Path(s, n, a, n + 9) && n + 13 <= a < n + 18
    ensures Path(Step(s, E(0)), n, a + 1, n + 9)
  {
    assert PcInRange(s.pcs[0], s.current[0].Some?, |s.threads|, s.lists);
    assert s.flags[0];
  }

  lemma Step0(s: State, n: nat, a: nat, b: nat)
    requires Path(s, n, a, b) && (a < 2 || (b == n + 9 && a < n + 18))
    ensures Path(Step(s, E(0)), n, a + 1, b)
  {
    if a < 3 {
      Begin0(s, n, a, b);
    } else if a < n + 3 {
      Count0(s, n, a);
    } else if a < n + 5 {
      Enter0(s, n, a);
    } else if a < n + 9 {
      Scan0(s, n, a);
    } else if a < n + 13 {
      Choose0(s, n, a);
    } else {
      Take0(s, n, a);
    }
  }

  function E(c: nat): Event {
    Event(c, 2, false, 0)
  }

  /** The run of `events` from `s0` has come as far as `Path` says. */
  ghost predicate Reached(s0: State, events: seq<Event>, n: nat, a: nat, b: nat) {
    WellFormed(s0) && exists s: State :: s == Run(s0, events) && Path(s, n, a, b)
  }

  lemma Append64(s0: State, n: nat, events: seq<Event>, b: nat)
    requires Reached(s0, events, n, 2, b) && b < n + 9
    ensures Reached(s0, events + [E(64)], n, 2, b + 1)
  {
    Step64(Run(s0, events), n, b);
    RunAppend(s0, events, E(64));
  }

  lemma Append0(s0: State, n: nat, events: seq<Event>, a: nat, b: nat)
    requires Reached(s0, events, n, a, b) && (a < 2 || (b == n + 9 && a < n + 18))
    ensures Reached(s0, events + [E(0)], n, a + 1, b)
  {
    Step0(Run(s0, events), n, a, b);
    RunAppend(s0, events, E(0));
  }

  /** `p` tells how far a run from `s0` has come. Nothing but these two lemmas looks inside. */
  ghost predicate Tells(p: (seq<Event>, nat, nat) -> bool, s0: State, n: nat) {
    forall x: seq<Event>, a: nat, b: nat {:trigger Reached(s0, x, n, a, b)} :: p(x, a, b) <==> Reached(s0, x, n, a, b)
  }

  lemma Tells64(p: (seq<Event>, nat, nat) -> bool, s0: State, n: nat, x: seq<Event>, b: nat)
    requires Tells(p, s0, n) && p(x, 2, b) && b < n + 9
    ensures p(x + [E(64)], 2, b + 1)
  {
    assert Reached(s0, x, n, 2, b);
    Append64(s0, n, x, b);
  }

  lemma Tells0(p: (seq<Event>, nat, nat) -> bool, s0: State, n: nat, x: seq<Event>, a: nat, b: nat)
    requires Tells(p, s0, n) && p(x, a, b) && (a < 2 || (b == n + 9 && a < n + 18))
    ensures p(x + [E(0)], a + 1, b)
  {
    assert Reached(s0, x, n, a, b);
    Append0(s0, n, x, a, b);
  }

  lemma {:induction false} Path64(p: (seq<Event>, nat, nat) -> bool, s0: State, n: nat, events: seq<Event>, b: nat)
    returns (more: seq<Event>)
    requires Tells(p, s0, n) && p(events, 2, b) && b <= n + 9
    ensures p(more, 2, n + 9)
    decreases if b < n + 9 then n + 9 - b else 0
  {
    if b == n + 9 {
      more := events;
    } else {
      Tells64(p, s0, n, events, b);
      more := Path64(p, s0, n, events + [E(64)], b + 1);
    }
  }

  lemma {:induction false} Path0(p: (seq<Event>, nat, nat) -> bool, s0: State, n: nat, events: seq<Event>,
                                 a0: nat, a1: nat, b: nat)
    returns (more: seq<Event>)
    requires Tells(p, s0, n) && p(events, a0, b)
    requires a0 <= a1 && (a1 <= 2 || (b == n + 9 && a1 <= n + 18))
    ensures p(more, a1, b)
    decreases if a0 < a1 then a1 - a0 else 0
  {
    if a0 == a1 {
      more := events;
    } else {
      Tells0(p, s0, n, events, a0, b);
      more := Path0(p, s0, n, events + [E(0)], a0 + 1, a1, b);
    }
  }

  lemma Teller(s0: State, n: nat) returns (p: (seq<Event>, nat, nat) -> bool)
    ensures Tells(p, s0, n)
  {
    p := (x: seq<Event>, a: nat, b: nat) => Reached(s0, x, n, a, b);
  }

  lemma TellsStart(p: (seq<Event>, nat, nat) -> bool, n: nat)
    requires n > 64 && Tells(p, Start(n), n)
    ensures p([], 0, 0)
  {
    StartPath(n);
  }

  lemma TellsShared(p: (seq<Event>, nat, nat) -> bool, s0: State, n: nat, events: seq<Event>)
    requires WellFormed(s0) && Tells(p, s0, n) && p(events, n + 18, n + 9)
    ensures !Exclusive(Run(s0, events))
  {
    assert Reached(s0, events, n, n + 18, n + 9);
    PathShares(Run(s0, events), n);
  }

  lemma PathShares(s: State, n: nat)
    requires Path(s, n, n + 18, n + 9)
    ensures !Exclusive(s)
  {
    assert Held(s, 0) == Some(n) == Held(s, 64);
  }

  lemma StartPath(n: nat)
    requires n > 64
    ensures Reached(Start(n), [], n, 0, 0)
  {
    StartInit(n);
    assert Path(Start(n), n, 0, 0);
  }

  /** With more than 64 CPUs some run makes CPU 0 and CPU 64 hold the same thread. */
  lemma SharedBeyond64(n: nat) returns (s: State, events: seq<Event>)
    requires n > 64
    ensures Init(s) && |s.pcs| == n && !Exclusive(Run(s, events))
  {
    s := Start(n);
    StartInit(n);
    var p := Teller(s, n);
    TellsStart(p, n);
    events := Path0(p, s, n, [], 0, 2, 0);
    events := Path64(p, s, n, events, 0);
    events := Path0(p, s, n, events, 2, n + 18, n + 9);
    TellsShared(p, s, n, events);
  }

  ghost predicate AlwaysExclusive(n: nat) {
    forall s: State, events: seq<Event> :: Init(s) && |s.pcs| == n ==> Exclusive(Run(s, events))
  }

  /** Every run of `n` CPUs keeps threads exclusively held exactly when `n` is at most 64. */
  lemma ExclusiveUpTo64(n: nat)
    ensures AlwaysExclusive(n) <==> n <= 64
  {
    if n <= 64 {
      forall s: State, events: seq<Event> | Init(s) && |s.pcs| == n ensures Exclusive(Run(s, events)) {
        ThreadsConserved(s, events);
      }
    } else {
      var s, events := SharedBeyond64(n);
    }
  }
}
