/** At most one CPU at a time is past a flag count of exactly one, on every run and for any number of CPUs. */
module SchedulerExclusion {
  import opened Options
  import opened SchedulerTypes
  import opened SchedulerProtocol

  /** The CPU has raised its flag and not lowered it yet. */
  predicate FlagUp(pc: Pc) {
    match pc
    case Outside | Raise => false
    case LostTest | LostStamp | LostReady | LostStop | LostAffinity | LostRunIdle | LostSwitch => false
    case _ => true
  }

  /** The CPU has counted exactly one raised flag and still holds its own up. */
  predicate Critical(pc: Pc) {
    FlagUp(pc) && !pc.CheckIdle? && !pc.IdleWait? && !pc.IdleLower? && !pc.Counting? && !pc.LostLower?
  }

  ghost function Run(s: State, events: seq<Event>): (s': State)
    requires WellFormed(s)
    ensures WellFormed(s')
    decreases |events|
  {
    if events == [] then s else Run(Step(s, events[0]), events[1..])
  }

  /** All CPUs are outside schedule(); each current thread is marked running and pinned to its CPU. */
  ghost predicate Init(s: State) {
    && WellFormed(s)
    && (forall c :: 0 <= c < |s.pcs| ==> s.pcs[c] == Outside && !s.flags[c])
    && (forall c :: 0 <= c < |s.pcs| ==> IdleStart(s.threads[s.idle[c]], c))
    && (forall c, d :: 0 <= c < d < |s.pcs| ==> s.idle[c] != s.idle[d])
    && (forall c :: 0 <= c < |s.pcs| && s.current[c].Some? ==> RunningStart(s.threads[s.current[c].value], c))
    && (forall c, d :: 0 <= c < d < |s.pcs| && s.current[c].Some? ==> s.current[c] != s.current[d])
    && (forall t :: 0 <= t < |s.threads| && (forall c :: 0 <= c < |s.pcs| ==> s.current[c] != Some(t)) ==>
          FreeStart(s.threads[t]))
  }

  predicate IdleStart(t: Thread, c: nat) {
    t.ogAffinity == t.affinity == Mask64(c) && !t.status.dead
  }

  predicate RunningStart(t: Thread, c: nat) {
    t.affinity == Mask64(c) && t.status.running && !t.status.canRun && !t.status.dead
  }

  predicate FreeStart(t: Thread) {
    !t.status.running && (t.status.canRun || t.status.dead)
  }

  // ----- the invariant

  /** Since raising its own flag, CPU `a` has read the flag of `b` and no flag but its own was up. */
  predicate PassedOver(pc: Pc, a: nat, b: nat) {
    Critical(pc) || (pc.Counting? && b < pc.next && pc.count == if a < pc.next then 1 else 0)
  }

  predicate CountSane(pc: Pc, c: nat, n: nat) {
    pc.Counting? ==> pc.next <= n && pc.count >= if c < pc.next then 1 else 0
  }

  ghost predicate Exclusion(s: State)
    requires WellFormed(s)
  {
    && (forall c :: 0 <= c < |s.pcs| ==> s.flags[c] == FlagUp(s.pcs[c]) && CountSane(s.pcs[c], c, |s.pcs|))
    && (forall a, b :: 0 <= a < |s.pcs| && 0 <= b < |s.pcs| && a != b ==>
          !(PassedOver(s.pcs[a], a, b) && PassedOver(s.pcs[b], b, a)))
  }

  /** The only ways to count, and the only way into the critical region. */
  predicate Advances(pc: Pc, pc': Pc, flags: seq<bool>) {
    && (pc'.Counting? && pc' != pc ==>
          pc' == Counting(0, 0)
          || (pc.Counting? && pc.next < |flags|
              && pc' == Counting(pc.next + 1, if flags[pc.next] then pc.count + 1 else pc.count)))
    && (Critical(pc') ==> Critical(pc) || pc == Counting(|flags|, 1))
  }

  /** The flag follows the program counter, which moves as `Advances` says. */
  ghost predicate Orderly(s: State, c: nat, f: Effect)
    requires c < |s.pcs|
  {
    f.flag == FlagUp(f.pc) && Advances(s.pcs[c], f.pc, s.flags)
  }

  lemma SearchOrderly(s: State, c: nat)
    requires WellFormed(s) && c < |s.pcs| && s.pcs[c].Scan? && s.flags[c]
    ensures Orderly(s, c, Search(s, c))
  {
    assert PcInRange(s.pcs[c], s.current[c].Some?, |s.threads|, s.lists);
  }

  lemma FallBackOrderly(s: State, c: nat)
    requires WellFormed(s) && c < |s.pcs| && s.flags[c] == FlagUp(s.pcs[c])
    ensures Orderly(s, c, FallBack(s, c))
  {
    assert PcInRange(s.pcs[c], s.current[c].Some?, |s.threads|, s.lists);
  }

  lemma TakeOrderly(s: State, c: nat)
    requires WellFormed(s) && c < |s.pcs| && s.flags[c] == FlagUp(s.pcs[c])
    ensures Orderly(s, c, Take(s, c))
  {
    assert PcInRange(s.pcs[c], s.current[c].Some?, |s.threads|, s.lists);
  }

  lemma EnterOrderly(s: State, e: Event)
    requires WellFormed(s) && e.cpu < |s.pcs|
    requires s.flags[e.cpu] == FlagUp(s.pcs[e.cpu]) && CountSane(s.pcs[e.cpu], e.cpu, |s.pcs|)
    ensures Orderly(s, e.cpu, Enter(s, e))
  {
    assert PcInRange(s.pcs[e.cpu], s.current[e.cpu].Some?, |s.threads|, s.lists);
  }

  lemma LocalOrderly(s: State, e: Event)
    requires WellFormed(s) && e.cpu < |s.pcs|
    requires s.flags[e.cpu] == FlagUp(s.pcs[e.cpu]) && CountSane(s.pcs[e.cpu], e.cpu, |s.pcs|)
    ensures Orderly(s, e.cpu, Local(s, e))
  {
    match s.pcs[e.cpu]
    case Outside | Raise | CheckIdle | IdleWait | IdleLower | Counting(_, _) => EnterOrderly(s, e);
    case LostLower | LostTest | LostStamp | LostReady | LostStop | LostAffinity | LostRunIdle | LostSwitch =>
      FallBackOrderly(s, e.cpu);
    case WonStamp | WonReady | WonStop | WonAffinity | Callbacks =>
    case Scan(_, _, _, _, _, _) => SearchOrderly(s, e.cpu);
    case _ => TakeOrderly(s, e.cpu);
  }

  lemma ExclusionKept(s: State, e: Event)
    requires WellFormed(s) && Exclusion(s)
    ensures Exclusion(Step(s, e))
  {
    if e.cpu < |s.pcs| {
      LocalOrderly(s, e);
      var s' := Step(s, e);
      var c := e.cpu;
      forall b | 0 <= b < |s.pcs| && b != c
        ensures !(PassedOver(s'.pcs[c], c, b) && PassedOver(s'.pcs[b], b, c))
      {
        assert !(PassedOver(s.pcs[c], c, b) && PassedOver(s.pcs[b], b, c));
      }
    }
  }

  lemma {:induction false} ExclusionOnRuns(s: State, events: seq<Event>)
    requires WellFormed(s) && Exclusion(s)
    ensures Exclusion(Run(s, events))
    decreases |events|
  {
    if events != [] {
      ExclusionKept(s, events[0]);
      ExclusionOnRuns(Step(s, events[0]), events[1..]);
    }
  }

  /** In every interleaving, two different CPUs are never both in the critical region. */
  lemma MutualExclusion(s: State, events: seq<Event>, a: nat, b: nat)
    requires Init(s) && a < |s.pcs| && b < |s.pcs|
    ensures var s' := Run(s, events);
      |s'.pcs| == |s.pcs| && (Critical(s'.pcs[a]) && Critical(s'.pcs[b]) ==> a == b)
  {
    ExclusionOnRuns(s, events);
    RunKeepsCpus(s, events);
  }

  lemma {:induction false} RunKeepsCpus(s: State, events: seq<Event>)
    requires WellFormed(s)
    ensures |Run(s, events).pcs| == |s.pcs|
    decreases |events|
  {
    if events != [] {
      RunKeepsCpus(Step(s, events[0]), events[1..]);
    }
  }
}
