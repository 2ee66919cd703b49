/**
 Which CPU holds which thread. A CPU holds a thread from the store that sets RUNNING to the store
 that restores the original affinity mask.
 */
module SchedulerOwnership {
  import opened Options
  import opened SchedulerTypes
  import opened SchedulerProtocol
  import opened SchedulerExclusion

  /** The thread a CPU holds, if any. */
  function Holding(pc: Pc, current: Option<nat>, idle: nat): Option<nat> {
    match pc
    case LostSwitch => Some(idle)
    case LostRunIdle | Callbacks | Scan(_, _, _, _, _, _) | Found(_, _, _) => None
    case KeepAffinity | KeepRun | TakeAffinity(_) | TakeSwitch(_) | TakeSlice(_) | TakeRun(_) | Fault => None
    case _ => current
  }

  function Held(s: State, c: nat): Option<nat>
    requires WellFormed(s) && c < |s.pcs|
  {
    Holding(s.pcs[c], s.current[c], s.idle[c])
  }

  /** No thread is held by two CPUs. */
  ghost predicate Exclusive(s: State)
    requires WellFormed(s)
  {
    forall c, d :: 0 <= c < d < |s.pcs| && Held(s, c).Some? ==> Held(s, c) != Held(s, d)
  }

  ghost predicate Unheld(s: State, t: nat)
    requires WellFormed(s)
  {
    forall c :: 0 <= c < |s.pcs| ==> Held(s, c) != Some(t)
  }

  // ----- the invariant

  /** The thread the search has chosen so far, up to the store that sets RUNNING. */
  function Chosen(pc: Pc, current: Option<nat>): Option<nat> {
    match pc
    case Scan(_, _, best, _, _, _) => best
    case Found(_, t, _) => Some(t)
    case KeepAffinity | KeepRun => current
    case TakeAffinity(t) => Some(t)
    case TakeSwitch(t) => Some(t)
    case TakeSlice(t) => Some(t)
    case TakeRun(t) => Some(t)
    case _ => None
  }

  /** The thread at the cursor, once it has passed the status test. */
  function Ready(pc: Pc, lists: seq<seq<nat>>): Option<nat> {
    if pc.Scan? && (pc.point.TestAffinity? || pc.point.TestSlice? || pc.point.Compare?)
       && pc.list < |lists| && pc.pos < |lists[pc.list]|
    then Some(lists[pc.list][pc.pos]) else None
  }

  /** The thread at the cursor, once it has passed the affinity test as well. */
  function Tested(pc: Pc, lists: seq<seq<nat>>): Option<nat> {
    if pc.Scan? && pc.point.TestAffinity? then None else Ready(pc, lists)
  }

  predicate Eyes(pc: Pc, current: Option<nat>, lists: seq<seq<nat>>, t: nat) {
    Chosen(pc, current) == Some(t) || Tested(pc, lists) == Some(t)
  }

  predicate HeldOk(t: Thread, pc: Pc, c: nat) {
    && t.affinity == {c}
    && !t.status.dead
    && t.status.running == !(pc.LostAffinity? || pc.WonAffinity?)
    && t.status.canRun == (pc.LostStop? || pc.LostAffinity? || pc.WonStop? || pc.WonAffinity?)
  }

  predicate Alive(t: Option<nat>, threads: seq<Thread>) {
    t.Some? ==> t.value < |threads| && !threads[t.value].status.dead
  }

  ghost predicate CpuOk(pc: Pc, current: Option<nat>, idle: nat, threads: seq<Thread>, lists: seq<seq<nat>>, c: nat) {
    && var held := Holding(pc, current, idle);
    && (held.Some? ==> held.value < |threads| && HeldOk(threads[held.value], pc, c))
    && Alive(Chosen(pc, current), threads) && Alive(Ready(pc, lists), threads)
    && (Pinned(pc) && Chosen(pc, current).Some? ==> threads[Chosen(pc, current).value].affinity == {c})
    && (pc.TakeSlice? || pc.TakeRun? ==> current == Some(pc.thread))
    && (pc.Scan? ==> pc.high < 2)
    && !pc.Fault?
  }

  predicate Pinned(pc: Pc) {
    pc.TakeSwitch? || pc.TakeSlice? || pc.TakeRun? || pc.KeepRun?
  }

  ghost predicate IdleOk(t: Thread, c: nat) {
    t.affinity == t.ogAffinity == {c} && !t.status.dead
  }

  ghost predicate Apart(s: State, c: nat, d: nat, t: nat)
    requires WellFormed(s) && c < |s.pcs| && d < |s.pcs|
  {
    Held(s, c) == Some(t) || Eyes(s.pcs[c], s.current[c], s.lists, t) ==> Held(s, d) != Some(t) && s.idle[d] != t
  }

  /** A thread that nobody holds is ready or dead, and never marked running. */
  ghost predicate FreeOk(s: State, t: nat)
    requires WellFormed(s) && t < |s.threads|
  {
    Unheld(s, t) ==> FreeStart(s.threads[t])
  }

  ghost predicate Ownership(s: State)
    requires WellFormed(s)
  {
    && (forall c :: 0 <= c < |s.pcs| ==> CpuOk(s.pcs[c], s.current[c], s.idle[c], s.threads, s.lists, c))
    && (forall c :: 0 <= c < |s.pcs| ==> IdleOk(s.threads[s.idle[c]], c))
    && (forall c, d, t :: 0 <= c < |s.pcs| && 0 <= d < |s.pcs| && c != d && 0 <= t < |s.threads| ==> Apart(s, c, d, t))
    && (forall t :: 0 <= t < |s.threads| ==> FreeOk(s, t))
  }

  // ----- what one step guarantees

  ghost function After(s: State, f: Effect): seq<Thread>
    requires f.store.Some? ==> f.store.value.thread < |s.threads|
  {
    if f.store.Some? then s.threads[f.store.value.thread := f.store.value.value] else s.threads
  }

  /** The store keeps what no step changes, and changes who may run the thread only if CPU `c` holds or eyes it. */
  ghost predicate StoreOk(s: State, c: nat, f: Effect)
    requires WellFormed(s) && c < |s.pcs|
  {
    f.store.Some? ==>
      var t := f.store.value.thread;
      var v := f.store.value.value;
      && t < |s.threads|
      && v.ogAffinity == s.threads[t].ogAffinity
      && v.status.dead == s.threads[t].status.dead
      && (SameClaim(v, s.threads[t]) || Held(s, c) == Some(t) || Eyes(s.pcs[c], s.current[c], s.lists, t)
          || (t == s.idle[c] && v.affinity == s.threads[t].affinity))
      && (v.affinity == s.threads[t].affinity || v.affinity == {c}
          || (Held(s, c) == Some(t) && v.affinity == v.ogAffinity))
  }

  predicate SameClaim(v: Thread, w: Thread) {
    v.affinity == w.affinity && v.status.running == w.status.running && v.status.canRun == w.status.canRun
  }

  ghost predicate Guarantee(s: State, c: nat, f: Effect)
    requires WellFormed(s) && c < |s.pcs|
  {
    var pc, held, chosen := s.pcs[c], Held(s, c), Chosen(s.pcs[c], s.current[c]);
    var held', chosen', tested' := Holding(f.pc, f.current, s.idle[c]), Chosen(f.pc, f.current), Tested(f.pc, s.lists);
    && StoreOk(s, c, f)
    && CpuOk(f.pc, f.current, s.idle[c], After(s, f), s.lists, c)
    // a thread newly held was chosen, or is the idle thread
    && (held'.Some? ==> held' == held || held' == chosen || held' == Some(s.idle[c]))
    // a thread newly chosen was tested, and a tested thread admits this CPU
    && (chosen'.Some? ==> chosen' == chosen || chosen' == Some(s.idle[c]) || chosen' == Tested(pc, s.lists))
    && (tested'.Some? ==> tested' == Tested(pc, s.lists) || c in s.threads[tested'.value].affinity)
    // a thread let go is ready
    && (held.Some? && held' != held ==> FreeStart(After(s, f)[held.value]))
    // only a holder marks a thread running
    && (f.store.Some? && held' != Some(f.store.value.thread) ==>
          FreeStart(s.threads[f.store.value.thread]) ==> FreeStart(f.store.value.value))
  }

  lemma EnterGuarantee(s: State, e: Event)
    requires WellFormed(s) && e.cpu < |s.pcs| && CpuPart(s, e.cpu)
    requires s.pcs[e.cpu].Outside? || s.pcs[e.cpu].Raise? || s.pcs[e.cpu].CheckIdle? || s.pcs[e.cpu].IdleWait?
          || s.pcs[e.cpu].IdleLower? || s.pcs[e.cpu].Counting?
    ensures Guarantee(s, e.cpu, Enter(s, e))
  {
    assert PcInRange(s.pcs[e.cpu], s.current[e.cpu].Some?, |s.threads|, s.lists);
  }

  lemma FallBackGuarantee(s: State, c: nat)
    requires WellFormed(s) && c < |s.pcs| && CpuPart(s, c)
    requires s.pcs[c].LostLower? || s.pcs[c].LostTest? || s.pcs[c].LostStamp? || s.pcs[c].LostReady?
          || s.pcs[c].LostStop? || s.pcs[c].LostAffinity? || s.pcs[c].LostRunIdle? || s.pcs[c].LostSwitch?
    ensures Guarantee(s, c, FallBack(s, c))
  {
    assert PcInRange(s.pcs[c], s.current[c].Some?, |s.threads|, s.lists);
  }

  lemma PreemptGuarantee(s: State, e: Event)
    requires WellFormed(s) && e.cpu < |s.pcs| && CpuPart(s, e.cpu)
    requires s.pcs[e.cpu].WonStamp? || s.pcs[e.cpu].WonReady? || s.pcs[e.cpu].WonStop?
          || s.pcs[e.cpu].WonAffinity? || s.pcs[e.cpu].Callbacks?
    ensures Guarantee(s, e.cpu, Preempt(s, e))
  {
    assert PcInRange(s.pcs[e.cpu], s.current[e.cpu].Some?, |s.threads|, s.lists);
  }

  lemma ListDoneGuarantee(s: State, c: nat)
    requires WellFormed(s) && c < |s.pcs| && CpuPart(s, c) && s.pcs[c].Scan?
    ensures Guarantee(s, c, ListDone(s, c))
  {
    assert PcInRange(s.pcs[c], s.current[c].Some?, |s.threads|, s.lists);
  }

  lemma TestGuarantee(s: State, c: nat)
    requires WellFormed(s) && c < |s.pcs| && CpuPart(s, c) && s.pcs[c].Scan?
    requires s.pcs[c].list < 4 && s.pcs[c].pos < |s.lists[s.pcs[c].list]|
    requires s.pcs[c].point.ReadRecharge? || s.pcs[c].point.TestStatus? || s.pcs[c].point.TestAffinity?
          || s.pcs[c].point.TestSlice? || s.pcs[c].point.Compare?
    ensures Guarantee(s, c, AtCursor(s, c))
  {
    assert PcInRange(s.pcs[c], s.current[c].Some?, |s.threads|, s.lists);
  }

  /** A scan step that eyes no new thread and stores nothing about who may run. */
  lemma QuietGuarantee(s: State, c: nat, f: Effect)
    requires WellFormed(s) && c < |s.pcs| && CpuPart(s, c) && s.pcs[c].Scan? && f.pc.Scan?
    requires f.pc.best == s.pcs[c].best && f.pc.high == s.pcs[c].high
    requires f.pc.point.TestStatus? || f.pc.point.ZeroSlice? || f.pc.point.ReadRecharge?
    requires f.store.Some? ==>
      var t, v := f.store.value.thread, f.store.value.value;
      && t < |s.threads| && SameClaim(v, s.threads[t])
      && v.ogAffinity == s.threads[t].ogAffinity && v.status.dead == s.threads[t].status.dead
    ensures Guarantee(s, c, f)
  {
  }

  lemma RechargeGuarantee(s: State, c: nat)
    requires WellFormed(s) && c < |s.pcs| && CpuPart(s, c) && s.pcs[c].Scan?
    requires s.pcs[c].list < 4 && s.pcs[c].pos < |s.lists[s.pcs[c].list]|
    requires s.pcs[c].point.Mark? || s.pcs[c].point.ClearMark? || s.pcs[c].point.ZeroSlice?
    ensures Guarantee(s, c, AtCursor(s, c))
  {
    QuietGuarantee(s, c, AtCursor(s, c));
  }

  lemma ClaimGuarantee(s: State, c: nat)
    requires WellFormed(s) && c < |s.pcs| <= 64 && CpuPart(s, c)
    requires s.pcs[c].Found? || s.pcs[c].KeepAffinity? || s.pcs[c].TakeAffinity? || s.pcs[c].TakeSwitch?
    ensures Guarantee(s, c, Take(s, c))
  {
    assert PcInRange(s.pcs[c], s.current[c].Some?, |s.threads|, s.lists);
  }

  lemma RunGuarantee(s: State, c: nat)
    requires WellFormed(s) && c < |s.pcs| && CpuPart(s, c)
    requires s.pcs[c].KeepRun? || s.pcs[c].TakeSlice? || s.pcs[c].TakeRun? || s.pcs[c].Lower?
    ensures Guarantee(s, c, Take(s, c))
  {
    assert PcInRange(s.pcs[c], s.current[c].Some?, |s.threads|, s.lists);
  }

  /** What a step needs to know: the invariant of its own CPU. */
  ghost predicate CpuPart(s: State, c: nat)
    requires WellFormed(s) && c < |s.pcs|
  {
    && CpuOk(s.pcs[c], s.current[c], s.idle[c], s.threads, s.lists, c)
    && IdleOk(s.threads[s.idle[c]], c)
    && (s.pcs[c].Found? ==> !s.threads[s.pcs[c].thread].status.running)
  }

  lemma LocalGuarantee(s: State, e: Event)
    requires WellFormed(s) && e.cpu < |s.pcs| <= 64 && CpuPart(s, e.cpu)
    ensures Guarantee(s, e.cpu, Local(s, e))
  {
    match s.pcs[e.cpu]
    case Outside | Raise | CheckIdle | IdleWait | IdleLower | Counting(_, _) => EnterGuarantee(s, e);
    case LostLower | LostTest | LostStamp | LostReady | LostStop | LostAffinity | LostRunIdle | LostSwitch =>
      FallBackGuarantee(s, e.cpu);
    case WonStamp | WonReady | WonStop | WonAffinity | Callbacks => PreemptGuarantee(s, e);
    case Scan(l, k, _, _, _, p) =>
      assert PcInRange(s.pcs[e.cpu], s.current[e.cpu].Some?, |s.threads|, s.lists);
      if k == |s.lists[l]| {
        ListDoneGuarantee(s, e.cpu);
      } else if p.Mark? || p.ClearMark? || p.ZeroSlice? {
        RechargeGuarantee(s, e.cpu);
      } else {
        TestGuarantee(s, e.cpu);
      }
    case Found(_, _, _) | KeepAffinity | TakeAffinity(_) | TakeSwitch(_) => ClaimGuarantee(s, e.cpu);
    case _ => RunGuarantee(s, e.cpu);
  }

  // ----- the invariant is kept

  /** A thread that a CPU eyes is held by nobody. */
  lemma EyedIsFree(s: State, c: nat, t: nat)
    requires WellFormed(s) && Ownership(s) && c < |s.pcs| && t < |s.threads|
    requires Eyes(s.pcs[c], s.current[c], s.lists, t)
    ensures Unheld(s, t) && FreeStart(s.threads[t])
  {
    forall d | 0 <= d < |s.pcs| ensures Held(s, d) != Some(t) {
      if d != c { assert Apart(s, c, d, t); }
    }
    assert FreeOk(s, t);
  }

  lemma OwnCpuPart(s: State, c: nat)
    requires WellFormed(s) && Ownership(s) && c < |s.pcs|
    ensures CpuPart(s, c)
  {
    assert PcInRange(s.pcs[c], s.current[c].Some?, |s.threads|, s.lists);
    if s.pcs[c].Found? { EyedIsFree(s, c, s.pcs[c].thread); }
  }

  /** The store of one CPU leaves alone what another CPU holds or eyes. */
  lemma OthersUntouched(s: State, c: nat, d: nat, f: Effect, t: nat)
    requires WellFormed(s) && Exclusion(s) && Ownership(s)
    requires c < |s.pcs| && d < |s.pcs| && c != d && t < |s.threads|
    requires Guarantee(s, c, f)
    requires Held(s, d) == Some(t) || Eyes(s.pcs[d], s.current[d], s.lists, t)
    ensures SameClaim(After(s, f)[t], s.threads[t]) && After(s, f)[t].status.dead == s.threads[t].status.dead
  {
    assert Apart(s, d, c, t);
    assert Apart(s, c, d, t);
    assert !(PassedOver(s.pcs[c], c, d) && PassedOver(s.pcs[d], d, c));
  }

  lemma OtherCpuOk(s: State, c: nat, d: nat, f: Effect)
    requires WellFormed(s) && Exclusion(s) && Ownership(s)
    requires c < |s.pcs| && d < |s.pcs| && c != d
    requires Guarantee(s, c, f)
    ensures CpuOk(s.pcs[d], s.current[d], s.idle[d], After(s, f), s.lists, d)
  {
    assert CpuOk(s.pcs[d], s.current[d], s.idle[d], s.threads, s.lists, d);
    var held, chosen := Held(s, d), Chosen(s.pcs[d], s.current[d]);
    if held.Some? { OthersUntouched(s, c, d, f, held.value); }
    if chosen.Some? { OthersUntouched(s, c, d, f, chosen.value); }
  }

  lemma IdleKept(s: State, c: nat, d: nat, f: Effect)
    requires WellFormed(s) && Ownership(s) && c < |s.pcs| && d < |s.pcs|
    requires Guarantee(s, c, f)
    ensures IdleOk(After(s, f)[s.idle[d]], d)
  {
    assert IdleOk(s.threads[s.idle[d]], d);
    assert CpuOk(s.pcs[c], s.current[c], s.idle[c], s.threads, s.lists, c);
    if c != d { assert Apart(s, c, d, s.idle[d]); }
  }

  /** What CPU `c` holds or eyes after its step is neither held by `d` nor its idle thread. */
  lemma MoverApart(s: State, c: nat, d: nat, f: Effect, t: nat)
    requires WellFormed(s) && Exclusion(s) && Ownership(s)
    requires c < |s.pcs| && d < |s.pcs| && c != d && t < |s.threads|
    requires Guarantee(s, c, f)
    requires Holding(f.pc, f.current, s.idle[c]) == Some(t) || Eyes(f.pc, f.current, s.lists, t)
    ensures Held(s, d) != Some(t) && s.idle[d] != t
  {
    assert Apart(s, c, d, t);
    assert IdleOk(s.threads[s.idle[c]], c) && IdleOk(s.threads[s.idle[d]], d);
    assert CpuOk(s.pcs[d], s.current[d], s.idle[d], s.threads, s.lists, d);
  }

  /** What CPU `d` holds or eyes is not what `c` comes to hold. */
  lemma OtherApart(s: State, c: nat, d: nat, f: Effect, t: nat)
    requires WellFormed(s) && Exclusion(s) && Ownership(s)
    requires c < |s.pcs| && d < |s.pcs| && c != d && t < |s.threads|
    requires Guarantee(s, c, f)
    requires Held(s, d) == Some(t) || Eyes(s.pcs[d], s.current[d], s.lists, t)
    ensures Holding(f.pc, f.current, s.idle[c]) != Some(t)
  {
    assert Apart(s, d, c, t) && Apart(s, c, d, t);
    assert !(PassedOver(s.pcs[c], c, d) && PassedOver(s.pcs[d], d, c));
  }

  lemma ApartKept(s: State, e: Event, c: nat, d: nat, t: nat)
    requires WellFormed(s) && Exclusion(s) && Ownership(s) && e.cpu < |s.pcs|
    requires c < |s.pcs| && d < |s.pcs| && c != d && t < |s.threads|
    requires Guarantee(s, e.cpu, Local(s, e))
    ensures Apart(Step(s, e), c, d, t)
  {
    var s' := Step(s, e);
    assert Apart(s, c, d, t);
    if Held(s', c) == Some(t) || Eyes(s'.pcs[c], s'.current[c], s'.lists, t) {
      if e.cpu == c {
        MoverApart(s, c, d, Local(s, e), t);
      } else if e.cpu == d {
        OtherApart(s, d, c, Local(s, e), t);
      }
    }
  }

  lemma FreeKept(s: State, e: Event, t: nat)
    requires WellFormed(s) && Ownership(s) && e.cpu < |s.pcs| && t < |s.threads|
    requires Guarantee(s, e.cpu, Local(s, e))
    ensures FreeOk(Step(s, e), t)
  {
    var s', c := Step(s, e), e.cpu;
    if Unheld(s', t) {
      assert Held(s', c) != Some(t);
      if Held(s, c) != Some(t) {
        forall d | 0 <= d < |s.pcs| ensures Held(s, d) != Some(t) {
          assert Held(s', d) != Some(t);
        }
        assert FreeOk(s, t);
      }
    }
  }

  lemma OwnershipKept(s: State, e: Event)
    requires WellFormed(s) && Exclusion(s) && Ownership(s) && |s.pcs| <= 64
    ensures Ownership(Step(s, e))
  {
    if e.cpu < |s.pcs| {
      var s', c := Step(s, e), e.cpu;
      OwnCpuPart(s, c);
      LocalGuarantee(s, e);
      forall d | 0 <= d < |s.pcs|
        ensures CpuOk(s'.pcs[d], s'.current[d], s'.idle[d], s'.threads, s'.lists, d)
        ensures IdleOk(s'.threads[s'.idle[d]], d)
      {
        if d != c { OtherCpuOk(s, c, d, Local(s, e)); }
        IdleKept(s, c, d, Local(s, e));
      }
      forall a, b, t | 0 <= a < |s.pcs| && 0 <= b < |s.pcs| && a != b && 0 <= t < |s.threads|
        ensures Apart(s', a, b, t)
      {
        ApartKept(s, e, a, b, t);
      }
      forall t | 0 <= t < |s.threads| ensures FreeOk(s', t) {
        FreeKept(s, e, t);
      }
    }
  }

  lemma {:induction false} OwnershipOnRuns(s: State, events: seq<Event>)
    requires WellFormed(s) && Exclusion(s) && Ownership(s) && |s.pcs| <= 64
    ensures Ownership(Run(s, events)) && |Run(s, events).pcs| == |s.pcs| && |Run(s, events).threads| == |s.threads|
    decreases |events|
  {
    if events != [] {
      OwnershipKept(s, events[0]);
      ExclusionKept(s, events[0]);
      OwnershipOnRuns(Step(s, events[0]), events[1..]);
    }
  }

  lemma InitCpuOk(s: State, c: nat)
    requires Init(s) && c < |s.pcs| <= 64
    ensures CpuOk(s.pcs[c], s.current[c], s.idle[c], s.threads, s.lists, c)
    ensures IdleOk(s.threads[s.idle[c]], c)
  {
    assert s.pcs[c] == Outside;
    assert IdleStart(s.threads[s.idle[c]], c);
  }

  lemma InitApart(s: State, c: nat, d: nat, t: nat)
    requires Init(s) && c < |s.pcs| <= 64 && d < |s.pcs| && c != d && t < |s.threads|
    ensures Apart(s, c, d, t)
  {
    assert s.pcs[c] == s.pcs[d] == Outside;
    InitCpuOk(s, c);
    InitCpuOk(s, d);
  }

  lemma InitFreeOk(s: State, t: nat)
    requires Init(s) && t < |s.threads|
    ensures FreeOk(s, t)
  {
    if Unheld(s, t) {
      forall c | 0 <= c < |s.pcs| ensures s.current[c] != Some(t) {
        assert s.pcs[c] == Outside && Held(s, c) != Some(t);
      }
    }
  }

  lemma InitOwnership(s: State)
    requires Init(s) && |s.pcs| <= 64
    ensures Exclusion(s) && Ownership(s)
  {
    forall c | 0 <= c < |s.pcs|
      ensures CpuOk(s.pcs[c], s.current[c], s.idle[c], s.threads, s.lists, c) && IdleOk(s.threads[s.idle[c]], c)
    {
      InitCpuOk(s, c);
    }
    forall c, d, t | 0 <= c < |s.pcs| && 0 <= d < |s.pcs| && c != d && 0 <= t < |s.threads| ensures Apart(s, c, d, t) {
      InitApart(s, c, d, t);
    }
    forall t | 0 <= t < |s.threads| ensures FreeOk(s, t) {
      InitFreeOk(s, t);
    }
  }

  /**
   On at most 64 CPUs, in every interleaving: no thread is held by two CPUs, a thread that no CPU
   holds is ready or dead and is not marked running, and no CPU ever dereferences a null thread.
   */
  lemma ThreadsConserved(s: State, events: seq<Event>)
    requires Init(s) && |s.pcs| <= 64
    ensures var s' := Run(s, events);
      && Exclusive(s')
      && (forall t :: 0 <= t < |s'.threads| && Unheld(s', t) ==> FreeStart(s'.threads[t]))
      && (forall c :: 0 <= c < |s'.pcs| ==> !s'.pcs[c].Fault?)
  {
    InitOwnership(s);
    OwnershipOnRuns(s, events);
    var s' := Run(s, events);
    forall c, d | 0 <= c < d < |s'.pcs| && Held(s', c).Some? ensures Held(s', c) != Held(s', d) {
      assert CpuOk(s'.pcs[c], s'.current[c], s'.idle[c], s'.threads, s'.lists, c);
      assert Apart(s', c, d, Held(s', c).value);
    }
    forall t | 0 <= t < |s'.threads| && Unheld(s', t) ensures FreeStart(s'.threads[t]) {
      assert FreeOk(s', t);
    }
  }
}
