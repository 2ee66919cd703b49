/**
 The entry protocol of schedule() and the transfer of threads between CPUs, as a step machine.
 Every CPU has its own program counter; an event lets one CPU perform its next access to shared
 memory. A run is an arbitrary sequence of events, so every interleaving is covered.
 */
module SchedulerProtocol {
  import opened Options
  import opened SchedulerTypes

  /** Where a list scan stands with the thread at its cursor. */
  datatype ScanPoint = ReadRecharge | Mark | TestStatus | TestAffinity | TestSlice | Compare | ClearMark | ZeroSlice

  datatype Pc =
    | Outside
    | Raise
    | CheckIdle
    | IdleWait
    | IdleLower
    | Counting(next: nat, count: nat)
    // the count was not 1
    | LostLower
    | LostTest
    | LostStamp
    | LostReady
    | LostStop
    | LostAffinity
    | LostRunIdle
    | LostSwitch
    // the count was 1
    | WonStamp
    | WonReady
    | WonStop
    | WonAffinity
    | Callbacks
    | Scan(list: nat, pos: nat, best: Option<nat>, high: nat, clear: bool, point: ScanPoint)
    | Found(list: nat, thread: nat, high: nat)
    | KeepAffinity
    | KeepRun
    | TakeAffinity(thread: nat)
    | TakeSwitch(thread: nat)
    | TakeSlice(thread: nat)
    | TakeRun(thread: nat)
    | Lower
    | Fault // a null newThread was dereferenced

  datatype State = State(
    flags: seq<bool>,          // schedulerLock of each CPU
    pcs: seq<Pc>,
    current: seq<Option<nat>>, // currentThread of each CPU
    idle: seq<nat>,            // idleThread of each CPU
    threads: seq<Thread>,
    lists: seq<seq<nat>>,      // the four run lists, tail to head
    ticks: nat)

  /** One step of CPU `cpu`; the other fields settle what the machine does not compute itself:
      the list the weighted round robin starts from, and what a block callback answers. */
  datatype Event = Event(cpu: nat, startList: nat, answer: bool, target: nat)

  ghost predicate WellFormed(s: State) {
    && |s.pcs| == |s.flags| == |s.current| == |s.idle|
    && |s.lists| == 4
    && (forall c :: 0 <= c < |s.idle| ==> s.idle[c] < |s.threads|)
    && (forall c :: 0 <= c < |s.current| && s.current[c].Some? ==> s.current[c].value < |s.threads|)
    && (forall l, k :: 0 <= l < 4 && 0 <= k < |s.lists[l]| ==> s.lists[l][k] < |s.threads|)
    && (forall c :: 0 <= c < |s.pcs| ==> PcInRange(s.pcs[c], s.current[c].Some?, |s.threads|, s.lists))
  }

  /** The operands of a program counter are in range; `busy` says that the CPU has a current thread. */
  predicate PcInRange(pc: Pc, busy: bool, nThreads: nat, lists: seq<seq<nat>>)
    requires |lists| == 4
  {
    match pc
    case Scan(l, k, best, _, _, p) =>
      && l < 4 && (if p == ReadRecharge then k <= |lists[l]| else k < |lists[l]|)
      && (best.Some? ==> best.value < nThreads)
    case Found(l, t, _) => l < 4 && t < nThreads
    case TakeAffinity(t) => t < nThreads
    case TakeSwitch(t) => t < nThreads
    case TakeSlice(t) => t < nThreads
    case TakeRun(t) => t < nThreads
    case Outside => true
    case Raise => true
    case CheckIdle => true
    case Counting(_, _) => true
    case LostLower => true
    case LostRunIdle => true
    case LostSwitch => true
    case Callbacks => true
    case Lower => true
    case Fault => true
    case _ => busy
  }

  /** What one step of a CPU does: its next program counter, its own flag and current thread, and at
      most one store to a thread. */
  datatype Effect = Effect(pc: Pc, flag: bool, current: Option<nat>, store: Option<Store>)
  datatype Store = Store(thread: nat, value: Thread)

  ghost predicate EffectInRange(s: State, f: Effect)
    requires |s.lists| == 4
  {
    && PcInRange(f.pc, f.current.Some?, |s.threads|, s.lists)
    && (f.current.Some? ==> f.current.value < |s.threads|)
    && (f.store.Some? ==> f.store.value.thread < |s.threads|)
  }

  /** Moves on to `pc` and changes nothing else. */
  function Go(s: State, c: nat, pc: Pc): Effect
    requires c < |s.flags| == |s.current|
  {
    Effect(pc, s.flags[c], s.current[c], None)
  }

  /** Moves on to `pc`, storing `thread` as the fields of thread `t`. */
  function GoStore(s: State, c: nat, pc: Pc, t: nat, thread: Thread): Effect
    requires c < |s.flags| == |s.current|
  {
    Effect(pc, s.flags[c], s.current[c], Some(Store(t, thread)))
  }

  /** Moves on to `pc`, changing the CPU's current thread. */
  function Update(s: State, c: nat, pc: Pc, change: Thread -> Thread): Effect
    requires c < |s.flags| == |s.current| && s.current[c].Some? && s.current[c].value < |s.threads|
  {
    GoStore(s, c, pc, s.current[c].value, change(s.threads[s.current[c].value]))
  }

  function Apply(s: State, c: nat, f: Effect): (s': State)
    requires WellFormed(s) && c < |s.pcs| && EffectInRange(s, f)
    ensures WellFormed(s')
  {
    s.(flags := s.flags[c := f.flag],
       pcs := s.pcs[c := f.pc],
       current := s.current[c := f.current],
       threads := if f.store.Some? then s.threads[f.store.value.thread := f.store.value.value] else s.threads)
  }

  /** The state after event `e`. An event that names no CPU changes nothing. CPU 0 counts timer ticks. */
  function Step(s: State, e: Event): (s': State)
    requires WellFormed(s)
    ensures WellFormed(s')
  {
    if e.cpu >= |s.pcs| then s else
    var s1 := if e.cpu == 0 && s.pcs[0].Outside? then s.(ticks := s.ticks + 1) else s;
    Apply(s1, e.cpu, Local(s, e))
  }

  function Local(s: State, e: Event): (f: Effect)
    requires WellFormed(s) && e.cpu < |s.pcs|
    ensures EffectInRange(s, f)
  {
    match s.pcs[e.cpu]
    case Outside | Raise | CheckIdle | IdleWait | IdleLower | Counting(_, _) => Enter(s, e)
    case LostLower | LostTest | LostStamp | LostReady | LostStop | LostAffinity | LostRunIdle | LostSwitch =>
      FallBack(s, e.cpu)
    case WonStamp | WonReady | WonStop | WonAffinity | Callbacks => Preempt(s, e)
    case Scan(_, _, _, _, _, _) => Search(s, e.cpu)
    case _ => Take(s, e.cpu)
  }

  /** Lines 154-203: raise the own flag, then count the raised flags one by one. */
  function Enter(s: State, e: Event): (f: Effect)
    requires WellFormed(s) && e.cpu < |s.pcs|
    ensures EffectInRange(s, f)
  {
    var c := e.cpu;
    assert PcInRange(s.pcs[c], s.current[c].Some?, |s.threads|, s.lists);
    match s.pcs[c]
    case Outside => Go(s, c, if s.flags[c] then Outside else Raise)
    case Raise => Go(s, c, CheckIdle).(flag := true)
    case CheckIdle =>
      Go(s, c, if s.current[c] == Some(s.idle[c]) && s.threads[s.idle[c]].status.blocked then IdleWait
               else Counting(0, 0))
    case IdleWait =>
      if !e.answer then Go(s, c, IdleWait)
      else Update(s, c, IdleLower, Unblocked)
    case IdleLower => Go(s, c, Outside).(flag := false)
    case Counting(i, n) =>
      if i < |s.flags| then Go(s, c, Counting(i + 1, if s.flags[i] then n + 1 else n))
      else if n != 1 then Go(s, c, LostLower)
      else Go(s, c, if s.current[c].Some? then WonStamp else Callbacks)
    case _ => Go(s, c, s.pcs[c])
  }

  /** Lines 205-223: lower the flag first, then release the thread and fall back to the idle thread. */
  function FallBack(s: State, c: nat): (f: Effect)
    requires WellFormed(s) && c < |s.pcs|
    ensures EffectInRange(s, f)
  {
    assert PcInRange(s.pcs[c], s.current[c].Some?, |s.threads|, s.lists);
    match s.pcs[c]
    case LostLower => Go(s, c, if s.current[c].Some? then LostTest else Outside).(flag := false)
    case LostTest => Go(s, c, if ThreadCanRun(s.threads[s.current[c].value], c) then Outside else LostStamp)
    case LostStamp => Update(s, c, LostReady, (t: Thread) => t.(lastPreempted := s.ticks))
    case LostReady => Update(s, c, LostStop, MadeReady)
    case LostStop => Update(s, c, LostAffinity, Stopped)
    case LostAffinity => Update(s, c, LostRunIdle, Released)
    case LostRunIdle => GoStore(s, c, LostSwitch, s.idle[c], Dispatched(s.threads[s.idle[c]]))
    case LostSwitch => Go(s, c, Outside).(current := Some(s.idle[c]))
    case _ => Go(s, c, s.pcs[c])
  }

  /** The event is a block callback of a blocked thread in a run list, and it answers true. */
  predicate Wakes(s: State, e: Event)
    requires |s.lists| == 4
  {
    e.answer && e.target < |s.threads| && Listed(s.lists, e.target) && s.threads[e.target].status.blocked
  }

  /** Lines 226-240: release the preempted thread, run the block callbacks, choose a start list. */
  function Preempt(s: State, e: Event): (f: Effect)
    requires WellFormed(s) && e.cpu < |s.pcs|
    ensures EffectInRange(s, f)
  {
    var c := e.cpu;
    assert PcInRange(s.pcs[c], s.current[c].Some?, |s.threads|, s.lists);
    if s.pcs[c].Callbacks? then
      if Wakes(s, e) then GoStore(s, c, Callbacks, e.target, Unblocked(s.threads[e.target]))
      else Go(s, c, Scan(e.startList % 4, 0, None, 0, false, ReadRecharge))
    else
      match s.pcs[c]
      case WonStamp => Update(s, c, WonReady, (t: Thread) => t.(lastPreempted := s.ticks))
      case WonReady => Update(s, c, WonStop, (t: Thread) => if t.status.dead then t else MadeReady(t))
      case WonStop => Update(s, c, WonAffinity, Stopped)
      case WonAffinity => Update(s, c, Callbacks, Released)
      case _ => Go(s, c, s.pcs[c])
  }

  /** One access of the search for a thread. */
  function Search(s: State, c: nat): (f: Effect)
    requires WellFormed(s) && c < |s.pcs| && s.pcs[c].Scan?
    ensures EffectInRange(s, f)
  {
    assert PcInRange(s.pcs[c], s.current[c].Some?, |s.threads|, s.lists);
    if s.pcs[c].pos == |s.lists[s.pcs[c].list]| then ListDone(s, c) else AtCursor(s, c)
  }

  /** Lines 243-261: a scan has reached the end of its list. */
  function ListDone(s: State, c: nat): (f: Effect)
    requires WellFormed(s) && c < |s.pcs| && s.pcs[c].Scan?
    ensures EffectInRange(s, f)
  {
    assert PcInRange(s.pcs[c], s.current[c].Some?, |s.threads|, s.lists);
    var pc := s.pcs[c];
    if pc.best.Some? then Go(s, c, Found(pc.list, if pc.high == 2 then s.idle[c] else pc.best.value, pc.high))
    else
      var high := if pc.list == 3 then pc.high + 1 else pc.high;
      if high < 2 then Go(s, c, Scan(PrevList(pc.list), 0, None, high, false, ReadRecharge))
      else Go(s, c, if high == 2 then Found(PrevList(pc.list), s.idle[c], high) else Fault)
  }

  /** Lines 62-85: one access to the thread at the cursor. */
  function AtCursor(s: State, c: nat): (f: Effect)
    requires WellFormed(s) && c < |s.pcs| && s.pcs[c].Scan?
    requires s.pcs[c].list < 4 && s.pcs[c].pos < |s.lists[s.pcs[c].list]|
    ensures EffectInRange(s, f)
  {
    var pc := s.pcs[c];
    assert PcInRange(pc, s.current[c].Some?, |s.threads|, s.lists);
    var t := s.lists[pc.list][pc.pos];
    var (next, value) := Access(pc, t, s.threads, c);
    Effect(next, s.flags[c], s.current[c], if value.Some? then Some(Store(t, value.value)) else None)
  }

  /** Where an access to thread `t` at the cursor of a scan leads, and what it stores there. */
  function Access(pc: Pc, t: nat, threads: seq<Thread>, c: nat): (Pc, Option<Thread>)
    requires pc.Scan? && t < |threads| && (pc.best.Some? ==> pc.best.value < |threads|)
  {
    var thread := threads[t];
    var next := pc.(pos := pc.pos + 1, point := ReadRecharge);
    match pc.point
    case ReadRecharge => (pc.(clear := thread.status.recharge, point := Mark), None)
    case Mark =>
      (pc.(point := TestStatus), if thread.timeSlice >= thread.priority then Some(Marked(thread, true)) else None)
    case TestStatus => (pc.(point := if thread.status == READY then TestAffinity else ClearMark), None)
    case TestAffinity => (pc.(point := if c in thread.affinity then TestSlice else ClearMark), None)
    case TestSlice => (pc.(point := if thread.timeSlice < thread.priority then Compare else ClearMark), None)
    case Compare =>
      var better := pc.best.None? || thread.lastPreempted < threads[pc.best.value].lastPreempted;
      (pc.(best := if better then Some(t) else pc.best, point := ClearMark), None)
    case ClearMark => if pc.clear then (pc.(point := ZeroSlice), Some(Marked(thread, false))) else (next, None)
    case ZeroSlice => (next, Some(thread.(timeSlice := 0)))
  }

  /** Lines 264-284: take the thread that the search found, then lower the flag. */
  function Take(s: State, c: nat): (f: Effect)
    requires WellFormed(s) && c < |s.pcs|
    ensures EffectInRange(s, f)
  {
    assert PcInRange(s.pcs[c], s.current[c].Some?, |s.threads|, s.lists);
    match s.pcs[c]
    case Found(l, t, high) =>
      if Some(t) == s.current[c] then Go(s, c, KeepAffinity)
      else if s.threads[t].status.running then Go(s, c, Scan(l, 0, None, high, false, ReadRecharge))
      else Go(s, c, TakeAffinity(t))
    case KeepAffinity => Update(s, c, KeepRun, (t: Thread) => t.(affinity := {c}))
    case KeepRun => Update(s, c, Lower, Dispatched)
    case TakeAffinity(t) => GoStore(s, c, TakeSwitch(t), t, s.threads[t].(affinity := Mask64(c)))
    case TakeSwitch(t) => Go(s, c, TakeSlice(t)).(current := Some(t))
    case TakeSlice(t) => GoStore(s, c, TakeRun(t), t, s.threads[t].(timeSlice := s.threads[t].timeSlice + 1))
    case TakeRun(t) => GoStore(s, c, Lower, t, Dispatched(s.threads[t]))
    case Lower => Go(s, c, Outside).(flag := false)
    case _ => Go(s, c, s.pcs[c])
  }

  // ----- the stores, one field at a time

  /** Clears CAN_RUN and sets RUNNING in one store. */
  function Dispatched(t: Thread): Thread {
    t.(status := t.status.(canRun := false, running := true))
  }

  function MadeReady(t: Thread): Thread {
    t.(status := t.status.(canRun := true))
  }

  function Stopped(t: Thread): Thread {
    t.(status := t.status.(running := false))
  }

  function Released(t: Thread): Thread {
    t.(affinity := t.ogAffinity)
  }

  function Marked(t: Thread, recharge: bool): Thread {
    t.(status := t.status.(recharge := recharge))
  }
}
