/**
 A call of schedule() during which no other CPU is in the scheduler: its accesses, one after the other,
 come to what the call as a whole does.
 */
module SchedulerSolo {
  import opened Options
  import opened SchedulerTypes
  import opened SchedulerProtocol
  import opened SchedulerExclusion
  import LinkedList
  import Selection = SchedulerSelection

  /** What a call leaves: the threads, and the current thread of its CPU. */
  datatype Outcome = Outcome(threads: seq<Thread>, current: Option<nat>)

  /** What CPU `c` sees of a state. */
  datatype View = View(pc: Pc, threads: seq<Thread>, current: Option<nat>)

  function ViewOf(s: State, c: nat): View
    requires c < |s.pcs| == |s.current|
  {
    View(s.pcs[c], s.threads, s.current[c])
  }

  function Stored(threads: seq<Thread>, store: Option<Store>): seq<Thread>
    requires store.Some? ==> store.value.thread < |threads|
  {
    if store.Some? then threads[store.value.thread := store.value.value] else threads
  }

  /** What a step changes: what its CPU sees, its flag, and perhaps the time. */
  lemma StepSeen(s: State, e: Event)
    requires WellFormed(s) && e.cpu < |s.pcs|
    ensures var s', f := Step(s, e), Local(s, e);
      && |s'.pcs| == |s.pcs| && s'.lists == s.lists && s'.idle == s.idle
      && ViewOf(s', e.cpu) == View(f.pc, Stored(s.threads, f.store), f.current)
      && s'.flags == s.flags[e.cpu := f.flag]
      && s'.ticks == s.ticks + (if e.cpu == 0 && s.pcs[0].Outside? then 1 else 0)
      && (forall d :: 0 <= d < |s.pcs| && d != e.cpu ==> s'.current[d] == s.current[d] && s'.pcs[d] == s.pcs[d])
  {
  }

  // ----- the scan of a list

  /** The thread after the first store of a scan. */
  function MarkedOnce(t: Thread): Thread {
    if t.timeSlice >= t.priority then Marked(t, true) else t
  }

  /** How far the scan is with the thread at its cursor: what it has stored so far. */
  function PartlyScanned(t: Thread, point: ScanPoint): Thread {
    match point
    case ReadRecharge | Mark => t
    case ZeroSlice => Marked(MarkedOnce(t), false)
    case _ => MarkedOnce(t)
  }

  /** The tests that the thread at the cursor has passed. */
  predicate Passed(t: Thread, c: nat, point: ScanPoint) {
    match point
    case TestAffinity => t.status == READY
    case TestSlice => t.status == READY && c in t.affinity
    case Compare => ThreadCanRun(t, c)
    case ZeroSlice => true
    case _ => true
  }

  /**
   The scan began with the threads `t0` and is at a place that `pc` names: the threads before the cursor
   have been scanned, the one at the cursor partly, and the oldest runnable one so far is known.
   */
  ghost predicate Scanning(v: View, t0: seq<Thread>, list: seq<nat>, c: nat) {
    && v.pc.Scan? && v.pc.high < 2 && Selection.InRange(list, |t0|) && LinkedList.PairsDiffer(list)
    && v.pc.pos <= |list| && (v.pc.point != ReadRecharge ==> v.pc.pos < |list|)
    && (if v.pc.pos < |list| then AtThread(v, t0, list, c)
        else v.threads == Selection.ScanAll(t0, list) && v.pc.best == Selection.Oldest(t0, list, c))
  }

  ghost predicate AtThread(v: View, t0: seq<Thread>, list: seq<nat>, c: nat)
    requires v.pc.Scan? && v.pc.pos < |list| && Selection.InRange(list, |t0|)
  {
    var k, point := v.pc.pos, v.pc.point;
    var t := list[k];
    assert Selection.InRange(list[..k], |t0|) && Selection.InRange(list[..k + 1], |t0|);
    && v.threads == Selection.ScanAll(t0, list[..k])[t := PartlyScanned(t0[t], point)]
    && (point != ReadRecharge ==> v.pc.clear == t0[t].status.recharge)
    && Passed(MarkedOnce(t0[t]), c, point)
    && (point == ZeroSlice ==> v.pc.clear)
    && v.pc.best ==
         Selection.Oldest(t0, if point == ClearMark || point == ZeroSlice then list[..k + 1] else list[..k], c)
  }

  lemma MarkedRuns(t: Thread, c: nat)
    ensures ThreadCanRun(MarkedOnce(t), c) <==> ThreadCanRun(t, c)
  {
  }

  /** The stores of a scan come to what a scan leaves of a thread. */
  lemma ScannedWhole(t: Thread)
    ensures if t.status.recharge then PartlyScanned(t, ZeroSlice).(timeSlice := 0) == Selection.Scanned(t)
      else PartlyScanned(t, ClearMark) == Selection.Scanned(t)
  {
  }

  /** The scan has come to the thread at `pos`, or to the end of the list. */
  lemma Arrived(v: View, t0: seq<Thread>, list: seq<nat>, c: nat)
    requires v.pc.Scan? && v.pc.high < 2 && Selection.InRange(list, |t0|) && LinkedList.PairsDiffer(list)
    requires v.pc.pos <= |list| && v.pc.point == ReadRecharge && Selection.InRange(list[..v.pc.pos], |t0|)
    requires v.threads == Selection.ScanAll(t0, list[..v.pc.pos])
    requires v.pc.best == Selection.Oldest(t0, list[..v.pc.pos], c)
    ensures Scanning(v, t0, list, c)
  {
    if v.pc.pos < |list| {
      Selection.ScanStep(t0, list, v.pc.pos);
    } else {
      assert list[..v.pc.pos] == list;
    }
  }

  /** What CPU `c` sees after an access of its scan. */
  function Accessed(v: View, t: nat, c: nat): View
    requires v.pc.Scan? && t < |v.threads| && (v.pc.best.Some? ==> v.pc.best.value < |v.threads|)
  {
    var (pc, value) := Access(v.pc, t, v.threads, c);
    View(pc, if value.Some? then v.threads[t := value.value] else v.threads, v.current)
  }

  lemma CursorSeen(s: State, e: Event)
    requires WellFormed(s) && e.cpu < |s.pcs| && s.pcs[e.cpu].Scan?
    requires s.pcs[e.cpu].list < 4 && s.pcs[e.cpu].pos < |s.lists[s.pcs[e.cpu].list]|
    ensures var pc := s.pcs[e.cpu]; var t := s.lists[pc.list][pc.pos];
      && t < |s.threads| && (pc.best.Some? ==> pc.best.value < |s.threads|)
      && ViewOf(Step(s, e), e.cpu) == Accessed(ViewOf(s, e.cpu), t, e.cpu)
  {
    StepSeen(s, e);
    assert PcInRange(s.pcs[e.cpu], s.current[e.cpu].Some?, |s.threads|, s.lists);
    assert Local(s, e) == AtCursor(s, e.cpu);
  }

  /** What the scan reads at its cursor. */
  lemma Read(v: View, t0: seq<Thread>, list: seq<nat>, c: nat)
    requires Scanning(v, t0, list, c) && v.pc.pos < |list|
    ensures var k := v.pc.pos; var t := list[k];
      && t < |t0| == |v.threads| && v.threads[t] == PartlyScanned(t0[t], v.pc.point)
      && (v.pc.best.Some? ==> v.pc.best.value < |v.threads|)
  {
    assert Selection.InRange(list[..v.pc.pos], |t0|) && Selection.InRange(list[..v.pc.pos + 1], |t0|);
  }

  /** The accesses up to the comparison: marking and testing. */
  lemma EarlyAccess(v: View, t0: seq<Thread>, list: seq<nat>, c: nat)
    requires Scanning(v, t0, list, c) && v.pc.pos < |list| && list[v.pc.pos] < |v.threads|
    requires v.pc.best.Some? ==> v.pc.best.value < |v.threads|
    requires v.pc.point == ReadRecharge || v.pc.point == Mark
    ensures Scanning(Accessed(v, list[v.pc.pos], c), t0, list, c)
  {
    Read(v, t0, list, c);
  }

  lemma NotRunnable(v: View, v': View, t0: seq<Thread>, list: seq<nat>, c: nat)
    requires Scanning(v, t0, list, c) && v.pc.pos < |list| && v' == v.(pc := v.pc.(point := ClearMark))
    requires v.pc.point in {TestStatus, TestAffinity, TestSlice} && !ThreadCanRun(t0[list[v.pc.pos]], c)
    ensures Scanning(v', t0, list, c)
  {
    Selection.OldestStep(t0, list, c, v.pc.pos);
  }

  lemma TestAccess(v: View, t0: seq<Thread>, list: seq<nat>, c: nat)
    requires Scanning(v, t0, list, c) && v.pc.pos < |list| && list[v.pc.pos] < |v.threads|
    requires v.pc.best.Some? ==> v.pc.best.value < |v.threads|
    requires v.pc.point in {TestStatus, TestAffinity, TestSlice}
    ensures Scanning(Accessed(v, list[v.pc.pos], c), t0, list, c)
  {
    var t := list[v.pc.pos];
    Read(v, t0, list, c);
    MarkedRuns(t0[t], c);
    var v' := Accessed(v, t, c);
    if v'.pc.point == ClearMark { NotRunnable(v, v', t0, list, c); }
  }

  /** The scan has not touched the preemption time of the best thread so far. */
  lemma BestSeen(v: View, t0: seq<Thread>, list: seq<nat>, c: nat)
    requires Scanning(v, t0, list, c) && v.pc.pos < |list| && v.pc.point == Compare && v.pc.best.Some?
    ensures v.pc.best.value < |t0| == |v.threads|
    ensures v.threads[v.pc.best.value].lastPreempted == t0[v.pc.best.value].lastPreempted
  {
    var k := v.pc.pos;
    assert Selection.InRange(list[..k], |t0|);
    Selection.OldestStep(t0, list, c, k);
    assert v.pc.best.value in list[..k];
  }

  /** The best thread after the comparison is the oldest runnable one up to the cursor. */
  lemma Compared(v: View, t0: seq<Thread>, list: seq<nat>, c: nat)
    requires Scanning(v, t0, list, c) && v.pc.pos < |list| && list[v.pc.pos] < |v.threads| && v.pc.point == Compare
    requires v.pc.best.Some? ==> v.pc.best.value < |v.threads|
    ensures Selection.InRange(list[..v.pc.pos + 1], |t0|)
    ensures Access(v.pc, list[v.pc.pos], v.threads, c).0.best == Selection.Oldest(t0, list[..v.pc.pos + 1], c)
  {
    var k := v.pc.pos;
    Read(v, t0, list, c);
    MarkedRuns(t0[list[k]], c);
    Selection.OldestStep(t0, list, c, k);
    if v.pc.best.Some? { BestSeen(v, t0, list, c); }
  }

  lemma CompareAccess(v: View, t0: seq<Thread>, list: seq<nat>, c: nat)
    requires Scanning(v, t0, list, c) && v.pc.pos < |list| && list[v.pc.pos] < |v.threads|
    requires v.pc.best.Some? ==> v.pc.best.value < |v.threads|
    requires v.pc.point == Compare
    ensures Scanning(Accessed(v, list[v.pc.pos], c), t0, list, c)
  {
    Compared(v, t0, list, c);
  }

  lemma ClearAccess(v: View, t0: seq<Thread>, list: seq<nat>, c: nat)
    requires Scanning(v, t0, list, c) && v.pc.pos < |list| && list[v.pc.pos] < |v.threads|
    requires v.pc.best.Some? ==> v.pc.best.value < |v.threads|
    requires v.pc.point == ClearMark && v.pc.clear
    ensures Scanning(Accessed(v, list[v.pc.pos], c), t0, list, c)
  {
    Read(v, t0, list, c);
  }

  /** The last access to a thread: it is left as a scan leaves it. */
  lemma LastAccess(v: View, t0: seq<Thread>, list: seq<nat>, c: nat)
    requires Scanning(v, t0, list, c) && v.pc.pos < |list| && list[v.pc.pos] < |v.threads|
    requires v.pc.best.Some? ==> v.pc.best.value < |v.threads|
    requires v.pc.point == ZeroSlice || (v.pc.point == ClearMark && !v.pc.clear)
    ensures Scanning(Accessed(v, list[v.pc.pos], c), t0, list, c)
  {
    var k := v.pc.pos;
    var v' := Accessed(v, list[k], c);
    Read(v, t0, list, c);
    ScannedWhole(t0[list[k]]);
    Selection.ScanStep(t0, list, k);
    assert Selection.InRange(list[..k + 1], |t0|);
    assert v'.threads == Selection.ScanAll(t0, list[..k])[list[k] := Selection.Scanned(t0[list[k]])];
    Arrived(v', t0, list, c);
  }

  /** Every access at the cursor keeps the scan on its way. */
  lemma AccessScans(v: View, t0: seq<Thread>, list: seq<nat>, c: nat)
    requires Scanning(v, t0, list, c) && v.pc.pos < |list|
    ensures list[v.pc.pos] < |v.threads| && (v.pc.best.Some? ==> v.pc.best.value < |v.threads|)
    ensures var v' := Accessed(v, list[v.pc.pos], c);
      Scanning(v', t0, list, c) && v'.pc.list == v.pc.list && v'.pc.high == v.pc.high && v'.current == v.current
  {
    Read(v, t0, list, c);
    match v.pc.point
    case ReadRecharge | Mark => EarlyAccess(v, t0, list, c);
    case TestStatus | TestAffinity | TestSlice => TestAccess(v, t0, list, c);
    case Compare => CompareAccess(v, t0, list, c);
    case ClearMark => if v.pc.clear { ClearAccess(v, t0, list, c); } else { LastAccess(v, t0, list, c); }
    case ZeroSlice => LastAccess(v, t0, list, c);
  }

  // ----- the rest of the call after the callbacks

  /** What a call comes to whose search left the threads `r.0` and found `r.1`. */
  function Finish(r: (seq<Thread>, Option<nat>), current: Option<nat>, idle: nat, c: nat): Outcome
    requires idle < |r.0| && (r.1.Some? ==> r.1.value < |r.0|)
  {
    var t := if r.1.Some? then r.1.value else idle;
    Outcome(r.0[t := Selection.Taken(r.0[t], c, current == Some(t))], Some(t))
  }

  /** What is still to be stored to a thread that is being taken. */
  function TakenFrom(t: Thread, c: nat, pc: Pc): Thread {
    match pc
    case KeepAffinity => Selection.Taken(t, c, true)
    case TakeAffinity(_) => Selection.Taken(t, c, false)
    case TakeSwitch(_) | TakeSlice(_) => Dispatched(t.(timeSlice := t.timeSlice + 1))
    case _ => Dispatched(t)
  }

  /** The call is on its way to the outcome `g`. */
  ghost predicate Heads(v: View, lists: seq<seq<nat>>, idle: nat, c: nat, g: Outcome) {
    && Selection.ListsOk(lists, |v.threads|) && idle < |v.threads|
    && (v.current.Some? ==> v.current.value < |v.threads|)
    && match v.pc
       case Scan(l, _, _, high, _, _) => exists t0: seq<Thread> :: SearchHeads(v, lists, idle, c, g, t0)
       case Found(_, t, _) =>
         && t < |v.threads| && !v.threads[t].status.running
         && g == Outcome(v.threads[t := Selection.Taken(v.threads[t], c, v.current == Some(t))], Some(t))
       case KeepAffinity => v.current.Some? && v.current == g.current && Becomes(v, g, v.current.value, c, v.pc)
       case KeepRun => v.current.Some? && v.current == g.current && Becomes(v, g, v.current.value, c, v.pc)
       case TakeAffinity(t) => g.current == Some(t) && Becomes(v, g, t, c, v.pc)
       case TakeSwitch(t) => g.current == Some(t) && Becomes(v, g, t, c, v.pc)
       case TakeSlice(t) => v.current == g.current == Some(t) && Becomes(v, g, t, c, v.pc)
       case TakeRun(t) => v.current == g.current == Some(t) && Becomes(v, g, t, c, v.pc)
       case Lower => g == Outcome(v.threads, v.current)
       case Outside => g == Outcome(v.threads, v.current)
       case _ => false
  }

  /** The threads of the outcome are those of now with one of them taken as far as `pc` leaves to do. */
  ghost predicate Becomes(v: View, g: Outcome, t: nat, c: nat, pc: Pc) {
    t < |v.threads| && g.threads == v.threads[t := TakenFrom(v.threads[t], c, pc)]
  }

  ghost predicate SearchHeads(v: View, lists: seq<seq<nat>>, idle: nat, c: nat, g: Outcome, t0: seq<Thread>)
    requires v.pc.Scan?
  {
    && Selection.ListsOk(lists, |t0|) && v.pc.list < 4 && v.pc.high < 2 && idle < |t0| == |v.threads|
    && !t0[idle].status.running
    && Scanning(v, t0, lists[v.pc.list], c)
    && g == Finish(Selection.Search(t0, lists, c, v.pc.list, v.pc.high), v.current, idle, c)
  }

  lemma AccessHeads(v: View, lists: seq<seq<nat>>, idle: nat, c: nat, g: Outcome)
    requires v.pc.Scan? && |lists| == 4 && v.pc.list < 4 && v.pc.pos < |lists[v.pc.list]| && Heads(v, lists, idle, c, g)
    ensures lists[v.pc.list][v.pc.pos] < |v.threads| && (v.pc.best.Some? ==> v.pc.best.value < |v.threads|)
    ensures Heads(Accessed(v, lists[v.pc.list][v.pc.pos], c), lists, idle, c, g)
  {
    var t0: seq<Thread> :| SearchHeads(v, lists, idle, c, g, t0);
    AccessScans(v, t0, lists[v.pc.list], c);
    assert SearchHeads(Accessed(v, lists[v.pc.list][v.pc.pos], c), lists, idle, c, g, t0);
  }

  lemma ScanHeads(s: State, e: Event, g: Outcome)
    requires WellFormed(s) && e.cpu < |s.pcs| && s.pcs[e.cpu].Scan?
    requires s.pcs[e.cpu].list < 4 && s.pcs[e.cpu].pos < |s.lists[s.pcs[e.cpu].list]|
    requires Heads(ViewOf(s, e.cpu), s.lists, s.idle[e.cpu], e.cpu, g)
    ensures Heads(ViewOf(Step(s, e), e.cpu), s.lists, s.idle[e.cpu], e.cpu, g)
  {
    AccessHeads(ViewOf(s, e.cpu), s.lists, s.idle[e.cpu], e.cpu, g);
    CursorSeen(s, e);
  }

  lemma ScanKeepsRunning(t0: seq<Thread>, list: seq<nat>, u: nat)
    requires Selection.InRange(list, |t0|) && LinkedList.PairsDiffer(list) && u < |t0|
    ensures Selection.ScanAll(t0, list)[u].status.running == t0[u].status.running
  {
    Selection.ScanAllAt(t0, list, u);
  }

  /** The end of a list: a thread was found, the next list is scanned, or the idle thread is taken. */
  lemma DoneHeads(v: View, v': View, lists: seq<seq<nat>>, idle: nat, c: nat, g: Outcome, t0: seq<Thread>)
    requires v.pc.Scan? && SearchHeads(v, lists, idle, c, g, t0) && v.pc.pos == |lists[v.pc.list]|
    requires v.current.Some? ==> v.current.value < |v.threads|
    requires v'.threads == v.threads && v'.current == v.current
    requires var l, high := v.pc.list, if v.pc.list == 3 then v.pc.high + 1 else v.pc.high;
      v'.pc == if v.pc.best.Some? then Found(l, v.pc.best.value, v.pc.high)
               else if high < 2 then Scan(PrevList(l), 0, None, high, false, ReadRecharge)
               else Found(PrevList(l), idle, high)
    ensures Heads(v', lists, idle, c, g)
  {
    var l := v.pc.list;
    Selection.SearchStep(t0, lists, c, l, v.pc.high);
    ScanKeepsRunning(t0, lists[l], idle);
    if v.pc.best.Some? {
      ScanKeepsRunning(t0, lists[l], v.pc.best.value);
    } else if v'.pc.Scan? {
      var list := lists[v'.pc.list];
      assert Selection.InRange(list, |v.threads|) && LinkedList.PairsDiffer(list) && list[..0] == [];
      Arrived(v', v.threads, list, c);
      assert SearchHeads(v', lists, idle, c, g, v.threads);
    }
  }

  lemma ListDoneSeen(s: State, e: Event)
    requires WellFormed(s) && e.cpu < |s.pcs| && s.pcs[e.cpu].Scan? && s.pcs[e.cpu].high < 2
    requires s.pcs[e.cpu].list < 4 && s.pcs[e.cpu].pos == |s.lists[s.pcs[e.cpu].list]|
    ensures var v, v' := ViewOf(s, e.cpu), ViewOf(Step(s, e), e.cpu);
      var l, high := v.pc.list, if v.pc.list == 3 then v.pc.high + 1 else v.pc.high;
      && v'.threads == v.threads && v'.current == v.current
      && v'.pc == if v.pc.best.Some? then Found(l, v.pc.best.value, v.pc.high)
                  else if high < 2 then Scan(PrevList(l), 0, None, high, false, ReadRecharge)
                  else Found(PrevList(l), s.idle[e.cpu], high)
  {
    StepSeen(s, e);
    assert Local(s, e) == ListDone(s, e.cpu);
  }

  lemma ListDoneHeads(s: State, e: Event, g: Outcome)
    requires WellFormed(s) && e.cpu < |s.pcs| && s.pcs[e.cpu].Scan?
    requires s.pcs[e.cpu].list < 4 && s.pcs[e.cpu].pos == |s.lists[s.pcs[e.cpu].list]|
    requires Heads(ViewOf(s, e.cpu), s.lists, s.idle[e.cpu], e.cpu, g)
    ensures Heads(ViewOf(Step(s, e), e.cpu), s.lists, s.idle[e.cpu], e.cpu, g)
  {
    var c, v := e.cpu, ViewOf(s, e.cpu);
    var t0: seq<Thread> :| SearchHeads(v, s.lists, s.idle[c], c, g, t0);
    ListDoneSeen(s, e);
    DoneHeads(v, ViewOf(Step(s, e), c), s.lists, s.idle[c], c, g, t0);
  }

  /** The steps that take the thread found. */
  predicate Taking(pc: Pc) {
    || pc.Found? || pc.KeepAffinity? || pc.KeepRun? || pc.TakeAffinity? || pc.TakeSwitch? || pc.TakeSlice?
    || pc.TakeRun? || pc.Lower?
  }

  lemma TakeSeen(s: State, e: Event)
    requires WellFormed(s) && e.cpu < |s.pcs| && Taking(s.pcs[e.cpu])
    ensures var f := Take(s, e.cpu); ViewOf(Step(s, e), e.cpu) == View(f.pc, Stored(s.threads, f.store), f.current)
  {
    StepSeen(s, e);
  }

  lemma FoundHeads(s: State, e: Event, g: Outcome)
    requires WellFormed(s) && e.cpu < |s.pcs| && (s.pcs[e.cpu].Found? || s.pcs[e.cpu].Lower?)
    requires Heads(ViewOf(s, e.cpu), s.lists, s.idle[e.cpu], e.cpu, g)
    ensures Heads(ViewOf(Step(s, e), e.cpu), s.lists, s.idle[e.cpu], e.cpu, g)
  {
    TakeSeen(s, e);
  }

  lemma KeepHeads(s: State, e: Event, g: Outcome)
    requires WellFormed(s) && e.cpu < |s.pcs| && (s.pcs[e.cpu].KeepAffinity? || s.pcs[e.cpu].KeepRun?)
    requires Heads(ViewOf(s, e.cpu), s.lists, s.idle[e.cpu], e.cpu, g)
    ensures Heads(ViewOf(Step(s, e), e.cpu), s.lists, s.idle[e.cpu], e.cpu, g)
  {
    TakeSeen(s, e);
  }

  lemma TakeFirstHeads(s: State, e: Event, g: Outcome)
    requires WellFormed(s) && e.cpu < |s.pcs| && (s.pcs[e.cpu].TakeAffinity? || s.pcs[e.cpu].TakeSwitch?)
    requires Heads(ViewOf(s, e.cpu), s.lists, s.idle[e.cpu], e.cpu, g)
    ensures Heads(ViewOf(Step(s, e), e.cpu), s.lists, s.idle[e.cpu], e.cpu, g)
  {
    TakeSeen(s, e);
  }

  lemma TakeLastHeads(s: State, e: Event, g: Outcome)
    requires WellFormed(s) && e.cpu < |s.pcs| && (s.pcs[e.cpu].TakeSlice? || s.pcs[e.cpu].TakeRun?)
    requires Heads(ViewOf(s, e.cpu), s.lists, s.idle[e.cpu], e.cpu, g)
    ensures Heads(ViewOf(Step(s, e), e.cpu), s.lists, s.idle[e.cpu], e.cpu, g)
  {
    TakeSeen(s, e);
  }

  /** No step of the CPU leaves the way to the outcome. */
  lemma StepHeads(s: State, e: Event, g: Outcome)
    requires WellFormed(s) && e.cpu < |s.pcs| && !s.pcs[e.cpu].Outside?
    requires Heads(ViewOf(s, e.cpu), s.lists, s.idle[e.cpu], e.cpu, g)
    ensures Heads(ViewOf(Step(s, e), e.cpu), s.lists, s.idle[e.cpu], e.cpu, g)
  {
    var pc := s.pcs[e.cpu];
    if pc.Scan? {
      assert PcInRange(pc, s.current[e.cpu].Some?, |s.threads|, s.lists);
      if pc.pos < |s.lists[pc.list]| { ScanHeads(s, e, g); } else { ListDoneHeads(s, e, g); }
    } else if pc.Found? || pc.Lower? {
      FoundHeads(s, e, g);
    } else if pc.KeepAffinity? || pc.KeepRun? {
      KeepHeads(s, e, g);
    } else if pc.TakeAffinity? || pc.TakeSwitch? {
      TakeFirstHeads(s, e, g);
    } else {
      TakeLastHeads(s, e, g);
    }
  }

  // ----- the call up to the callbacks

  /** CPU `c` is about to call schedule(), and no flag is up. */
  ghost predicate Alone(s: State, c: nat) {
    && WellFormed(s) && c < |s.pcs| && s.pcs[c].Outside? && (forall d :: 0 <= d < |s.flags| ==> !s.flags[d])
    && Selection.ListsOk(s.lists, |s.threads|)
    && (s.threads[s.idle[c]].status.running ==> s.current[c] == Some(s.idle[c]))
  }

  /** The time during the call: CPU 0 has counted a tick. */
  function Now(s: State, c: nat): nat {
    if c == 0 then s.ticks + 1 else s.ticks
  }

  predicate WaitsForIdle(s: State, c: nat)
    requires c < |s.idle| == |s.current| && s.idle[c] < |s.threads|
  {
    s.current[c] == Some(s.idle[c]) && s.threads[s.idle[c]].status.blocked
  }

  /** What the call comes to, given the list it starts from and the callbacks that answer true. */
  ghost function Expected(s: State, c: nat, start: nat, wake: set<nat>): Outcome
    requires Alone(s, c) && start < 4
  {
    if WaitsForIdle(s, c) then Outcome(s.threads[s.idle[c] := Unblocked(s.threads[s.idle[c]])], s.current[c])
    else
      var ready := Selection.Woken(Selection.Stopped(s.threads, s.current[c], Now(s, c)), s.lists, wake);
      Finish(Selection.Search(ready, s.lists, c, start, 0), s.current[c], s.idle[c], c)
  }

  /** The preempted thread after the first stores to it. */
  function PartlyStopped(t: Thread, now: nat, pc: Pc): Thread {
    var stamped := t.(lastPreempted := now);
    var ready := if stamped.status.dead then stamped else MadeReady(stamped);
    match pc
    case WonReady => stamped
    case WonStop => ready
    case WonAffinity => Stopped(ready)
    case _ => t
  }

  /** The call that began in `s0` has come to `s`; `wake` holds the threads whose callbacks have answered true. */
  ghost predicate Begun(s0: State, s: State, c: nat, wake: set<nat>) {
    && Alone(s0, c) && WellFormed(s) && |s.pcs| == |s0.pcs| && s.lists == s0.lists && s.idle == s0.idle
    && (forall d :: 0 <= d < |s.flags| && d != c ==> !s.flags[d]) && s.ticks == Now(s0, c)
    && s.current[c] == s0.current[c] && (s.flags[c] <==> !s.pcs[c].Raise?)
    && BegunAt(s0, s, c, wake)
  }

  ghost predicate BegunAt(s0: State, s: State, c: nat, wake: set<nat>)
    requires Alone(s0, c) && c < |s.pcs| == |s0.pcs|
  {
    match s.pcs[c]
    case Raise | CheckIdle => s.threads == s0.threads && wake == {}
    case IdleWait => s.threads == s0.threads && WaitsForIdle(s0, c)
    case IdleLower => WaitsForIdle(s0, c) && s.threads == s0.threads[s0.idle[c] := Unblocked(s0.threads[s0.idle[c]])]
    case Counting(i, n) =>
      s.threads == s0.threads && !WaitsForIdle(s0, c) && i <= |s.pcs| && n == (if c < i then 1 else 0) && wake == {}
    case WonStamp | WonReady | WonStop | WonAffinity =>
      && s0.current[c].Some? && !WaitsForIdle(s0, c) && wake == {}
      && var t := s0.current[c].value; s.threads == s0.threads[t := PartlyStopped(s0.threads[t], Now(s0, c), s.pcs[c])]
    case Callbacks =>
      && !WaitsForIdle(s0, c)
      && s.threads == Selection.Woken(Selection.Stopped(s0.threads, s0.current[c], Now(s0, c)), s0.lists, wake)
    case _ => false
  }

  lemma StoppedWhole(t: Thread, now: nat)
    ensures Released(PartlyStopped(t, now, WonAffinity)) == Selection.Preempted(t, now)
  {
  }

  lemma WokenByNone(threads: seq<Thread>, lists: seq<seq<nat>>)
    requires Selection.ListsOk(lists, |threads|)
    ensures Selection.Woken(threads, lists, {}) == threads
  {
    forall u | 0 <= u < |threads| ensures Selection.Woken(threads, lists, {})[u] == threads[u] {
      Selection.WokenAt(threads, lists, {}, u);
    }
  }

  lemma WokenByOneMore(threads: seq<Thread>, lists: seq<seq<nat>>, wake: set<nat>, t: nat)
    requires Selection.ListsOk(lists, |threads|) && t < |threads| && Listed(lists, t)
    requires Selection.Woken(threads, lists, wake)[t].status.blocked
    ensures var woken := Selection.Woken(threads, lists, wake);
      Selection.Woken(threads, lists, wake + {t}) == woken[t := Unblocked(woken[t])]
  {
    var woken, more := Selection.Woken(threads, lists, wake), Selection.Woken(threads, lists, wake + {t});
    forall u | 0 <= u < |threads| ensures more[u] == woken[t := Unblocked(woken[t])][u] {
      Selection.WokenAt(threads, lists, wake, u);
      Selection.WokenAt(threads, lists, wake + {t}, u);
    }
  }

  /** The event answers for a thread that is blocked. */
  function Answer(s: State, e: Event): set<nat>
    requires e.cpu < |s.pcs| && |s.lists| == 4
  {
    if s.pcs[e.cpu].Callbacks? && Wakes(s, e) then {e.target} else {}
  }

  lemma EnterBegun(s0: State, s: State, e: Event, wake: set<nat>)
    requires Begun(s0, s, e.cpu, wake) && (s.pcs[e.cpu].Raise? || s.pcs[e.cpu].CheckIdle? || s.pcs[e.cpu].IdleWait?)
    ensures Begun(s0, Step(s, e), e.cpu, wake)
  {
    StepSeen(s, e);
  }

  lemma CountBegun(s0: State, s: State, e: Event, wake: set<nat>)
    requires Begun(s0, s, e.cpu, wake) && s.pcs[e.cpu].Counting? && s.pcs[e.cpu].next < |s.pcs|
    ensures Begun(s0, Step(s, e), e.cpu, wake)
  {
    StepSeen(s, e);
  }

  /** The count is 1: the own flag was the only one up. */
  lemma CountedBegun(s0: State, s: State, e: Event, wake: set<nat>)
    requires Begun(s0, s, e.cpu, wake) && s.pcs[e.cpu].Counting? && s.pcs[e.cpu].next == |s.pcs|
    ensures Begun(s0, Step(s, e), e.cpu, wake)
  {
    StepSeen(s, e);
    WokenByNone(s0.threads, s0.lists);
  }

  lemma WonBegun(s0: State, s: State, e: Event, wake: set<nat>)
    requires Begun(s0, s, e.cpu, wake) && (s.pcs[e.cpu].WonStamp? || s.pcs[e.cpu].WonReady? || s.pcs[e.cpu].WonStop?)
    ensures Begun(s0, Step(s, e), e.cpu, wake)
  {
    StepSeen(s, e);
  }

  lemma StoppedBegun(s0: State, s: State, e: Event, wake: set<nat>)
    requires Begun(s0, s, e.cpu, wake) && s.pcs[e.cpu].WonAffinity?
    ensures Begun(s0, Step(s, e), e.cpu, wake)
  {
    var c := e.cpu;
    StepSeen(s, e);
    StoppedWhole(s0.threads[s0.current[c].value], Now(s0, c));
    WokenByNone(Selection.Stopped(s0.threads, s0.current[c], Now(s0, c)), s0.lists);
  }

  lemma AnswerBegun(s0: State, s: State, e: Event, wake: set<nat>)
    requires Begun(s0, s, e.cpu, wake) && s.pcs[e.cpu].Callbacks? && Wakes(s, e)
    ensures Begun(s0, Step(s, e), e.cpu, wake + {e.target})
  {
    var c := e.cpu;
    StepSeen(s, e);
    WokenByOneMore(Selection.Stopped(s0.threads, s0.current[c], Now(s0, c)), s0.lists, wake, e.target);
  }

  lemma IdleStopped(s0: State, c: nat, wake: set<nat>)
    requires Alone(s0, c)
    ensures var ready := Selection.Woken(Selection.Stopped(s0.threads, s0.current[c], Now(s0, c)), s0.lists, wake);
      !ready[s0.idle[c]].status.running
  {
    Selection.WokenAt(Selection.Stopped(s0.threads, s0.current[c], Now(s0, c)), s0.lists, wake, s0.idle[c]);
  }

  lemma SearchBegins(s0: State, s: State, e: Event, wake: set<nat>)
    requires Begun(s0, s, e.cpu, wake) && s.pcs[e.cpu].Callbacks? && !Wakes(s, e)
    ensures var g := Expected(s0, e.cpu, e.startList % 4, wake);
      Heads(ViewOf(Step(s, e), e.cpu), s0.lists, s0.idle[e.cpu], e.cpu, g)
  {
    var c, l := e.cpu, e.startList % 4;
    StepSeen(s, e);
    IdleStopped(s0, c, wake);
    var v := ViewOf(Step(s, e), c);
    var list := s0.lists[l];
    assert Selection.InRange(list, |s.threads|) && LinkedList.PairsDiffer(list) && list[..0] == [];
    Arrived(v, s.threads, list, c);
    assert SearchHeads(v, s0.lists, s0.idle[c], c, Expected(s0, c, l, wake), s.threads);
  }

  /** A step before the search, and before the wait for the idle thread ends: the call has come further. */
  lemma StepBegun(s0: State, s: State, e: Event, wake: set<nat>)
    requires Begun(s0, s, e.cpu, wake) && !s.pcs[e.cpu].IdleLower? && (s.pcs[e.cpu].Callbacks? ==> Wakes(s, e))
    ensures Begun(s0, Step(s, e), e.cpu, wake + Answer(s, e))
  {
    var pc := s.pcs[e.cpu];
    assert wake + {} == wake;
    if pc.Raise? || pc.CheckIdle? || pc.IdleWait? {
      EnterBegun(s0, s, e, wake);
    } else if pc.Counting? {
      if pc.next < |s.pcs| { CountBegun(s0, s, e, wake); } else { CountedBegun(s0, s, e, wake); }
    } else if pc.WonAffinity? {
      StoppedBegun(s0, s, e, wake);
    } else if pc.Callbacks? {
      AnswerBegun(s0, s, e, wake);
    } else {
      WonBegun(s0, s, e, wake);
    }
  }

  // ----- the whole call

  /** The events are steps of CPU `c`, and the last one, and no other, takes it outside schedule(). */
  ghost predicate Whole(s: State, c: nat, events: seq<Event>)
    requires WellFormed(s)
    decreases |events|
  {
    && c < |s.pcs| && events != [] && events[0].cpu == c
    && var s' := Step(s, events[0]);
       if |events| == 1 then s'.pcs[c].Outside? else !s'.pcs[c].Outside? && Whole(s', c, events[1..])
  }

  /** The threads whose callbacks answer true in a call, and the list its search starts from. */
  ghost function Answers(s: State, c: nat, events: seq<Event>): (r: (set<nat>, nat))
    requires WellFormed(s) && c < |s.pcs| && forall i :: 0 <= i < |events| ==> events[i].cpu == c
    ensures r.1 < 4
    decreases |events|
  {
    if events == [] then ({}, 0)
    else if s.pcs[c].Callbacks? && !Wakes(s, events[0]) then ({}, events[0].startList % 4)
    else
      var later := Answers(Step(s, events[0]), c, events[1..]);
      (Answer(s, events[0]) + later.0, later.1)
  }

  lemma {:induction false} OneCpu(s: State, c: nat, events: seq<Event>)
    requires WellFormed(s) && Whole(s, c, events)
    ensures forall i :: 0 <= i < |events| ==> events[i].cpu == c
    decreases |events|
  {
    if |events| > 1 {
      OneCpu(Step(s, events[0]), c, events[1..]);
      assert events == [events[0]] + events[1..];
    }
  }

  ghost predicate Comes(s: State, c: nat, g: Outcome) {
    c < |s.current| && s.threads == g.threads && s.current[c] == g.current
  }

  lemma RunOne(s: State, events: seq<Event>)
    requires WellFormed(s) && |events| == 1
    ensures Run(s, events) == Step(s, events[0])
  {
    assert events[1..] == [];
  }

  lemma {:induction false} FromHeads(s: State, c: nat, events: seq<Event>, g: Outcome)
    requires WellFormed(s) && Whole(s, c, events) && !s.pcs[c].Outside?
    requires Heads(ViewOf(s, c), s.lists, s.idle[c], c, g)
    ensures Comes(Run(s, events), c, g)
    decreases |events|
  {
    StepHeads(s, events[0], g);
    StepSeen(s, events[0]);
    if |events| == 1 { RunOne(s, events); } else { FromHeads(Step(s, events[0]), c, events[1..], g); }
  }

  /** The rest of a call begun in `s0` comes to what is expected, given the answers so far and those to come. */
  ghost predicate Arrives(s0: State, s: State, c: nat, wake: set<nat>, events: seq<Event>) {
    && Alone(s0, c) && WellFormed(s) && c < |s.pcs| && (forall i :: 0 <= i < |events| ==> events[i].cpu == c)
    && var (more, start) := Answers(s, c, events); Comes(Run(s, events), c, Expected(s0, c, start, wake + more))
  }

  lemma LaterArrives(s0: State, s: State, c: nat, wake: set<nat>, events: seq<Event>)
    requires WellFormed(s) && c < |s.pcs| && events != [] && forall i :: 0 <= i < |events| ==> events[i].cpu == c
    requires !(s.pcs[c].Callbacks? && !Wakes(s, events[0]))
    requires Arrives(s0, Step(s, events[0]), c, wake + Answer(s, events[0]), events[1..])
    ensures Arrives(s0, s, c, wake, events)
  {
    var first, later := Answer(s, events[0]), Answers(Step(s, events[0]), c, events[1..]).0;
    assert wake + (first + later) == wake + first + later;
  }

  lemma IdleArrives(s0: State, s: State, c: nat, wake: set<nat>, events: seq<Event>)
    requires Begun(s0, s, c, wake) && s.pcs[c].IdleLower? && Whole(s, c, events)
    requires forall i :: 0 <= i < |events| ==> events[i].cpu == c
    ensures Arrives(s0, s, c, wake, events)
  {
    IdleEnds(s0, s, events[0], wake);
    RunOne(s, events);
  }

  lemma SearchArrives(s0: State, s: State, c: nat, wake: set<nat>, events: seq<Event>)
    requires Alone(s0, c) && WellFormed(s) && Whole(s, c, events)
    requires forall i :: 0 <= i < |events| ==> events[i].cpu == c
    requires s.pcs[c].Callbacks? && !Wakes(s, events[0])
    requires Comes(Run(s, events), c, Expected(s0, c, events[0].startList % 4, wake))
    ensures Arrives(s0, s, c, wake, events)
  {
    assert wake + {} == wake;
  }

  /** A search that has begun ends as expected. */
  lemma SearchEnds(s0: State, s: State, c: nat, wake: set<nat>, events: seq<Event>)
    requires Begun(s0, s, c, wake) && Whole(s, c, events) && s.pcs[c].Callbacks? && !Wakes(s, events[0])
    ensures Comes(Run(s, events), c, Expected(s0, c, events[0].startList % 4, wake))
  {
    var e, g := events[0], Expected(s0, c, events[0].startList % 4, wake);
    SearchBegins(s0, s, e, wake);
    StepSeen(s, e);
    SearchStarts(s, e);
    FromHeads(Step(s, e), c, events[1..], g);
  }

  lemma SearchStarts(s: State, e: Event)
    requires WellFormed(s) && e.cpu < |s.pcs| && s.pcs[e.cpu].Callbacks? && !Wakes(s, e)
    ensures Step(s, e).pcs[e.cpu].Scan?
  {
  }

  lemma BegunInside(s0: State, s: State, c: nat, wake: set<nat>)
    requires Begun(s0, s, c, wake)
    ensures !s.pcs[c].Outside?
  {
  }

  lemma {:induction false} FromBegun(s0: State, s: State, c: nat, wake: set<nat>, events: seq<Event>)
    requires Begun(s0, s, c, wake) && Whole(s, c, events) && forall i :: 0 <= i < |events| ==> events[i].cpu == c
    ensures Arrives(s0, s, c, wake, events)
    decreases |events|
  {
    if s.pcs[c].IdleLower? {
      IdleArrives(s0, s, c, wake, events);
    } else if s.pcs[c].Callbacks? && !Wakes(s, events[0]) {
      SearchEnds(s0, s, c, wake, events);
      SearchArrives(s0, s, c, wake, events);
    } else {
      StepBegun(s0, s, events[0], wake);
      BegunInside(s0, Step(s, events[0]), c, wake + Answer(s, events[0]));
      FromBegun(s0, Step(s, events[0]), c, wake + Answer(s, events[0]), events[1..]);
      LaterArrives(s0, s, c, wake, events);
    }
  }

  lemma IdleEnds(s0: State, s: State, e: Event, wake: set<nat>)
    requires Begun(s0, s, e.cpu, wake) && s.pcs[e.cpu].IdleLower?
    ensures Step(s, e).pcs[e.cpu].Outside?
    ensures forall start: nat, w: set<nat> :: start < 4 ==> Comes(Step(s, e), e.cpu, Expected(s0, e.cpu, start, w))
  {
    StepSeen(s, e);
  }

  lemma Begins(s: State, e: Event)
    requires Alone(s, e.cpu)
    ensures Begun(s, Step(s, e), e.cpu, {})
  {
    StepSeen(s, e);
  }

  lemma FirstArrives(s: State, c: nat, events: seq<Event>)
    requires Alone(s, c) && Whole(s, c, events) && forall i :: 0 <= i < |events| ==> events[i].cpu == c
    ensures Arrives(s, Step(s, events[0]), c, {}, events[1..])
  {
    Begins(s, events[0]);
    BegunInside(s, Step(s, events[0]), c, {});
    FromBegun(s, Step(s, events[0]), c, {}, events[1..]);
  }

  lemma AllArrives(s: State, c: nat, events: seq<Event>)
    requires Alone(s, c) && Whole(s, c, events) && forall i :: 0 <= i < |events| ==> events[i].cpu == c
    ensures Arrives(s, s, c, {}, events)
  {
    FirstArrives(s, c, events);
    assert Answer(s, events[0]) == {} && {} + Answer(s, events[0]) == {};
    LaterArrives(s, s, c, {}, events);
  }

  lemma ArrivesWithAll(s: State, c: nat, events: seq<Event>)
    requires Arrives(s, s, c, {}, events)
    ensures var (wake, start) := Answers(s, c, events); Comes(Run(s, events), c, Expected(s, c, start, wake))
  {
    assert {} + Answers(s, c, events).0 == Answers(s, c, events).0;
  }

  /**
   A call during which no other CPU takes a step, begun with all flags down: whatever its callbacks
   answer and whichever list it starts from, its accesses leave the threads and the current thread that
   the call as a whole gives for them.
   */
  lemma SoloCall(s: State, c: nat, events: seq<Event>)
    requires Alone(s, c) && Whole(s, c, events)
    ensures forall i :: 0 <= i < |events| ==> events[i].cpu == c
    ensures var (wake, start) := Answers(s, c, events); Comes(Run(s, events), c, Expected(s, c, start, wake))
  {
    OneCpu(s, c, events);
    AllArrives(s, c, events);
    ArrivesWithAll(s, c, events);
  }

  /** What a call of the boot CPU comes to is what `Schedule` gives for the list that the round robin picks. */
  lemma ScheduleExpected(s: State, iterations: seq<nat>, wake: set<nat>)
    requires Alone(s, 0)
    requires Selection.Valid(Selection.Sched(s.threads, s.lists, iterations, s.current[0], s.idle[0], s.ticks))
    ensures var v := Selection.Sched(s.threads, s.lists, iterations, s.current[0], s.idle[0], s.ticks);
      var v' := Selection.Schedule(v, wake);
      Expected(s, 0, Selection.StartList(v), wake) == Outcome(v'.threads, v'.current)
  {
  }

  // ----- a call that is left alone ends

  function Phase(pc: Pc): nat {
    match pc
    case Scan(_, _, _, _, _, _) => 6
    case Found(_, _, _) => 5
    case KeepAffinity | TakeAffinity(_) => 4
    case TakeSwitch(_) => 3
    case TakeSlice(_) => 2
    case KeepRun | TakeRun(_) => 1
    case _ => 0
  }

  function PointsLeft(point: ScanPoint): nat {
    match point
    case ReadRecharge => 7
    case Mark => 6
    case TestStatus => 5
    case TestAffinity => 4
    case TestSlice => 3
    case Compare => 2
    case ClearMark => 1
    case ZeroSlice => 0
  }

  function ScansLeft(pc: Pc): nat {
    if pc.Scan? then Selection.ScansLeft(pc.list, pc.high) else 0
  }

  function ThreadsLeft(pc: Pc, lists: seq<seq<nat>>): nat {
    if pc.Scan? && pc.list < |lists| && pc.pos <= |lists[pc.list]| then |lists[pc.list]| - pc.pos else 0
  }

  /** The call is nearer to its end. */
  predicate Nearer(pc': Pc, pc: Pc, lists: seq<seq<nat>>) {
    Phase(pc') < Phase(pc) || (pc.Scan? && pc'.Scan? && NearerScan(pc', pc, lists))
  }

  predicate NearerScan(pc': Pc, pc: Pc, lists: seq<seq<nat>>)
    requires pc.Scan? && pc'.Scan?
  {
    if ScansLeft(pc') != ScansLeft(pc) then ScansLeft(pc') < ScansLeft(pc)
    else if ThreadsLeft(pc', lists) != ThreadsLeft(pc, lists) then ThreadsLeft(pc', lists) < ThreadsLeft(pc, lists)
    else PointsLeft(pc'.point) < PointsLeft(pc.point)
  }

  lemma AccessNearer(pc: Pc, t: nat, threads: seq<Thread>, lists: seq<seq<nat>>, c: nat)
    requires pc.Scan? && t < |threads| && (pc.best.Some? ==> pc.best.value < |threads|)
    requires pc.list < |lists| && pc.pos < |lists[pc.list]|
    ensures Nearer(Access(pc, t, threads, c).0, pc, lists)
  {
  }

  lemma CursorNearer(s: State, e: Event)
    requires WellFormed(s) && e.cpu < |s.pcs| && s.pcs[e.cpu].Scan?
    requires s.pcs[e.cpu].list < 4 && s.pcs[e.cpu].pos < |s.lists[s.pcs[e.cpu].list]|
    ensures Nearer(Step(s, e).pcs[e.cpu], s.pcs[e.cpu], s.lists)
  {
    CursorSeen(s, e);
    AccessNearer(s.pcs[e.cpu], s.lists[s.pcs[e.cpu].list][s.pcs[e.cpu].pos], s.threads, s.lists, e.cpu);
  }

  lemma DoneNearer(s: State, e: Event)
    requires WellFormed(s) && e.cpu < |s.pcs| && s.pcs[e.cpu].Scan? && s.pcs[e.cpu].high < 2
    requires s.pcs[e.cpu].list < 4 && s.pcs[e.cpu].pos == |s.lists[s.pcs[e.cpu].list]|
    ensures Nearer(Step(s, e).pcs[e.cpu], s.pcs[e.cpu], s.lists)
  {
    ListDoneSeen(s, e);
  }

  lemma ScanNearer(s: State, e: Event, g: Outcome)
    requires WellFormed(s) && e.cpu < |s.pcs| && s.pcs[e.cpu].Scan?
    requires Heads(ViewOf(s, e.cpu), s.lists, s.idle[e.cpu], e.cpu, g)
    ensures Nearer(Step(s, e).pcs[e.cpu], s.pcs[e.cpu], s.lists)
  {
    var pc := s.pcs[e.cpu];
    assert PcInRange(pc, s.current[e.cpu].Some?, |s.threads|, s.lists);
    if pc.pos < |s.lists[pc.list]| { CursorNearer(s, e); } else { DoneNearer(s, e); }
  }

  lemma TakeNearer(s: State, e: Event, g: Outcome)
    requires WellFormed(s) && e.cpu < |s.pcs| && Taking(s.pcs[e.cpu])
    requires Heads(ViewOf(s, e.cpu), s.lists, s.idle[e.cpu], e.cpu, g)
    ensures Step(s, e).pcs[e.cpu].Outside? || Nearer(Step(s, e).pcs[e.cpu], s.pcs[e.cpu], s.lists)
  {
    TakeSeen(s, e);
  }

  function PcOf(s: State, e: Event): Pc {
    if e.cpu < |s.pcs| then s.pcs[e.cpu] else Outside
  }

  lemma {:induction false} HeadsEnds(s: State, e: Event, g: Outcome) returns (events: seq<Event>)
    requires WellFormed(s) && e.cpu < |s.pcs| && !s.pcs[e.cpu].Outside?
    requires Heads(ViewOf(s, e.cpu), s.lists, s.idle[e.cpu], e.cpu, g)
    ensures Whole(s, e.cpu, events)
    decreases Phase(PcOf(s, e)), ScansLeft(PcOf(s, e)), ThreadsLeft(PcOf(s, e), s.lists),
      if PcOf(s, e).Scan? then PointsLeft(PcOf(s, e).point) else 0
  {
    var s' := Step(s, e);
    StepHeads(s, e, g);
    StepSeen(s, e);
    if s.pcs[e.cpu].Scan? { ScanNearer(s, e, g); } else { TakeNearer(s, e, g); }
    if s'.pcs[e.cpu].Outside? {
      events := [e];
    } else {
      var later := HeadsEnds(s', e, g);
      events := [e] + later;
      assert events[1..] == later;
    }
  }

  /** How many steps are left before the callbacks, at most. */
  function StepsLeft(pc: Pc, n: nat): nat {
    match pc
    case Raise => n + 9
    case CheckIdle => n + 8
    case Counting(i, _) => if i <= n then n - i + 6 else 6
    case WonStamp => 5
    case WonReady => 4
    case WonStop => 3
    case WonAffinity => 2
    case IdleWait => 2
    case Callbacks => 1
    case _ => 0
  }

  lemma BegunNearer(s0: State, s: State, e: Event, wake: set<nat>)
    requires Begun(s0, s, e.cpu, wake) && !s.pcs[e.cpu].IdleLower? && !s.pcs[e.cpu].Callbacks? && e.answer
    ensures StepsLeft(Step(s, e).pcs[e.cpu], |s.pcs|) < StepsLeft(s.pcs[e.cpu], |s.pcs|)
  {
    StepSeen(s, e);
  }

  lemma {:induction false} BegunEnds(s0: State, s: State, e: Event, wake: set<nat>) returns (events: seq<Event>)
    requires Begun(s0, s, e.cpu, wake) && e.answer && e.target == |s.threads|
    ensures Whole(s, e.cpu, events)
    decreases if e.cpu < |s.pcs| then StepsLeft(s.pcs[e.cpu], |s.pcs|) else 0
  {
    if s.pcs[e.cpu].IdleLower? {
      IdleEnds(s0, s, e, wake);
      events := [e];
    } else {
      var later;
      StepSeen(s, e);
      if s.pcs[e.cpu].Callbacks? {
        SearchBegins(s0, s, e, wake);
        SearchStarts(s, e);
        later := HeadsEnds(Step(s, e), e, Expected(s0, e.cpu, e.startList % 4, wake));
      } else {
        BegunNearer(s0, s, e, wake);
        StepBegun(s0, s, e, wake);
        BegunInside(s0, Step(s, e), e.cpu, wake + Answer(s, e));
        later := BegunEnds(s0, Step(s, e), e, wake + Answer(s, e));
      }
      events := [e] + later;
      assert events[1..] == later;
    }
  }

  /** A call that no other CPU interferes with ends, from whichever list it starts. */
  lemma SoloEnds(s: State, c: nat, start: nat) returns (events: seq<Event>)
    requires Alone(s, c)
    ensures Whole(s, c, events)
  {
    var e := Event(c, start, true, |s.threads|);
    Begins(s, e);
    BegunInside(s, Step(s, e), c, {});
    var later := BegunEnds(s, Step(s, e), e, {});
    events := [e] + later;
    assert events[1..] == later;
  }

  // ----- a call that loses

  /** What a call comes to that has counted another flag: the current thread goes on if it can, else it is released. */
  function LostOutcome(threads: seq<Thread>, current: Option<nat>, idle: nat, c: nat, now: nat): Outcome
    requires idle < |threads| && (current.Some? ==> current.value < |threads|)
  {
    if current.None? || ThreadCanRun(threads[current.value], c) then Outcome(threads, current)
    else
      var t := threads[current.value];
      var released := threads[current.value :=
        t.(lastPreempted := now, affinity := t.ogAffinity, status := t.status.(canRun := true, running := false))];
      Outcome(released[idle := Dispatched(released[idle])], Some(idle))
  }

  /** What is still to be stored to the thread that a losing call releases. */
  function LostFrom(t: Thread, now: nat, pc: Pc): Thread {
    match pc
    case LostStamp =>
      t.(lastPreempted := now, affinity := t.ogAffinity, status := t.status.(canRun := true, running := false))
    case LostReady => t.(affinity := t.ogAffinity, status := t.status.(canRun := true, running := false))
    case LostStop => t.(affinity := t.ogAffinity, status := t.status.(running := false))
    case LostAffinity => t.(affinity := t.ogAffinity)
    case _ => t
  }

  ghost predicate Losing(v: View, idle: nat, c: nat, now: nat, g: Outcome) {
    && idle < |v.threads| && (v.current.Some? ==> v.current.value < |v.threads|)
    && match v.pc
       case LostLower => g == LostOutcome(v.threads, v.current, idle, c, now)
       case LostTest => v.current.Some? && g == LostOutcome(v.threads, v.current, idle, c, now)
       case LostStamp | LostReady | LostStop | LostAffinity =>
         && v.current.Some? && g.current == Some(idle)
         && var released := v.threads[v.current.value := LostFrom(v.threads[v.current.value], now, v.pc)];
            g.threads == released[idle := Dispatched(released[idle])]
       case LostRunIdle => g == Outcome(v.threads[idle := Dispatched(v.threads[idle])], Some(idle))
       case LostSwitch => g == Outcome(v.threads, Some(idle))
       case Outside => g == Outcome(v.threads, v.current)
       case _ => false
  }

  lemma LosingSeen(s: State, e: Event, g: Outcome)
    requires WellFormed(s) && e.cpu < |s.pcs| && !s.pcs[e.cpu].Outside?
    requires Losing(ViewOf(s, e.cpu), s.idle[e.cpu], e.cpu, s.ticks, g)
    ensures var f := FallBack(s, e.cpu);
      ViewOf(Step(s, e), e.cpu) == View(f.pc, Stored(s.threads, f.store), f.current) && Step(s, e).ticks == s.ticks
  {
    StepSeen(s, e);
  }

  lemma LosingEarly(s: State, e: Event, g: Outcome)
    requires WellFormed(s) && e.cpu < |s.pcs| && (s.pcs[e.cpu].LostLower? || s.pcs[e.cpu].LostTest?)
    requires Losing(ViewOf(s, e.cpu), s.idle[e.cpu], e.cpu, s.ticks, g)
    ensures Losing(ViewOf(Step(s, e), e.cpu), s.idle[e.cpu], e.cpu, s.ticks, g)
  {
    LosingSeen(s, e, g);
  }

  lemma LosingRelease(s: State, e: Event, g: Outcome)
    requires WellFormed(s) && e.cpu < |s.pcs|
    requires var pc := s.pcs[e.cpu]; pc.LostStamp? || pc.LostReady? || pc.LostStop? || pc.LostAffinity?
    requires Losing(ViewOf(s, e.cpu), s.idle[e.cpu], e.cpu, s.ticks, g)
    ensures Losing(ViewOf(Step(s, e), e.cpu), s.idle[e.cpu], e.cpu, s.ticks, g)
  {
    LosingSeen(s, e, g);
  }

  lemma LosingSwitch(s: State, e: Event, g: Outcome)
    requires WellFormed(s) && e.cpu < |s.pcs| && (s.pcs[e.cpu].LostRunIdle? || s.pcs[e.cpu].LostSwitch?)
    requires Losing(ViewOf(s, e.cpu), s.idle[e.cpu], e.cpu, s.ticks, g)
    ensures Losing(ViewOf(Step(s, e), e.cpu), s.idle[e.cpu], e.cpu, s.ticks, g)
  {
    LosingSeen(s, e, g);
  }

  lemma {:induction false} LosesTo(s: State, c: nat, events: seq<Event>, g: Outcome)
    requires WellFormed(s) && Whole(s, c, events) && !s.pcs[c].Outside?
    requires Losing(ViewOf(s, c), s.idle[c], c, s.ticks, g)
    ensures Comes(Run(s, events), c, g)
    decreases |events|
  {
    var pc, e := s.pcs[c], events[0];
    StepSeen(s, e);
    if pc.LostLower? || pc.LostTest? {
      LosingEarly(s, e, g);
    } else if pc.LostRunIdle? || pc.LostSwitch? {
      LosingSwitch(s, e, g);
    } else {
      LosingRelease(s, e, g);
    }
    if |events| == 1 { RunOne(s, events); } else { LosesTo(Step(s, e), c, events[1..], g); }
  }

  /**
   A call that has counted a flag besides its own, if no other CPU takes a step until it returns: a
   thread that can run keeps the CPU, and any other is released, stamped and replaced by the idle thread.
   */
  lemma LosingCall(s: State, c: nat, events: seq<Event>)
    requires WellFormed(s) && c < |s.pcs| && s.pcs[c].LostLower? && Whole(s, c, events)
    ensures Comes(Run(s, events), c, LostOutcome(s.threads, s.current[c], s.idle[c], c, s.ticks))
  {
    LosesTo(s, c, events, LostOutcome(s.threads, s.current[c], s.idle[c], c, s.ticks));
  }
}
