/** Vocabulary shared by the scheduler modules: thread records and the runnable test. */
module SchedulerTypes {

  /** The bits of the thread status word. */
  datatype Status = Status(dead: bool, canRun: bool, blocked: bool, paused: bool, recharge: bool, running: bool)

  /** The status word holding the CAN_RUN bit and nothing else. */
  const READY := Status(false, true, false, false, false, false)

  /** The scheduling fields of a thread. An affinity mask is the set of its bit numbers. */
  datatype Thread = Thread(
    status: Status,
    priority: nat,
    timeSlice: nat,
    lastPreempted: nat,
    affinity: set<nat>,
    ogAffinity: set<nat>)

  predicate ThreadCanRun(t: Thread, cpu: nat) {
    t.status == READY && cpu in t.affinity && t.timeSlice < t.priority
  }

  /** The list that `prevThreadList` of list `i` points at: 3, 2, 1, 0 and round again. */
  function PrevList(i: nat): nat {
    if i == 0 then 3 else i - 1
  }

  /** The thread is in one of the four run lists. */
  predicate Listed(lists: seq<seq<nat>>, t: nat)
    requires |lists| == 4
  {
    t in lists[0] || t in lists[1] || t in lists[2] || t in lists[3]
  }

  /** `(uint64_t)1 << cpuId` as the processor computes it: the shift count is taken modulo 64. */
  function Mask64(cpu: nat): set<nat> {
    {cpu % 64}
  }

  function Unblocked(t: Thread): Thread {
    t.(status := t.status.(blocked := false))
  }
}
