/** Inputs on which the physical page allocator loses track of its pages. */
module PageFailures {
  import opened PageList

  /** Page 1 and the pages 3 and 4 are free, in this order. */
  const TWO_RUNS: map<nat, Header> := map[1 := Header(3, 0, 1), 3 := Header(0, 1, 2), 4 := Header(0, 0, 0)]

  lemma TwoRunsListed()
    ensures Listed(TWO_RUNS, 1, 3, [1, 3]) && Partition(TWO_RUNS, [1, 3], {}) && RunsInMemory(TWO_RUNS, [1, 3])
    ensures FirstFit(TWO_RUNS, [1, 3], 2) == 1
  {
    assert NodeOk(TWO_RUNS, [1, 3], 0) && NodeOk(TWO_RUNS, [1, 3], 1);
    assert InRun(TWO_RUNS, [1, 3], 0, 1) && InRun(TWO_RUNS, [1, 3], 1, 3) && InRun(TWO_RUNS, [1, 3], 1, 4);
  }

  /**
   A request for two pages is served by the second run: pages 3 and 4 leave the list, but page 1 is
   what is returned, although it is still free.
   */
  lemma NotHeadWitness(mem': map<nat, Header>, nodes': seq<nat>, held': set<nat>, ret: nat)
    requires Served(TWO_RUNS, [1, 3], {}, mem', nodes', held', 2, ret)
    ensures ret == 1 && 1 in held' && Free(mem', nodes', 1) && 3 !in held' && !Free(mem', nodes', 3)
    ensures !Partition(mem', nodes', held')
  {
    TwoRunsListed();
    assert Free(TWO_RUNS, [1, 3], 1) by { assert InRun(TWO_RUNS, [1, 3], 0, 1); }
  }

  /** Page 1 is free and page 9 is held. The next field of the only header still points to page 9. */
  const STALE: map<nat, Header> := map[1 := Header(9, 0, 1), 9 := Header(0, 0, 0)]

  /** Taking the only free page makes the held page 9 the head of the list. */
  lemma StaleWitness()
    ensures Listed(STALE, 1, 1, [1]) && Partition(STALE, [1], {9}) && RunsInMemory(STALE, [1])
    ensures forall nodes' :: !Listed(map[1 := Header(0, 0, 0), 9 := Header(0, 0, 0)], 9, 0, nodes')
  {
    assert NodeOk(STALE, [1], 0) && InRun(STALE, [1], 0, 1);
    Drained(STALE, map[1 := Header(0, 0, 0), 9 := Header(0, 0, 0)], 1, 1, [1]);
  }
}
