/**
 The physical page allocator: a doubly linked list of free runs of pages whose headers live in the
 first page of each run. Pages are named by their number, 0 is the null pointer.
 */
module PageList {
  import opened Options
  import opened LinkedList
  import opened Selection

  /** The header at the start of a free run, or whatever an allocated page holds there. */
  datatype Header = Header(next: nat, prev: nat, nPages: nat)

  /** Page `p` is in the run of the listed node `i`. */
  predicate InRun(mem: map<nat, Header>, nodes: seq<nat>, i: nat, p: nat) {
    i < |nodes| && nodes[i] in mem && nodes[i] <= p < nodes[i] + mem[nodes[i]].nPages
  }

  ghost predicate Free(mem: map<nat, Header>, nodes: seq<nat>, p: nat) {
    exists i: nat :: InRun(mem, nodes, i, p)
  }

  ghost predicate NodeOk(mem: map<nat, Header>, nodes: seq<nat>, i: nat)
    requires i < |nodes|
  {
    && nodes[i] != 0 && nodes[i] in mem && mem[nodes[i]].nPages > 0
    && mem[nodes[i]].prev == Prev(nodes, i)
    // the last header's next field is whatever the page held before it was freed
    && (i + 1 < |nodes| ==> mem[nodes[i]].next == nodes[i + 1])
  }

  /** The list runs through `nodes`, and no page is in two runs. */
  ghost predicate Listed(mem: map<nat, Header>, head: nat, tail: nat, nodes: seq<nat>) {
    && (forall i :: 0 <= i < |nodes| ==> NodeOk(mem, nodes, i))
    && (forall i: nat, j: nat, p: nat :: InRun(mem, nodes, i, p) && InRun(mem, nodes, j, p) ==> i == j)
    && Ends(head, tail) == EndsOf(nodes)
  }

  /** Every page is either free or held by a caller. */
  ghost predicate Partition(mem: map<nat, Header>, nodes: seq<nat>, held: set<nat>) {
    forall p: nat :: p in mem ==> (p in held <==> !Free(mem, nodes, p))
  }

  ghost predicate RunsInMemory(mem: map<nat, Header>, nodes: seq<nat>) {
    forall i: nat, p: nat :: InRun(mem, nodes, i, p) ==> p in mem
  }

  function Pages(start: nat, n: nat): (r: set<nat>)
    ensures forall p: nat :: p in r <==> start <= p < start + n
  {
    if n == 0 then {} else Pages(start, n - 1) + {start + n - 1}
  }

  /** The first listed node with at least `n` pages. */
  function FirstFit(mem: map<nat, Header>, nodes: seq<nat>, n: nat): (k: nat)
    ensures k <= |nodes|
    ensures forall i :: 0 <= i < k && nodes[i] in mem ==> mem[nodes[i]].nPages < n
    ensures k < |nodes| ==> nodes[k] in mem && mem[nodes[k]].nPages >= n
  {
    if nodes == [] then 0
    else if nodes[0] in mem && mem[nodes[0]].nPages >= n then 0
    else 1 + FirstFit(mem, nodes[1..], n)
  }

  /** What the free pages are after run `k` has lost the pages from `start` on to its end. */
  ghost predicate Lost(mem: map<nat, Header>, nodes: seq<nat>, mem': map<nat, Header>, nodes': seq<nat>, start: nat,
                       n: nat) {
    forall p: nat :: Free(mem', nodes', p) <==> Free(mem, nodes, p) && !(start <= p < start + n)
  }

  lemma NodeIsFree(mem: map<nat, Header>, head: nat, tail: nat, nodes: seq<nat>, i: nat)
    requires Listed(mem, head, tail, nodes) && i < |nodes|
    ensures Free(mem, nodes, nodes[i])
    ensures forall j :: 0 <= j < |nodes| && nodes[j] == nodes[i] ==> j == i
  {
    assert NodeOk(mem, nodes, i);
    assert InRun(mem, nodes, i, nodes[i]);
    forall j | 0 <= j < |nodes| && nodes[j] == nodes[i] ensures j == i {
      assert InRun(mem, nodes, j, nodes[i]);
    }
  }

  /** A run that gives up its last pages but not all. */
  lemma Shrunk(mem: map<nat, Header>, head: nat, tail: nat, nodes: seq<nat>, k: nat, n: nat)
    requires Listed(mem, head, tail, nodes) && k < |nodes| && nodes[k] in mem && 0 < n < mem[nodes[k]].nPages
    ensures var left := mem[nodes[k]].nPages - n;
      var mem' := mem[nodes[k] := mem[nodes[k]].(nPages := left)];
      Listed(mem', head, tail, nodes) && Lost(mem, nodes, mem', nodes, nodes[k] + left, n)
  {
    var left := mem[nodes[k]].nPages - n;
    var mem' := mem[nodes[k] := mem[nodes[k]].(nPages := left)];
    NodeIsFree(mem, head, tail, nodes, k);
    forall i: nat, p: nat ensures InRun(mem', nodes, i, p) <==>
      InRun(mem, nodes, i, p) && !(nodes[k] + left <= p < nodes[k] + left + n)
    {
      assert i != k ==> !InRun(mem, nodes, i, p) || !InRun(mem, nodes, k, p);
    }
    forall i | 0 <= i < |nodes| ensures NodeOk(mem', nodes, i) {
      assert NodeOk(mem, nodes, i);
    }
    forall p: nat ensures Free(mem', nodes, p) <==>
      Free(mem, nodes, p) && !(nodes[k] + left <= p < nodes[k] + left + n) {
      if Free(mem, nodes, p) && !(nodes[k] + left <= p < nodes[k] + left + n) {
        var i: nat :| InRun(mem, nodes, i, p);
        assert InRun(mem', nodes, i, p);
      }
    }
  }

  /** The pages stay partitioned exactly if the pages returned are those taken off the list. */
  lemma PartitionAfter(mem: map<nat, Header>, nodes: seq<nat>, held: set<nat>, mem': map<nat, Header>, nodes': seq<nat>,
                       start: nat, n: nat, ret: nat)
    requires Partition(mem, nodes, held) && held <= mem.Keys && n > 0 && mem'.Keys == mem.Keys
    requires Lost(mem, nodes, mem', nodes', start, n)
    requires forall p: nat :: start <= p < start + n ==> p in mem && Free(mem, nodes, p)
    ensures Partition(mem', nodes', held + Pages(ret, n)) <==> ret == start
  {
    if ret == start {
      forall p: nat | p in mem' ensures p in held + Pages(ret, n) <==> !Free(mem', nodes', p) {
        assert p in held <==> !Free(mem, nodes, p);
      }
    } else {
      var p := if ret > start then start else start + n - 1;
      assert p in mem && Free(mem, nodes, p) && !Free(mem', nodes', p);
      assert p !in held + Pages(ret, n);
    }
  }

  /** What memory holds after the node at `a` was unlinked with no pages left. */
  function UnlinkedHeader(mem: map<nat, Header>, a: nat, p: nat): Header
    requires a in mem && p in mem
  {
    if p == a then Header(0, 0, 0)
    else
      var m := if mem[a].next != 0 && p == mem[a].next then mem[p].(prev := mem[a].prev) else mem[p];
      if mem[a].prev != 0 && p == mem[a].prev then m.(next := mem[a].next) else m
  }

  lemma RemovedNode(mem: map<nat, Header>, mem': map<nat, Header>, head: nat, tail: nat, nodes: seq<nat>, k: nat,
                    i: nat)
    requires Listed(mem, head, tail, nodes) && k < |nodes| && nodes[k] in mem && i < |nodes| - 1
    requires k == |nodes| - 1 ==> mem[nodes[k]].next == 0
    requires mem'.Keys == mem.Keys && forall p :: p in mem ==> mem'[p] == UnlinkedHeader(mem, nodes[k], p)
    ensures NodeOk(mem', Cut(nodes, k), i) && mem'[Cut(nodes, k)[i]].nPages == mem[Cut(nodes, k)[i]].nPages
  {
    var j := if i < k then i else i + 1;
    assert Cut(nodes, k)[i] == nodes[j];
    NodeIsFree(mem, head, tail, nodes, k);
    NodeIsFree(mem, head, tail, nodes, j);
    assert NodeOk(mem, nodes, j) && NodeOk(mem, nodes, k);
    if k + 1 < |nodes| {
      NodeIsFree(mem, head, tail, nodes, k + 1);
      assert NodeOk(mem, nodes, k + 1);
    }
    if k > 0 {
      NodeIsFree(mem, head, tail, nodes, k - 1);
      assert NodeOk(mem, nodes, k - 1);
    }
  }

  /** A run that gives up all its pages leaves the list. */
  lemma Removed(mem: map<nat, Header>, mem': map<nat, Header>, head: nat, tail: nat, nodes: seq<nat>, k: nat)
    requires Listed(mem, head, tail, nodes) && k < |nodes| && nodes[k] in mem
    requires k == |nodes| - 1 ==> mem[nodes[k]].next == 0
    requires mem'.Keys == mem.Keys && forall p :: p in mem ==> mem'[p] == UnlinkedHeader(mem, nodes[k], p)
    ensures var a := mem[nodes[k]];
      Listed(mem', if head == nodes[k] then a.next else head, if tail == nodes[k] then a.prev else tail, Cut(nodes, k))
      && Lost(mem, nodes, mem', Cut(nodes, k), nodes[k], a.nPages)
  {
    var rest := Cut(nodes, k);
    forall i | 0 <= i < |rest| ensures NodeOk(mem', rest, i) && mem'[rest[i]].nPages == mem[rest[i]].nPages {
      RemovedNode(mem, mem', head, tail, nodes, k, i);
    }
    forall i: nat, p: nat ensures InRun(mem', rest, i, p) <==>
      i < |rest| && InRun(mem, nodes, if i < k then i else i + 1, p) {
      if i < |rest| { assert rest[i] == nodes[if i < k then i else i + 1]; }
    }
    LostRun(mem, mem', head, tail, nodes, k);
    assert NodeOk(mem, nodes, k);
    NodeIsFree(mem, head, tail, nodes, k);
    if k + 1 < |nodes| { NodeIsFree(mem, head, tail, nodes, k + 1); }
    NodeIsFree(mem, head, tail, nodes, 0);
    NodeIsFree(mem, head, tail, nodes, |nodes| - 1);
  }

  lemma LostRun(mem: map<nat, Header>, mem': map<nat, Header>, head: nat, tail: nat, nodes: seq<nat>, k: nat)
    requires Listed(mem, head, tail, nodes) && k < |nodes| && nodes[k] in mem
    requires forall i: nat, p: nat :: InRun(mem', Cut(nodes, k), i, p) <==>
      i < |Cut(nodes, k)| && InRun(mem, nodes, if i < k then i else i + 1, p)
    ensures Lost(mem, nodes, mem', Cut(nodes, k), nodes[k], mem[nodes[k]].nPages)
  {
    var rest := Cut(nodes, k);
    forall p: nat ensures Free(mem', rest, p) <==>
      Free(mem, nodes, p) && !(nodes[k] <= p < nodes[k] + mem[nodes[k]].nPages) {
      if Free(mem, nodes, p) && !(nodes[k] <= p < nodes[k] + mem[nodes[k]].nPages) {
        var i: nat :| InRun(mem, nodes, i, p);
        assert InRun(mem', rest, if i < k then i else i - 1, p);
      }
      if Free(mem', rest, p) {
        var i: nat :| InRun(mem', rest, i, p);
        var j := if i < k then i else i + 1;
        assert InRun(mem, nodes, j, p);
        assert !InRun(mem, nodes, k, p);
      }
    }
  }

  /** What memory holds after the run of `n` pages at `a` was appended to the list. */
  function Appended(mem: map<nat, Header>, tail: nat, a: nat, n: nat, p: nat): Header
    requires p in mem
  {
    if p == a then Header(mem[p].next, tail, n) else if tail != 0 && p == tail then mem[p].(next := a) else mem[p]
  }

  /** A freed run joins the end of the list. */
  lemma Joined(mem: map<nat, Header>, mem': map<nat, Header>, head: nat, tail: nat, nodes: seq<nat>, a: nat, n: nat)
    requires Listed(mem, head, tail, nodes) && a != 0 && n > 0 && a in mem
    requires forall p: nat :: a <= p < a + n ==> !Free(mem, nodes, p)
    requires mem'.Keys == mem.Keys && forall p :: p in mem ==> mem'[p] == Appended(mem, tail, a, n, p)
    ensures Listed(mem', if head == 0 then a else head, a, nodes + [a])
    ensures forall p: nat :: Free(mem', nodes + [a], p) <==> Free(mem, nodes, p) || a <= p < a + n
  {
    var all := nodes + [a];
    forall i | 0 <= i < |nodes| ensures nodes[i] != a && nodes[i] in mem
      && mem'[nodes[i]].nPages == mem[nodes[i]].nPages {
      NodeIsFree(mem, head, tail, nodes, i);
      assert NodeOk(mem, nodes, i);
    }
    forall i | 0 <= i < |all| ensures NodeOk(mem', all, i) {
      if i < |nodes| {
        assert NodeOk(mem, nodes, i);
        NodeIsFree(mem, head, tail, nodes, |nodes| - 1);
      }
    }
    forall i: nat, p: nat
      ensures InRun(mem', all, i, p) <==> InRun(mem, nodes, i, p) || (i == |nodes| && a <= p < a + n)
      ensures InRun(mem, nodes, i, p) ==> Free(mem, nodes, p)
    {
      assert i < |nodes| ==> all[i] == nodes[i];
    }
    forall p: nat ensures Free(mem', all, p) <==> Free(mem, nodes, p) || a <= p < a + n {
      assert a <= p < a + n ==> InRun(mem', all, |nodes|, p);
      if Free(mem, nodes, p) {
        var i: nat :| InRun(mem, nodes, i, p);
        assert InRun(mem', all, i, p);
      }
    }
    if nodes != [] { assert NodeOk(mem, nodes, 0); }
  }

  /** The call looks at the next field of the last header. */
  predicate FollowsLast(mem: map<nat, Header>, nodes: seq<nat>, n: nat) {
    var k := FirstFit(mem, nodes, n);
    k == |nodes| || (k == |nodes| - 1 && mem[nodes[k]].nPages == n)
  }

  /**
   What a successful allocation did. The pages leave the first run that has enough, the address is
   counted from the head of the list, and the two agree exactly if the head is that run.
   */
  ghost predicate Served(mem: map<nat, Header>, nodes: seq<nat>, held: set<nat>,
                         mem': map<nat, Header>, nodes': seq<nat>, held': set<nat>, n: nat, ret: nat)
  {
    var k := FirstFit(mem, nodes, n);
    k < |nodes| &&
    var left := mem[nodes[k]].nPages - n;
    && ret == nodes[0] + left
    && Lost(mem, nodes, mem', nodes', nodes[k] + left, n)
    && held' == held + Pages(ret, n)
    && (Partition(mem', nodes', held') <==> k == 0)
  }

  /** A request for one page is always served by the head of the list. */
  lemma OnePage(mem: map<nat, Header>, head: nat, tail: nat, nodes: seq<nat>)
    requires Listed(mem, head, tail, nodes) && nodes != []
    ensures FirstFit(mem, nodes, 1) == 0
  {
    assert NodeOk(mem, nodes, 0);
  }

  /**
   A call that takes every page of the only run leaves a well-formed list exactly if the next field
   of that run's header was null: it becomes the head of the list.
   */
  lemma Drained(mem: map<nat, Header>, mem': map<nat, Header>, head: nat, tail: nat, nodes: seq<nat>)
    requires Listed(mem, head, tail, nodes) && |nodes| == 1 && nodes[0] in mem
    requires mem'.Keys == mem.Keys && forall p :: p in mem ==> mem'[p] == UnlinkedHeader(mem, nodes[0], p)
    ensures (exists nodes' :: Listed(mem', mem[nodes[0]].next, mem[nodes[0]].prev, nodes')) <==> mem[nodes[0]].next == 0
  {
    assert NodeOk(mem, nodes, 0);
    if mem[nodes[0]].next == 0 {
      Removed(mem, mem', head, tail, nodes, 0);
    } else {
      forall nodes' ensures !Listed(mem', mem[nodes[0]].next, 0, nodes') {
        assert nodes' != [] && (forall i :: 0 <= i < |nodes'| ==> NodeOk(mem', nodes', i)) ==>
          NodeOk(mem', nodes', |nodes'| - 1);
      }
    }
  }

  /** No held page holds the header of a listed node. */
  lemma HeldHoldsNoHeader(mem: map<nat, Header>, head: nat, tail: nat, nodes: seq<nat>, held: set<nat>)
    requires Listed(mem, head, tail, nodes) && Partition(mem, nodes, held)
    ensures forall i :: 0 <= i < |nodes| ==> nodes[i] !in held
  {
    forall i | 0 <= i < |nodes| ensures nodes[i] !in held {
      NodeIsFree(mem, head, tail, nodes, i);
      assert NodeOk(mem, nodes, i);
    }
  }

  predicate Apart(p: nat, a: nat, pages: set<nat>) {
    p != 0 ==> p in pages && p != a
  }

  lemma NodeNeighbours(mem: map<nat, Header>, head: nat, tail: nat, nodes: seq<nat>, k: nat)
    requires Listed(mem, head, tail, nodes) && k < |nodes| && nodes[k] in mem
    requires k == |nodes| - 1 ==> mem[nodes[k]].next == 0
    ensures Apart(mem[nodes[k]].next, nodes[k], mem.Keys) && Apart(mem[nodes[k]].prev, nodes[k], mem.Keys)
  {
    NodeIsFree(mem, head, tail, nodes, k);
    assert NodeOk(mem, nodes, k);
    assert k + 1 < |nodes| ==> NodeOk(mem, nodes, k + 1);
    assert k > 0 ==> NodeOk(mem, nodes, k - 1);
  }

  class PageAllocator {
    var mem: map<nat, Header> // the first bytes of every page
    var head: nat
    var tail: nat
    var nMemoryNodes: nat
    ghost var nodes: seq<nat>
    ghost var held: set<nat>

    ghost predicate Valid()
      reads this
    {
      && Listed(mem, head, tail, nodes) && RunsInMemory(mem, nodes)
      && held <= mem.Keys && Partition(mem, nodes, held)
    }

    /**
     Takes `nPages` pages off the first run that has as many, and returns the address computed from
     the head of the list. The pages stay partitioned exactly if the head run was the one that
     served the call.
     */
    method AllocatePhysicalPage(nPages: nat) returns (ret: nat)
      requires Valid() && nPages > 0 && nodes != []
      requires FollowsLast(mem, nodes, nPages) ==> tail in mem && mem[tail].next == 0
      modifies this`mem, this`head, this`tail, this`nodes, this`held
      ensures Listed(mem, head, tail, nodes) && RunsInMemory(mem, nodes) && mem.Keys == old(mem.Keys)
      ensures ret == 0 <==> FirstFit(old(mem), old(nodes), nPages) == |old(nodes)|
      ensures ret == 0 ==> mem == old(mem) && nodes == old(nodes) && held == old(held)
      ensures ret != 0 ==> Served(old(mem), old(nodes), old(held), mem, nodes, held, nPages, ret)
      ensures FirstFit(old(mem), old(nodes), nPages) == 0 ==> Valid() && Pages(ret, nPages) !! old(held)
    {
      var nodePhys := FindNode(nPages);
      if nodePhys == 0 {
        return 0;
      }
      ret := TakeFrom(nodePhys, nPages, FirstFit(mem, nodes, nPages));
    }

    method TakeFrom(nodePhys: nat, nPages: nat, ghost k: nat) returns (ret: nat)
      requires Valid() && nPages > 0 && nodes != [] && k == FirstFit(mem, nodes, nPages)
      requires k < |nodes| && nodePhys == nodes[k] && nodePhys in mem
      requires k == |nodes| - 1 && mem[nodePhys].nPages == nPages ==> mem[nodePhys].next == 0
      modifies this`mem, this`head, this`tail, this`nodes, this`held
      ensures Listed(mem, head, tail, nodes) && RunsInMemory(mem, nodes) && mem.Keys == old(mem.Keys) && ret != 0
      ensures Served(old(mem), old(nodes), old(held), mem, nodes, held, nPages, ret)
      ensures k == 0 ==> Valid() && Pages(ret, nPages) !! old(held)
    {
      assert NodeOk(mem, nodes, 0);
      ret := head;
      var left := mem[nodePhys].nPages - nPages;
      RunIsFree(mem, head, tail, nodes, k);
      NodeIsFree(mem, head, tail, nodes, k);
      TakePages(nodePhys, nPages, k);
      ret := ret + left;
      PartitionAfter(old(mem), old(nodes), held, mem, nodes, nodePhys + left, nPages, ret);
      held := held + Pages(ret, nPages);
    }

    /** The walk to the first node with enough pages, 0 if there is none. */
    method FindNode(nPages: nat) returns (nodePhys: nat)
      requires Listed(mem, head, tail, nodes) && nodes != []
      requires FollowsLast(mem, nodes, nPages) ==> tail in mem && mem[tail].next == 0
      ensures var k := FirstFit(mem, nodes, nPages);
        if k == |nodes| then nodePhys == 0 else nodePhys == nodes[k] && nodePhys != 0 && nodePhys in mem
    {
      ghost var k, fit := 0, FirstFit(mem, nodes, nPages);
      nodePhys := head;
      assert NodeOk(mem, nodes, 0);
      while mem[nodePhys].nPages < nPages
        invariant 0 <= k <= fit && k < |nodes| && nodePhys == nodes[k] && nodePhys in mem && nodePhys != 0
        decreases fit - k
      {
        assert NodeOk(mem, nodes, k);
        assert k + 1 < |nodes| ==> NodeOk(mem, nodes, k + 1);
        nodePhys := mem[nodePhys].next;
        if nodePhys == 0 {
          return;
        }
        k := k + 1;
      }
    }

    /** Takes a node out of the list. */
    method UnlinkNode(nodePhys: nat)
      requires nodePhys in mem && mem[nodePhys].nPages == 0
      requires Apart(mem[nodePhys].next, nodePhys, mem.Keys) && Apart(mem[nodePhys].prev, nodePhys, mem.Keys)
      modifies this`mem, this`head, this`tail
      ensures mem.Keys == old(mem.Keys)
      ensures forall p :: p in mem ==> mem[p] == UnlinkedHeader(old(mem), nodePhys, p)
      ensures head == (if old(head) == nodePhys then old(mem)[nodePhys].next else old(head))
      ensures tail == (if old(tail) == nodePhys then old(mem)[nodePhys].prev else old(tail))
    {
      var next, prev := mem[nodePhys].next, mem[nodePhys].prev;
      if next != 0 {
        mem := mem[next := mem[next].(prev := prev)];
      }
      if prev != 0 {
        mem := mem[prev := mem[prev].(next := next)];
      }
      if head == nodePhys {
        head := next;
      }
      if tail == nodePhys {
        tail := prev;
      }
      mem := mem[nodePhys := mem[nodePhys].(next := 0, prev := 0)];
    }

    /** Takes pages off the end of a node's run, and the node off the list if none are left. */
    method TakePages(nodePhys: nat, nPages: nat, ghost k: nat)
      requires Listed(mem, head, tail, nodes) && RunsInMemory(mem, nodes) && k < |nodes| && nodePhys == nodes[k]
      requires nodePhys in mem
      requires 0 < nPages <= mem[nodePhys].nPages
      requires k == |nodes| - 1 && mem[nodePhys].nPages == nPages ==> mem[nodePhys].next == 0
      modifies this`mem, this`head, this`tail, this`nodes
      ensures Listed(mem, head, tail, nodes) && RunsInMemory(mem, nodes) && mem.Keys == old(mem.Keys)
      ensures Lost(old(mem), old(nodes), mem, nodes, nodePhys + (old(mem)[nodePhys].nPages - nPages), nPages)
    {
      ghost var mem0 := mem;
      ghost var nodes0 := nodes;
      assert NodeOk(mem, nodes, k);
      mem := mem[nodePhys := mem[nodePhys].(nPages := mem[nodePhys].nPages - nPages)];
      if mem[nodePhys].nPages == 0 {
        NodeNeighbours(mem0, head, tail, nodes, k);
        UnlinkNode(nodePhys);
        nodes := Cut(nodes, k);
        Removed(mem0, mem, old(head), old(tail), nodes0, k);
      } else {
        Shrunk(mem0, head, tail, nodes, k, nPages);
      }
      LostInMemory(mem0, nodes0, mem, nodes, nodePhys + (mem0[nodePhys].nPages - nPages), nPages);
    }

    method AppendNode(addr: nat, nPages: nat)
      requires addr in mem && Apart(tail, addr, mem.Keys)
      modifies this`mem, this`head, this`tail, this`nMemoryNodes
      ensures mem.Keys == old(mem.Keys)
      ensures forall p :: p in mem ==> mem[p] == Appended(old(mem), old(tail), addr, nPages, p)
      ensures head == (if old(head) == 0 then addr else old(head)) && tail == addr
      ensures nMemoryNodes == old(nMemoryNodes) + 1
    {
      if tail != 0 {
        mem := mem[tail := mem[tail].(next := addr)];
      }
      if head == 0 {
        head := addr;
      }
      mem := mem[addr := mem[addr].(prev := tail)];
      tail := addr;
      mem := mem[addr := mem[addr].(nPages := nPages)];
      nMemoryNodes := nMemoryNodes + 1;
    }

    /** Puts a run of held pages at the end of the list; the next field of its header is left as it is. */
    method FreePhysicalPage(addr: nat, nPages: nat)
      requires Valid() && addr != 0 && nPages > 0 && Pages(addr, nPages) <= held
      modifies this
      ensures Valid() && held == old(held) - Pages(addr, nPages) && nodes == old(nodes) + [addr]
      ensures mem.Keys == old(mem.Keys) && nMemoryNodes == old(nMemoryNodes) + 1
    {
      ghost var mem0 := mem;
      assert addr in Pages(addr, nPages);
      forall p: nat | addr <= p < addr + nPages ensures p in mem && !Free(mem, nodes, p) {
        assert p in Pages(addr, nPages);
      }
      if nodes != [] { NodeIsFree(mem, head, tail, nodes, |nodes| - 1); assert NodeOk(mem, nodes, |nodes| - 1); }
      ghost var head0, tail0 := head, tail;
      AppendNode(addr, nPages);
      Joined(mem0, mem, head0, tail0, nodes, addr, nPages);
      ghost var nodes0 := nodes;
      nodes := nodes + [addr];
      held := held - Pages(addr, nPages);
      FreedPartition(mem0, mem, nodes0, nodes, old(held), addr, nPages);
    }

    /** The holder of a page may write anything into it. */
    method Overwrite(page: nat, contents: Header)
      requires Valid() && page in held
      modifies this`mem
      ensures Valid() && mem == old(mem)[page := contents]
    {
      ghost var mem0 := mem;
      mem := mem[page := contents];
      Overwritten(mem0, head, tail, nodes, held, page, contents);
    }
  }

  lemma RunIsFree(mem: map<nat, Header>, head: nat, tail: nat, nodes: seq<nat>, k: nat)
    requires Listed(mem, head, tail, nodes) && RunsInMemory(mem, nodes) && k < |nodes| && nodes[k] in mem
    ensures forall p: nat :: nodes[k] <= p < nodes[k] + mem[nodes[k]].nPages ==> p in mem && Free(mem, nodes, p)
  {
    forall p: nat | nodes[k] <= p < nodes[k] + mem[nodes[k]].nPages ensures p in mem && Free(mem, nodes, p) {
      assert InRun(mem, nodes, k, p);
    }
  }

  lemma LostInMemory(mem: map<nat, Header>, nodes: seq<nat>, mem': map<nat, Header>, nodes': seq<nat>, start: nat,
                     n: nat)
    requires RunsInMemory(mem, nodes) && mem'.Keys == mem.Keys && Lost(mem, nodes, mem', nodes', start, n)
    ensures RunsInMemory(mem', nodes')
  {
    forall i: nat, p: nat | InRun(mem', nodes', i, p) ensures p in mem' {
      assert Free(mem', nodes', p);
      var j: nat :| InRun(mem, nodes, j, p);
    }
  }

  lemma FreedPartition(mem: map<nat, Header>, mem': map<nat, Header>, nodes: seq<nat>, nodes': seq<nat>,
                       held: set<nat>, a: nat, n: nat)
    requires RunsInMemory(mem, nodes) && mem'.Keys == mem.Keys && held <= mem.Keys && Partition(mem, nodes, held)
    requires Pages(a, n) <= held
    requires forall p: nat :: Free(mem', nodes', p) <==> Free(mem, nodes, p) || a <= p < a + n
    ensures RunsInMemory(mem', nodes') && Partition(mem', nodes', held - Pages(a, n))
  {
    forall p | p in mem' ensures p in held - Pages(a, n) <==> !Free(mem', nodes', p) {
      assert p in held <==> !Free(mem, nodes, p);
    }
    forall i: nat, p: nat | InRun(mem', nodes', i, p) ensures p in mem' {
      assert Free(mem', nodes', p);
      if a <= p < a + n { assert p in Pages(a, n); }
      else { var j: nat :| InRun(mem, nodes, j, p); }
    }
  }

  lemma Overwritten(mem: map<nat, Header>, head: nat, tail: nat, nodes: seq<nat>, held: set<nat>, page: nat,
                    contents: Header)
    requires Listed(mem, head, tail, nodes) && RunsInMemory(mem, nodes) && held <= mem.Keys
    requires Partition(mem, nodes, held)
    requires page in held
    ensures var mem' := mem[page := contents];
      Listed(mem', head, tail, nodes) && RunsInMemory(mem', nodes) && held <= mem'.Keys && Partition(mem', nodes, held)
  {
    var mem' := mem[page := contents];
    forall i | 0 <= i < |nodes| ensures nodes[i] != page && NodeOk(mem', nodes, i) {
      NodeIsFree(mem, head, tail, nodes, i);
      assert NodeOk(mem, nodes, i);
    }
    forall i: nat, p: nat ensures InRun(mem', nodes, i, p) <==> InRun(mem, nodes, i, p) {
      assert i < |nodes| ==> NodeOk(mem, nodes, i);
    }
    forall p | p in mem' ensures p in held <==> !Free(mem', nodes, p) {
      assert p in held <==> !Free(mem, nodes, p);
      if Free(mem, nodes, p) {
        var i: nat :| InRun(mem, nodes, i, p);
        assert InRun(mem', nodes, i, p);
      }
    }
  }

  datatype Request = Allocate(n: nat) | Release(addr: nat, n: nat) | Fill(page: nat, contents: Header)
  datatype Event = Got(addr: nat, n: nat) | Gave(addr: nat, n: nat)

  /** The pages a caller holds after a history of calls. */
  function HeldAfter(start: set<nat>, log: seq<Event>): set<nat> {
    if log == [] then start
    else
      var held := HeldAfter(start, log[..|log| - 1]);
      var e := log[|log| - 1];
      if e.Got? then held + Pages(e.addr, e.n) else held - Pages(e.addr, e.n)
  }

  /** No page is handed out while it is held, and only held pages are given back. */
  ghost predicate HandedOutOnce(start: set<nat>, log: seq<Event>) {
    forall i :: 0 <= i < |log| ==>
      var held := HeldAfter(start, log[..i]);
      if log[i].Got? then Pages(log[i].addr, log[i].n) !! held else Pages(log[i].addr, log[i].n) <= held
  }

  lemma Logged(start: set<nat>, log: seq<Event>, e: Event)
    requires HandedOutOnce(start, log)
    requires if e.Got? then Pages(e.addr, e.n) !! HeldAfter(start, log) else Pages(e.addr, e.n) <= HeldAfter(start, log)
    ensures HandedOutOnce(start, log + [e])
    ensures HeldAfter(start, log + [e]) ==
      if e.Got? then HeldAfter(start, log) + Pages(e.addr, e.n) else HeldAfter(start, log) - Pages(e.addr, e.n)
  {
    var all := log + [e];
    assert all[..|log|] == log;
    forall i | 0 <= i < |all| ensures
      var held := HeldAfter(start, all[..i]);
      if all[i].Got? then Pages(all[i].addr, all[i].n) !! held else Pages(all[i].addr, all[i].n) <= held
    {
      if i < |log| { assert all[..i] == log[..i]; }
    }
  }

  /**
   Any history of calls: allocations the head run can serve without draining a list whose last
   header has a stale next field, releases of held pages, and arbitrary writes into held pages.
   Requests outside that are passed over.
   */
  method Run(a: PageAllocator, pages: set<nat>, requests: seq<Request>) returns (log: seq<Event>)
    requires a.Valid() && pages == a.held
    modifies a
    ensures a.Valid() && a.mem.Keys == old(a.mem.Keys)
    ensures a.held == HeldAfter(old(a.held), log) && HandedOutOnce(old(a.held), log)
  {
    var held := pages;
    log := [];
    for i := 0 to |requests|
      invariant a.Valid() && a.mem.Keys == old(a.mem.Keys)
      invariant held == a.held == HeldAfter(pages, log) && HandedOutOnce(pages, log)
    {
      var e := Serve(a, held, requests[i]);
      match e {
        case None =>
        case Some(event) =>
          Logged(pages, log, event);
          log := log + [event];
          held := if event.Got? then held + Pages(event.addr, event.n) else held - Pages(event.addr, event.n);
      }
    }
  }

  method Serve(a: PageAllocator, held: set<nat>, request: Request) returns (event: Option<Event>)
    requires a.Valid() && held == a.held
    modifies a
    ensures a.Valid() && a.mem.Keys == old(a.mem.Keys)
    ensures event.None? ==> a.held == held
    ensures event.Some? && event.value.Got? ==>
      var pages := Pages(event.value.addr, event.value.n); a.held == held + pages && pages !! held
    ensures event.Some? && event.value.Gave? ==>
      var pages := Pages(event.value.addr, event.value.n); a.held == held - pages && pages <= held
  {
    event := None;
    match request {
      case Allocate(n) =>
        if n > 0 && a.head != 0 {
          assert NodeOk(a.mem, a.nodes, 0);
          assert NodeOk(a.mem, a.nodes, |a.nodes| - 1);
          var header := a.mem[a.head];
          if header.nPages >= n && (a.head == a.tail && header.nPages == n ==> header.next == 0) {
            var ret := a.AllocatePhysicalPage(n);
            event := Some(Got(ret, n));
          }
        }
      case Release(addr, n) =>
        if n > 0 && addr != 0 && Pages(addr, n) <= held {
          a.FreePhysicalPage(addr, n);
          event := Some(Gave(addr, n));
        }
      case Fill(page, contents) =>
        if page in held {
          a.Overwrite(page, contents);
        }
    }
  }
}
